/** Assembly of Ethereum blocks in the runtime: pending transactions, receipts, the hash window, the digest log. */
module BlockAssembly {
  import opened Basics
  import opened Blooms
  import opened Consensus
  import RevertData

  datatype ExitReason = Succeed | Revert | OtherExit

  /** A transaction together with what executing it returned; `created` is the address that a creation returned. */
  datatype Execution = Execution(
    source: Hash, tx: Transaction, to: Option<Hash>, created: Option<Hash>, reason: ExitReason, output: Bytes,
    logs: seq<EthLog>, effectiveGas: U256)

  /** The `Executed` event. */
  datatype Event = Executed(from: Hash, to: Hash, hash: Hash, reason: ExitReason, extraData: Bytes)

  /** What is announced of an execution: its destination (the zero address for none), and a call's revert message. */
  function EventFor(hasher: Hasher, limit: nat, e: Execution): Event {
    var dest := if e.created.Some? then e.created else e.to;
    Executed(e.source, if dest.Some? then dest.value else 0, hasher.tx(e.tx), e.reason,
             if e.created.None? && e.reason.Revert? then RevertData.ExtraData(e.output, limit) else [])
  }

  datatype TransactionStatus = TransactionStatus(
    hash: Hash, index: nat, from: Hash, to: Option<Hash>, contract: Option<Hash>, logs: seq<EthLog>, bloom: Bloom)

  /** The four receipt variants hold the same data; `kind` says which one it is. */
  datatype Receipt = Receipt(kind: TxKind, statusCode: nat, usedGas: U256, bloom: Bloom, logs: seq<EthLog>)

  datatype Entry = Entry(tx: Transaction, status: TransactionStatus, receipt: Receipt)

  datatype PostLogContent = BlockAndTxnHashes | OnlyBlockHash

  // What a block's worth of executions must produce

  /** Gas used by the first `n` transactions, added with saturation at every step. */
  function CumulativeGas(applied: seq<Execution>, n: nat): U256
    requires n <= |applied|
  {
    if n == 0 then 0 else SaturatingAdd(CumulativeGas(applied, n - 1), applied[n - 1].effectiveGas)
  }

  function TotalGas(applied: seq<Execution>, n: nat): nat
    requires n <= |applied|
  {
    if n == 0 then 0 else TotalGas(applied, n - 1) + applied[n - 1].effectiveGas
  }

  function AllLogs(applied: seq<Execution>): seq<EthLog> {
    if |applied| == 0 then [] else AllLogs(applied[..|applied| - 1]) + applied[|applied| - 1].logs
  }

  function StatusFor(hasher: Hasher, bits: Bits, e: Execution, index: nat): TransactionStatus {
    TransactionStatus(hasher.tx(e.tx), index, e.source, e.to, e.created, e.logs, LogsBloom(bits, e.logs))
  }

  /** Entry `i` of a block: the transaction's own status, and a receipt with the gas of transactions 0 to `i`. */
  function EntryFor(hasher: Hasher, bits: Bits, applied: seq<Execution>, i: nat): Entry
    requires i < |applied|
  {
    var e := applied[i];
    Entry(e.tx, StatusFor(hasher, bits, e, i),
          Receipt(e.tx.kind, if e.reason.Succeed? then 1 else 0, CumulativeGas(applied, i + 1),
                  LogsBloom(bits, e.logs), e.logs))
  }

  function EntriesFor(hasher: Hasher, bits: Bits, applied: seq<Execution>): (r: seq<Entry>)
    ensures |r| == |applied| && forall i :: 0 <= i < |applied| ==> r[i] == EntryFor(hasher, bits, applied, i)
  {
    seq(|applied|, i requires 0 <= i < |applied| => EntryFor(hasher, bits, applied, i))
  }

  /** Saturating at every step is saturating once: each receipt holds the true total, capped. */
  lemma {:induction false} CumulativeGasIsCappedTotal(applied: seq<Execution>, n: nat)
    requires n <= |applied|
    ensures CumulativeGas(applied, n) == Min(TotalGas(applied, n), U256_MAX)
  {
    if n > 0 {
      CumulativeGasIsCappedTotal(applied, n - 1);
    }
  }

  lemma {:induction false} CumulativeGasPrefix(applied: seq<Execution>, e: Execution, n: nat)
    requires n <= |applied|
    ensures CumulativeGas(applied + [e], n) == CumulativeGas(applied, n)
  {
    if n > 0 {
      CumulativeGasPrefix(applied, e, n - 1);
    }
  }

  /** Earlier entries do not change when a transaction is added. */
  lemma EntryForPrefix(hasher: Hasher, bits: Bits, applied: seq<Execution>, e: Execution, i: nat)
    requires i < |applied|
    ensures EntryFor(hasher, bits, applied + [e], i) == EntryFor(hasher, bits, applied, i)
  {
    CumulativeGasPrefix(applied, e, i + 1);
  }

  lemma {:induction false} LogInAll(applied: seq<Execution>, i: nat, log: EthLog)
    requires i < |applied| && log in applied[i].logs
    ensures log in AllLogs(applied)
  {
    var n := |applied| - 1;
    if i < n {
      LogInAll(applied[..n], i, log);
    }
  }

  lemma BloomFromReceipt(bits: Bits, applied: seq<Execution>, i: nat, b: nat)
    requires i < |applied| && b in LogsBloom(bits, applied[i].logs)
    ensures b in LogsBloom(bits, AllLogs(applied))
  {
    LogsBloomExact(bits, applied[i].logs, b);
    var log :| log in applied[i].logs && SetsBit(bits, log, b);
    LogInAll(applied, i, log);
    LogsBloomExact(bits, AllLogs(applied), b);
  }

  lemma {:induction false} ReceiptOfBloom(bits: Bits, applied: seq<Execution>, b: nat) returns (i: nat)
    requires b in LogsBloom(bits, AllLogs(applied))
    ensures i < |applied| && b in LogsBloom(bits, applied[i].logs)
  {
    var n := |applied| - 1;
    LogsBloomConcat(bits, AllLogs(applied[..n]), applied[n].logs);
    if b in LogsBloom(bits, applied[n].logs) {
      i := n;
    } else {
      i := ReceiptOfBloom(bits, applied[..n], b);
    }
  }

  /** The block bloom is the union of the receipts' blooms. */
  lemma BlockBloomIsUnion(bits: Bits, applied: seq<Execution>, b: nat)
    ensures b in LogsBloom(bits, AllLogs(applied)) <==>
            exists i :: 0 <= i < |applied| && b in LogsBloom(bits, applied[i].logs)
  {
    if b in LogsBloom(bits, AllLogs(applied)) {
      var i := ReceiptOfBloom(bits, applied, b);
    }
    if i :| 0 <= i < |applied| && b in LogsBloom(bits, applied[i].logs) {
      BloomFromReceipt(bits, applied, i, b);
    }
  }

  // The block-hash window

  /** The heights kept after block `n`: genesis, and the last ones; the height to remove is clamped to 32 bits. */
  predicate InWindow(k: nat, n: nat, count: nat) {
    k <= n && (k == 0 || k > Min(n - count - 1, U32_MAX))
  }

  /** Below 2^32 the window is genesis and the heights from max(1, n - count) to n. */
  lemma WindowBelowU32(n: nat, count: nat, k: nat)
    requires n <= U32_MAX
    ensures InWindow(k, n, count) <==> k == 0 || Max(1, n - count) <= k <= n
  {
  }

  ghost predicate LinkedAt(hasher: Hasher, chain: seq<EthBlock>, k: nat)
    requires k < |chain|
  {
    && chain[k].header.number == k
    && chain[k].header.parentHash == if k == 0 then 0 else hasher.header(chain[k - 1].header)
  }

  /** Each block links to the one before it, and has its own height. */
  ghost predicate Linked(hasher: Hasher, chain: seq<EthBlock>) {
    forall k {:trigger LinkedAt(hasher, chain, k)} :: 0 <= k < |chain| ==> LinkedAt(hasher, chain, k)
  }

  // The digest

  function PostItem(content: PostLogContent, hasher: Hasher, block: EthBlock): DigestItem {
    match content
    case BlockAndTxnHashes => ConsensusItem(Frontier, Some(PostHashes(FromBlock(hasher, block))))
    case OnlyBlockHash => ConsensusItem(Frontier, Some(PostBlockHash(hasher.header(block.header))))
  }

  /** The digest after finalisation: a post log is added unless exactly one pre log was found. */
  function FinalDigest(digest: Digest, content: PostLogContent, hasher: Hasher, block: EthBlock): Digest {
    if |PreLogs(digest)| == 1 then digest else digest + [PostItem(content, hasher, block)]
  }

  /**
   * The import check accepts the finalised header, with or without seals after it, exactly when the digest had no
   * post log and at most one pre log: two pre logs are not refused by finalisation, which adds a third log.
   */
  lemma FinalDigestAccepted(digest: Digest, content: PostLogContent, hasher: Hasher, block: EthBlock, tail: Digest)
    requires FrontierLogs(tail) == []
    ensures |FrontierLogs(FinalDigest(digest, content, hasher, block) + tail)| == 1 <==>
            |PreLogs(digest)| <= 1 && |PostLogs(digest)| == 0
  {
    SelectConcat(FinalDigest(digest, content, hasher, block), tail, TryLog);
    var item := PostItem(content, hasher, block);
    FrontierLogsCount(digest);
    SelectConcat(digest, [item], TryLog);
    assert [item][..0] == [];
    assert |Select([item], TryLog)| == 1;
  }

  // The pallet's storage

  ghost predicate RangeKeys<T>(m: map<int, T>, lo: int, hi: int) {
    forall k :: k in m <==> lo <= k < hi
  }

  lemma RemoveLow<T>(m: map<int, T>, lo: int, hi: int)
    requires RangeKeys(m, lo, hi) && lo < hi
    ensures RangeKeys(m - {lo}, lo + 1, hi)
    ensures forall k :: k in m - {lo} ==> k in m && (m - {lo})[k] == m[k]
  {
  }

  lemma {:induction false} RangeSize(s: set<int>, n: nat)
    requires forall k :: k in s <==> 0 <= k < n
    ensures |s| == n
  {
    if n == 0 {
      assert forall k :: k in s ==> k in {};
      assert s <= {};
    } else {
      RangeSize(s - {n - 1}, n - 1);
    }
  }

  lemma EmptyRange<T>(m: map<int, T>, n: int)
    requires RangeKeys(m, n, n)
    ensures m == map[]
  {
    assert forall k :: k in m.Keys ==> k in {};
    assert m.Keys <= {};
  }

  lemma RangeCount<T>(m: map<int, T>, n: nat)
    requires RangeKeys(m, 0, n)
    ensures |m| == n
  {
    RangeSize(m.Keys, n);
    assert |m.Keys| == |m|;
  }

  /** The pending map holds exactly the executions so far, at keys 0, 1, 2, ... */
  ghost predicate PendingHolds(hasher: Hasher, bits: Bits, pending: map<int, Entry>, applied: seq<Execution>) {
    && RangeKeys(pending, 0, |applied|)
    && forall i :: 0 <= i < |applied| ==> pending[i] == EntryFor(hasher, bits, applied, i)
  }

  /** The hash map holds exactly the window, with the true hashes. */
  ghost predicate HashesHold(hasher: Hasher, blockHash: map<nat, Hash>, count: nat, chain: seq<EthBlock>) {
    && |chain| > 0
    && (forall k :: k in blockHash <==> InWindow(k, |chain| - 1, count))
    && forall k :: k in blockHash ==> blockHash[k] == hasher.header(chain[k].header)
  }

  lemma AppendEntry(hasher: Hasher, bits: Bits, pending: map<int, Entry>, applied: seq<Execution>, e: Execution)
    requires PendingHolds(hasher, bits, pending, applied)
    ensures var after := applied + [e];
            PendingHolds(hasher, bits, pending[|applied| := EntryFor(hasher, bits, after, |applied|)], after)
  {
    forall i | 0 <= i < |applied|
      ensures EntryFor(hasher, bits, applied + [e], i) == EntryFor(hasher, bits, applied, i)
    {
      EntryForPrefix(hasher, bits, applied, e, i);
    }
  }

  /** One more receipt brings its cumulative gas and its logs. */
  lemma TakeStep(hasher: Hasher, bits: Bits, applied: seq<Execution>, i: nat)
    requires i < |applied|
    ensures EntryFor(hasher, bits, applied, i).receipt.usedGas == CumulativeGas(applied, i + 1)
    ensures LogsBloom(bits, AllLogs(applied[..i + 1])) ==
            LogsBloom(bits, AllLogs(applied[..i])) + LogsBloom(bits, EntryFor(hasher, bits, applied, i).receipt.logs)
  {
    assert applied[..i + 1][..i] == applied[..i];
    LogsBloomConcat(bits, AllLogs(applied[..i]), applied[i].logs);
  }

  /** The next block's hash is inserted, then the height that leaves the window is removed. */
  lemma WindowMoves(hasher: Hasher, blockHash: map<nat, Hash>, count: nat, chain: seq<EthBlock>, block: EthBlock)
    requires HashesHold(hasher, blockHash, count, chain)
    ensures var n := |chain|;
            var gone := Min(SaturatingSub(SaturatingSub(n, count), 1), U32_MAX);
            var inserted := blockHash[n := hasher.header(block.header)];
            HashesHold(hasher, if gone == 0 then inserted else inserted - {gone}, count, chain + [block])
  {
    var n := |chain|;
    var gone := Min(SaturatingSub(SaturatingSub(n, count), 1), U32_MAX);
    var inserted := blockHash[n := hasher.header(block.header)];
    var after := if gone == 0 then inserted else inserted - {gone};
    forall k: nat
      ensures k in after <==> InWindow(k, n, count)
    {
      assert k in blockHash <==> InWindow(k, n - 1, count);
    }
  }

  /** A block and its receipts and statuses are what the executions must produce, in order. */
  ghost predicate Assembled(hasher: Hasher, bits: Bits, executions: seq<Execution>, block: EthBlock,
                            receipts: seq<Receipt>, statuses: seq<TransactionStatus>) {
    && |block.transactions| == |receipts| == |statuses| == |executions|
    && (forall i :: 0 <= i < |executions| ==>
          Entry(block.transactions[i], statuses[i], receipts[i]) == EntryFor(hasher, bits, executions, i))
    && block.header.gasUsed == CumulativeGas(executions, |executions|)
    && block.header.logsBloom == LogsBloom(bits, AllLogs(executions))
  }

  /**
   * What an assembled block says of each execution: the transaction in its place; a receipt of the transaction's kind
   * with status 1 exactly on success, the true gas total up to there (capped) and the execution's logs; a status with
   * the transaction's place, hash, sender, target and created address.
   */
  lemma {:induction false} AssembledExact(hasher: Hasher, bits: Bits, executions: seq<Execution>, block: EthBlock,
                                          receipts: seq<Receipt>, statuses: seq<TransactionStatus>, i: nat)
    requires Assembled(hasher, bits, executions, block, receipts, statuses) && i < |executions|
    ensures |block.transactions| == |receipts| == |statuses| == |executions|
    ensures block.transactions[i] == executions[i].tx
    ensures var r := receipts[i];
            && r.kind == executions[i].tx.kind && r.logs == executions[i].logs
            && (r.statusCode == 1 <==> executions[i].reason == Succeed) && (r.statusCode == 0 || r.statusCode == 1)
            && r.usedGas == Min(TotalGas(executions, i + 1), U256_MAX)
            && forall b: nat :: b in r.bloom <==> exists log :: log in executions[i].logs && SetsBit(bits, log, b)
    ensures var t := statuses[i];
            && t.hash == hasher.tx(executions[i].tx) && t.index == i && t.from == executions[i].source
            && t.to == executions[i].to && t.contract == executions[i].created
            && t.logs == executions[i].logs && t.bloom == receipts[i].bloom
    ensures block.header.gasUsed == Min(TotalGas(executions, |executions|), U256_MAX)
  {
    assert Entry(block.transactions[i], statuses[i], receipts[i]) == EntryFor(hasher, bits, executions, i);
    CumulativeGasIsCappedTotal(executions, i + 1);
    CumulativeGasIsCappedTotal(executions, |executions|);
    forall b: nat
      ensures b in receipts[i].bloom <==> exists log :: log in executions[i].logs && SetsBit(bits, log, b)
    {
      LogsBloomExact(bits, executions[i].logs, b);
    }
  }

  /**
   * What the event says: who sent which transaction and how it ended; a creation's address or a call's target; and
   * extra data only for a call that reverted.
   */
  lemma EventExact(hasher: Hasher, limit: nat, e: Execution)
    ensures var event := EventFor(hasher, limit, e);
            && event.from == e.source && event.hash == hasher.tx(e.tx) && event.reason == e.reason
            && (e.created.Some? ==> event.to == e.created.value)
            && (e.created.None? && e.to.Some? ==> event.to == e.to.value)
            && (e.created.None? && e.to.None? ==> event.to == 0)
            && (e.created.Some? || e.reason != Revert ==> event.extraData == [])
            && (e.created.None? && e.reason == Revert && |e.output| <= 68 ==> event.extraData == e.output)
  {
  }

  /** A reverted call's message reaches the event, cut to the limit. */
  lemma EventReportsMessage(hasher: Hasher, limit: nat, e: Execution, head: Bytes, message: Bytes, padding: Bytes)
    requires |head| == 36 && |message| < Pow256(32) && message + padding != []
    requires e.created.None? && e.reason == Revert && e.output == RevertData.Encoded(head, message, padding)
    ensures EventFor(hasher, limit, e).extraData == message[..Min(|message|, limit)]
  {
    RevertData.MessageReported(head, message, padding, limit);
  }

  lemma AssembledFrom(hasher: Hasher, bits: Bits, executions: seq<Execution>, entries: seq<Entry>, block: EthBlock,
                      receipts: seq<Receipt>, statuses: seq<TransactionStatus>)
    requires entries == EntriesFor(hasher, bits, executions)
    requires |block.transactions| == |receipts| == |statuses| == |entries|
    requires forall i :: 0 <= i < |entries| ==>
               && block.transactions[i] == entries[i].tx && receipts[i] == entries[i].receipt
               && statuses[i] == entries[i].status
    requires block.header.gasUsed == CumulativeGas(executions, |executions|)
    requires block.header.logsBloom == LogsBloom(bits, AllLogs(executions))
    ensures Assembled(hasher, bits, executions, block, receipts, statuses)
  {
    forall i | 0 <= i < |executions|
      ensures Entry(block.transactions[i], statuses[i], receipts[i]) == EntryFor(hasher, bits, executions, i)
    {
      assert entries[i] == EntryFor(hasher, bits, executions, i);
    }
  }

  /** The parent's hash is always still in the map: the missing-key default is never read. */
  lemma ParentKept(hasher: Hasher, blockHash: map<nat, Hash>, count: nat, chain: seq<EthBlock>)
    requires HashesHold(hasher, blockHash, count, chain)
    ensures |chain| - 1 in blockHash && blockHash[|chain| - 1] == hasher.header(chain[|chain| - 1].header)
  {
    assert InWindow(|chain| - 1, |chain| - 1, count);
  }

  lemma GenesisHolds(hasher: Hasher, count: nat, block: EthBlock)
    ensures HashesHold(hasher, map[0 := hasher.header(block.header)], count, [block])
  {
  }

  lemma LinkedSnoc(hasher: Hasher, chain: seq<EthBlock>, block: EthBlock)
    requires Linked(hasher, chain) && block.header.number == |chain|
    requires block.header.parentHash == if |chain| == 0 then 0 else hasher.header(chain[|chain| - 1].header)
    ensures Linked(hasher, chain + [block])
  {
    var after := chain + [block];
    forall k | 0 <= k < |after|
      ensures LinkedAt(hasher, after, k)
    {
      assert k < |chain| ==> LinkedAt(hasher, chain, k) && after[k] == chain[k];
    }
  }

  /** The status and receipt of the next transaction, as computed from the entry before it. */
  method BuildEntry(hasher: Hasher, bits: Bits, pending: map<int, Entry>, e: Execution, ghost applied: seq<Execution>)
    returns (index: nat, entry: Entry)
    requires PendingHolds(hasher, bits, pending, applied)
    ensures index == |applied| && entry == EntryFor(hasher, bits, applied + [e], index)
  {
    RangeCount(pending, |applied|);
    index := |pending|;
    var bloom := AccrueLogs(bits, e.logs, {});
    var status := TransactionStatus(hasher.tx(e.tx), index, e.source, e.to, e.created, e.logs, bloom);
    var previous := SaturatingSub(index, 1);
    var used: U256 := if previous in pending then SaturatingAdd(pending[previous].receipt.usedGas, e.effectiveGas)
                      else e.effectiveGas;
    var receipt := Receipt(e.tx.kind, if e.reason.Succeed? then 1 else 0, used, status.bloom, status.logs);
    CumulativeGasPrefix(applied, e, index);
    entry := Entry(e.tx, status, receipt);
  }

  /** The first `i` entries are taken, in order; the rest are left. */
  ghost predicate Taken(hasher: Hasher, bits: Bits, applied: seq<Execution>, i: nat, left: map<int, Entry>,
                        entries: seq<Entry>, logsBloom: Bloom, cumulativeGas: U256)
  {
    && i <= |applied|
    && RangeKeys(left, i, |applied|)
    && (forall k :: k in left ==> left[k] == EntryFor(hasher, bits, applied, k))
    && entries == EntriesFor(hasher, bits, applied)[..i]
    && cumulativeGas == CumulativeGas(applied, i)
    && logsBloom == LogsBloom(bits, AllLogs(applied[..i]))
  }

  lemma TakeOne(hasher: Hasher, bits: Bits, applied: seq<Execution>, i: nat, left: map<int, Entry>,
                entries: seq<Entry>, logsBloom: Bloom, cumulativeGas: U256)
    requires Taken(hasher, bits, applied, i, left, entries, logsBloom, cumulativeGas) && i < |applied|
    ensures i in left
    ensures var receipt := left[i].receipt;
            Taken(hasher, bits, applied, i + 1, left - {i}, entries + [left[i]],
                  logsBloom + LogsBloom(bits, receipt.logs), receipt.usedGas)
  {
    RemoveLow(left, i, |applied|);
    TakeStep(hasher, bits, applied, i);
    assert EntriesFor(hasher, bits, applied)[i] == left[i];
  }

  /** The loop of `store_block`: takes every pending entry, in order. */
  method TakePending(hasher: Hasher, bits: Bits, pending: map<int, Entry>, ghost applied: seq<Execution>)
    returns (left: map<int, Entry>, entries: seq<Entry>, logsBloom: Bloom, cumulativeGas: U256)
    requires PendingHolds(hasher, bits, pending, applied)
    ensures left == map[]
    ensures entries == EntriesFor(hasher, bits, applied)
    ensures logsBloom == LogsBloom(bits, AllLogs(applied))
    ensures cumulativeGas == CumulativeGas(applied, |applied|)
  {
    RangeCount(pending, |applied|);
    var count := |pending|;
    left, entries, logsBloom, cumulativeGas := pending, [], {}, 0;
    assert applied[..0] == [];
    for i := 0 to count
      invariant Taken(hasher, bits, applied, i, left, entries, logsBloom, cumulativeGas)
    {
      TakeOne(hasher, bits, applied, i, left, entries, logsBloom, cumulativeGas);
      if i in left {
        var entry := left[i];
        left := left - {i};
        entries := entries + [entry];
        cumulativeGas := entry.receipt.usedGas;
        logsBloom := AccrueLogs(bits, entry.receipt.logs, logsBloom);
      }
    }
    assert applied[..count] == applied;
    EmptyRange(left, count);
  }

  /** The part of `store_block` that computes the block from storage. */
  method BuildBlock(hasher: Hasher, bits: Bits, pending: map<int, Entry>, blockHash: map<nat, Hash>,
                    number: nat, rest: nat,
                    ghost applied: seq<Execution>, ghost count: nat, ghost chain: seq<EthBlock>)
    returns (left: map<int, Entry>, block: EthBlock, receipts: seq<Receipt>, statuses: seq<TransactionStatus>)
    requires PendingHolds(hasher, bits, pending, applied) && number == |chain|
    requires number > 0 ==> HashesHold(hasher, blockHash, count, chain)
    ensures left == map[]
    ensures Assembled(hasher, bits, applied, block, receipts, statuses)
    ensures block.header.number == number && block.header.rest == rest
    ensures block.header.parentHash == if number == 0 then 0 else hasher.header(chain[number - 1].header)
  {
    var entries, logsBloom, cumulativeGas;
    left, entries, logsBloom, cumulativeGas := TakePending(hasher, bits, pending, applied);
    var transactions := seq(|entries|, i requires 0 <= i < |entries| => entries[i].tx);
    statuses := seq(|entries|, i requires 0 <= i < |entries| => entries[i].status);
    receipts := seq(|entries|, i requires 0 <= i < |entries| => entries[i].receipt);
    if number > 0 {
      ParentKept(hasher, blockHash, count, chain);
    }
    var parentHash := if number > 0 then (if number - 1 in blockHash then blockHash[number - 1] else 0) else 0;
    block := EthBlock(EthHeader(parentHash, number, cumulativeGas, logsBloom, rest), transactions);
    AssembledFrom(hasher, bits, applied, entries, block, receipts, statuses);
  }

  class Pallet {
    const hasher: Hasher
    const bits: Bits
    const blockHashCount: nat
    const content: PostLogContent
    const extraDataLength: nat

    var pending: map<int, Entry>
    var currentBlock: Option<EthBlock>
    var currentReceipts: seq<Receipt>
    var currentStatuses: seq<TransactionStatus>
    var blockHash: map<nat, Hash>
    var digest: Digest
    var events: seq<Event>

    /** The executions since the last block, and every block so far. */
    ghost var applied: seq<Execution>
    ghost var chain: seq<EthBlock>

    ghost predicate Valid()
      reads this
    {
      && PendingHolds(hasher, bits, pending, applied)
      && HashesHold(hasher, blockHash, blockHashCount, chain)
      && Linked(hasher, chain)
    }

    /** Genesis: an empty block 0 and no log. */
    constructor (hasher: Hasher, bits: Bits, blockHashCount: nat, content: PostLogContent, extraDataLength: nat,
                 rest: nat)
      ensures Valid() && applied == [] && |chain| == 1 && digest == [] && events == []
      ensures this.hasher == hasher && this.bits == bits && this.extraDataLength == extraDataLength
      ensures this.blockHashCount == blockHashCount && this.content == content
    {
      this.hasher, this.bits, this.blockHashCount, this.content := hasher, bits, blockHashCount, content;
      this.extraDataLength, events := extraDataLength, [];
      pending, currentBlock, currentReceipts, currentStatuses := map[], None, [], [];
      blockHash, digest := map[], [];
      applied, chain := [], [];
      new;
      StoreBlock(None, 0, rest);
      GenesisHolds(this.hasher, this.blockHashCount, currentBlock.value);
    }

    /** `apply_validated_transaction`, for what executing the transaction returned; `None` is a dispatch error. */
    method ApplyValidatedTransaction(executed: Option<Execution>) returns (ok: bool)
      requires Valid()
      modifies this`pending, this`applied, this`events
      ensures Valid() && ok == executed.Some?
      ensures ok ==> applied == old(applied) + [executed.value]
      ensures ok ==> events == old(events) + [EventFor(hasher, extraDataLength, executed.value)]
      ensures !ok ==> pending == old(pending) && applied == old(applied) && events == old(events)
    {
      if executed.None? {
        return false;
      }
      var e := executed.value;
      var index, entry := BuildEntry(hasher, bits, pending, e, applied);
      AppendEntry(hasher, bits, pending, applied, e);
      pending := pending[index := entry];
      applied := applied + [e];
      events := events + [EventFor(hasher, extraDataLength, e)];
      return true;
    }

    /** `store_block` */
    method StoreBlock(postLog: Option<PostLogContent>, number: nat, rest: nat)
      requires PendingHolds(hasher, bits, pending, applied)
      requires number == |chain| && Linked(hasher, chain)
      requires number > 0 ==> HashesHold(hasher, blockHash, blockHashCount, chain)
      modifies this`pending, this`currentBlock, this`currentReceipts, this`currentStatuses, this`blockHash,
               this`digest, this`applied, this`chain
      ensures pending == map[] && applied == []
      ensures currentBlock.Some? && chain == old(chain) + [currentBlock.value] && Linked(hasher, chain)
      ensures Assembled(hasher, bits, old(applied), currentBlock.value, currentReceipts, currentStatuses)
      ensures currentBlock.value.header.rest == rest
      ensures blockHash == old(blockHash)[number := hasher.header(currentBlock.value.header)]
      ensures digest == old(digest) +
                if postLog.Some? then [PostItem(postLog.value, hasher, currentBlock.value)] else []
    {
      var left, block, receipts, statuses :=
        BuildBlock(hasher, bits, pending, blockHash, number, rest, applied, blockHashCount, chain);
      LinkedSnoc(hasher, chain, block);
      pending := left;
      RecordBlock(postLog, number, block, receipts, statuses);
    }

    /** The storage writes of `store_block`. */
    method RecordBlock(postLog: Option<PostLogContent>, number: nat, block: EthBlock,
                       receipts: seq<Receipt>, statuses: seq<TransactionStatus>)
      modifies this`currentBlock, this`currentReceipts, this`currentStatuses, this`blockHash, this`digest,
               this`applied, this`chain
      ensures currentBlock == Some(block) && currentReceipts == receipts && currentStatuses == statuses
      ensures blockHash == old(blockHash)[number := hasher.header(block.header)]
      ensures digest == old(digest) + if postLog.Some? then [PostItem(postLog.value, hasher, block)] else []
      ensures applied == [] && chain == old(chain) + [block]
    {
      currentBlock, currentReceipts, currentStatuses := Some(block), receipts, statuses;
      blockHash := blockHash[number := hasher.header(block.header)];
      if postLog.Some? {
        digest := digest + [PostItem(postLog.value, hasher, block)];
      }
      applied, chain := [], chain + [block];
    }

    /** A new block starts with the digest its author put in the header. */
    method Initialize(d: Digest)
      requires Valid()
      modifies this`digest
      ensures Valid() && digest == d
    {
      digest := d;
    }

    /** `on_finalize` of block `n`, the one after the last. */
    method OnFinalize(n: nat, rest: nat)
      requires Valid() && n == |chain|
      modifies this`pending, this`currentBlock, this`currentReceipts, this`currentStatuses, this`blockHash,
               this`digest, this`applied, this`chain
      ensures Valid() && applied == [] && pending == map[]
      ensures currentBlock.Some? && chain == old(chain) + [currentBlock.value]
      ensures Assembled(hasher, bits, old(applied), currentBlock.value, currentReceipts, currentStatuses)
      ensures digest == FinalDigest(old(digest), content, hasher, currentBlock.value)
    {
      var pre := FindPreLog(digest);
      ghost var hashes, blocks := blockHash, chain;
      StoreBlock(if pre.Ok? then None else Some(content), n, rest);
      WindowMoves(hasher, hashes, blockHashCount, blocks, currentBlock.value);
      var toRemove := SaturatingSub(SaturatingSub(n, blockHashCount), 1);
      if toRemove != 0 {
        blockHash := blockHash - {Min(toRemove, U32_MAX)};
      }
      assert digest == FinalDigest(old(digest), content, hasher, currentBlock.value);
    }
  }
}
