/**
 * The SQL log index: its tables, the operations that fill them, and the canonical flag.
 * A table is a map from its UNIQUE key to the rest of the row, so `INSERT OR IGNORE` keeps an existing key.
 */
module SqlIndex {
  import opened Basics
  import opened Blooms
  import opened Consensus
  import opened HeaderTree

  datatype BlockKey = BlockKey(eth: Hash, block: Hash)
  datatype BlockRow = BlockRow(number: int, canon: bool)
  datatype TxKey = TxKey(tx: Hash, block: Hash)
  /** `index` is written `as i32` and read back `as u32`: the low 32 bits of the true index. */
  datatype TxRow = TxRow(eth: Hash, index: nat)
  datatype LogKey = LogKey(log: int, tx: int, block: Hash)
  /** `topics` are the four nullable columns. */
  datatype LogRow = LogRow(address: Hash, topics: seq<Option<Hash>>)

  /** The tables `blocks`, `transactions`, `sync_status` and `logs`. */
  datatype Tables = Tables(
    blocks: map<BlockKey, BlockRow>, txs: map<TxKey, TxRow>, status: map<Hash, nat>, logs: map<LogKey, LogRow>)

  const EMPTY_TABLES := Tables(map[], map[], map[], map[])

  /** What a block's state holds: its Ethereum block, and the logs of its receipts. */
  datatype Env = Env(hasher: Hasher, stored: map<Hash, EthBlock>, receipts: map<Hash, seq<seq<EthLog>>>)

  function InsertOrIgnore<K, V>(table: map<K, V>, key: K, row: V): map<K, V> {
    if key in table then table else table[key := row]
  }

  /** The block number column: saturated to 32 bits, then read as a signed 32-bit integer. */
  function NumberColumn(n: nat): int {
    var low := Min(n, U32_MAX);
    if low >= 0x8000_0000 then low - 0x1_0000_0000 else low
  }

  function Columns(topics: seq<Hash>): (r: seq<Option<Hash>>)
    ensures |r| == 4
  {
    seq(4, i requires 0 <= i < 4 => if i < |topics| then Some(topics[i]) else None)
  }

  function RowOf(log: EthLog): LogRow {
    LogRow(log.address, Columns(log.topics))
  }

  function Receipts(env: Env, h: Hash): seq<seq<EthLog>> {
    if h in env.receipts then env.receipts[h] else []
  }

  // insert_block_metadata

  /** The Ethereum hashes a header commits to; unlike key-value sync, an absent log or block is an error. */
  function MetadataHashes(env: Env, h: Hash, header: Header): Option<Hashes> {
    var found: Result<Log, FindLogError> := OnlyLog(FrontierLogs(header.digest));
    match found
    case Err(_) => None
    case Ok(Post(PostHashes(hashes))) => Some(hashes)
    case Ok(Post(PostBlock(block))) => Some(FromBlock(env.hasher, block))
    case Ok(Post(PostBlockHash(expected))) =>
      if h in env.stored && env.hasher.header(env.stored[h].header) == expected
      then Some(FromBlock(env.hasher, env.stored[h])) else None
    case Ok(Pre(PreBlock(block))) => Some(FromBlock(env.hasher, block))
  }

  function WithTxs(txs: map<TxKey, TxRow>, h: Hash, e: Hash, ts: seq<Hash>): map<TxKey, TxRow> {
    if ts == [] then txs
    else
      var n := |ts| - 1;
      InsertOrIgnore(WithTxs(txs, h, e, ts[..n]), TxKey(ts[n], h), TxRow(e, Low32(n)))
  }

  /** The index of the first occurrence of `t`. */
  function FirstIndex(ts: seq<Hash>, t: Hash): (i: nat)
    requires t in ts
    ensures i < |ts| && ts[i] == t && forall j :: 0 <= j < i ==> ts[j] != t
  {
    if t in ts[..|ts| - 1] then FirstIndex(ts[..|ts| - 1], t) else |ts| - 1
  }

  /** The row of a block's transaction: a repeated hash keeps its first index. */
  function TxRowOf(hashes: Hashes, t: Hash): TxRow
    requires t in hashes.transactionHashes
  {
    TxRow(hashes.blockHash, Low32(FirstIndex(hashes.transactionHashes, t)))
  }

  lemma TxRowSnoc(e: Hash, ts: seq<Hash>, x: Hash)
    requires x in ts
    ensures var n := |ts| - 1;
            TxRowOf(Hashes(e, ts), x) == if x in ts[..n] then TxRowOf(Hashes(e, ts[..n]), x) else TxRow(e, Low32(n))
  {
  }

  /** `after` is `txs` with the rows of these transactions of block `h` added. */
  ghost predicate TxsAdded(txs: map<TxKey, TxRow>, after: map<TxKey, TxRow>, h: Hash, hashes: Hashes) {
    forall k: TxKey {:trigger k in after} ::
      if k.block != h then (k in after <==> k in txs) && (k in txs ==> after[k] == txs[k])
      else (k in after <==> k.tx in hashes.transactionHashes) && (k in after ==> after[k] == TxRowOf(hashes, k.tx))
  }

  /** One more insert: a transaction that is there already keeps its row. */
  lemma TxAdded(txs: map<TxKey, TxRow>, before: map<TxKey, TxRow>, h: Hash, e: Hash, ts: seq<Hash>)
    requires ts != [] && TxsAdded(txs, before, h, Hashes(e, ts[..|ts| - 1]))
    ensures var n := |ts| - 1;
            TxsAdded(txs, InsertOrIgnore(before, TxKey(ts[n], h), TxRow(e, Low32(n))), h, Hashes(e, ts))
  {
    var n := |ts| - 1;
    var after := InsertOrIgnore(before, TxKey(ts[n], h), TxRow(e, Low32(n)));
    assert TxKey(ts[n], h) in before <==> ts[n] in ts[..n];
    forall k: TxKey | k.block == h
      ensures k in after <==> k.tx in ts
      ensures k in after ==> after[k] == TxRowOf(Hashes(e, ts), k.tx)
    {
      assert k in before <==> k.tx in ts[..n];
      if k.tx in ts {
        TxRowSnoc(e, ts, k.tx);
      }
    }
  }

  /** A block's transactions are all there, each with its first index; rows of other blocks are untouched. */
  lemma {:induction false} WithTxsExact(txs: map<TxKey, TxRow>, h: Hash, e: Hash, ts: seq<Hash>)
    requires forall x :: x in txs ==> x.block != h
    ensures TxsAdded(txs, WithTxs(txs, h, e, ts), h, Hashes(e, ts))
  {
    if ts != [] {
      var n := |ts| - 1;
      WithTxsExact(txs, h, e, ts[..n]);
      TxAdded(txs, WithTxs(txs, h, e, ts[..n]), h, e, ts);
    }
  }

  /**
   * The tables after inserting `h` with this flag, or `None` when the call fails and the transaction is rolled back.
   */
  function Inserted(env: Env, headers: Headers, db: Tables, h: Hash, canon: bool): Option<Tables> {
    if h !in headers then None
    else
      match MetadataHashes(env, h, headers[h])
      case None => None
      case Some(hashes) =>
        if h in db.status then None
        else
          var row := BlockRow(NumberColumn(headers[h].number), canon);
          Some(Tables(InsertOrIgnore(db.blocks, BlockKey(hashes.blockHash, h), row),
                      WithTxs(db.txs, h, hashes.blockHash, hashes.transactionHashes),
                      db.status[h := 0], db.logs))
  }

  // index_block_logs

  /** The rows of the first `n` logs of a receipt. */
  function WithLogs(logs: map<LogKey, LogRow>, h: Hash, tx: nat, receipt: seq<EthLog>, n: nat): map<LogKey, LogRow>
    requires n <= |receipt|
  {
    if n == 0 then logs
    else InsertOrIgnore(WithLogs(logs, h, tx, receipt, n - 1), LogKey(n - 1, tx, h), RowOf(receipt[n - 1]))
  }

  /** The rows of the first `n` receipts of a block. */
  function WithReceipts(logs: map<LogKey, LogRow>, h: Hash, receipts: seq<seq<EthLog>>, n: nat): map<LogKey, LogRow>
    requires n <= |receipts|
  {
    if n == 0 then logs
    else WithLogs(WithReceipts(logs, h, receipts, n - 1), h, n - 1, receipts[n - 1], |receipts[n - 1]|)
  }

  function LogsIndexed(env: Env, db: Tables, h: Hash): Tables {
    if h in db.status && db.status[h] == 0
    then db.(status := db.status[h := 1],
             logs := WithReceipts(db.logs, h, Receipts(env, h), |Receipts(env, h)|))
    else db
  }

  // canonicalize

  function Flagged(blocks: map<BlockKey, BlockRow>, hashes: seq<Hash>, canon: bool): map<BlockKey, BlockRow> {
    map k | k in blocks :: if k.block in hashes then blocks[k].(canon := canon) else blocks[k]
  }

  function Canonicalized(db: Tables, retracted: seq<Hash>, enacted: seq<Hash>): Tables {
    db.(blocks := Flagged(Flagged(db.blocks, retracted, false), enacted, true))
  }

  class Backend {
    var blocks: map<BlockKey, BlockRow>
    var txs: map<TxKey, TxRow>
    var status: map<Hash, nat>
    var logs: map<LogKey, LogRow>

    constructor ()
      ensures Contents() == EMPTY_TABLES
    {
      blocks, txs, status, logs := map[], map[], map[], map[];
    }

    function Contents(): Tables
      reads this
    {
      Tables(blocks, txs, status, logs)
    }

    /** `chain` is the chain as it was when the metadata were read, which is before the transaction begins. */
    method InsertBlockMetadata(env: Env, chain: Chain, h: Hash) returns (ok: bool)
      requires ValidChain(chain)
      modifies this
      ensures var r := Inserted(env, chain.headers, old(Contents()), h, OnBestChain(chain, h));
              ok == r.Some? && Contents() == if ok then r.value else old(Contents())
    {
      if h !in chain.headers {
        return false;
      }
      var metadata := MetadataHashes(env, h, chain.headers[h]);
      if metadata.None? {
        return false;
      }
      var hashes := metadata.value;
      var number := chain.headers[h].number;
      var row := BlockRow(NumberColumn(number), CanonicalHash(chain, number) == Some(h));
      var newTxs, ts := txs, hashes.transactionHashes;
      for i := 0 to |ts|
        invariant newTxs == WithTxs(txs, h, hashes.blockHash, ts[..i])
      {
        newTxs := InsertOrIgnore(newTxs, TxKey(ts[i], h), TxRow(hashes.blockHash, Low32(i)));
        assert ts[..i + 1][..i] == ts[..i];
      }
      assert ts[..|ts|] == ts;
      if h in status {
        return false; // the plain INSERT violates UNIQUE, and nothing above is committed
      }
      blocks := InsertOrIgnore(blocks, BlockKey(hashes.blockHash, h), row);
      txs := newTxs;
      status := status[h := 0];
      return true;
    }

    method IndexBlockLogs(env: Env, h: Hash)
      modifies this`status, this`logs
      ensures Contents() == LogsIndexed(env, old(Contents()), h)
    {
      if h !in status || status[h] != 0 {
        return;
      }
      status := status[h := 1];
      var receipts := Receipts(env, h);
      for i := 0 to |receipts|
        invariant logs == WithReceipts(old(logs), h, receipts, i)
        invariant status == old(status)[h := 1]
      {
        for j := 0 to |receipts[i]|
          invariant logs == WithLogs(WithReceipts(old(logs), h, receipts, i), h, i, receipts[i], j)
          invariant status == old(status)[h := 1]
        {
          logs := InsertOrIgnore(logs, LogKey(j, i, h), RowOf(receipts[i][j]));
        }
      }
    }

    method Canonicalize(retracted: seq<Hash>, enacted: seq<Hash>)
      modifies this`blocks
      ensures Contents() == Canonicalized(old(Contents()), retracted, enacted)
    {
      blocks := Flagged(blocks, retracted, false);
      blocks := Flagged(blocks, enacted, true);
    }

    method SetBlockAsCanon(h: Hash)
      modifies this`blocks
      ensures Contents() == Canonicalized(old(Contents()), [], [h])
    {
      blocks := Flagged(blocks, [h], true);
      assert blocks == Flagged(Flagged(old(blocks), [], false), [h], true);
    }
  }

  // Runs

  /**
   * `heads` are the best blocks whose routes the index has still to apply: the flags were last brought up to
   * `heads[0]`, and the chain's best block is the last one.
   */
  datatype State = State(chain: Chain, db: Tables, heads: seq<Hash>)

  ghost predicate Initial(s: State) {
    ValidChain(s.chain) && s.db == EMPTY_TABLES && s.heads == [s.chain.best]
  }

  /** What `tree_route(from, to)` reports: the blocks left behind and the blocks taken up. */
  ghost predicate IsRoute(headers: Headers, from: Hash, to: Hash, retracted: seq<Hash>, enacted: seq<Hash>)
    requires ParentClosed(headers) && from in headers && to in headers
  {
    && (forall h {:trigger h in retracted} :: h in retracted <==> OnChain(headers, from, h) && !OnChain(headers, to, h))
    && (forall h {:trigger h in enacted} :: h in enacted <==> OnChain(headers, to, h) && !OnChain(headers, from, h))
  }

  /** Imports may move the best block, through any intermediate heads whose routes are then reported. */
  ghost predicate ImportStep(s: State, s': State) {
    && Imports(s.chain, s'.chain)
    && s'.db == s.db
    && 0 < |s.heads| <= |s'.heads| && s.heads == s'.heads[..|s.heads|]
    && (forall i :: 0 <= i < |s'.heads| ==> s'.heads[i] in s'.chain.headers)
    && s'.heads[|s'.heads| - 1] == s'.chain.best
  }

  /**
   * An insert whose flag was read when the best block was `heads[j]`: it may have moved on before the transaction,
   * but the one task that also applies the routes has not applied that move yet.
   */
  ghost predicate InsertStep(env: Env, s: State, s': State, h: Hash, j: nat) {
    && ValidChain(s.chain)
    && j < |s.heads| && s.heads[j] in s.chain.headers
    && var r := Inserted(env, s.chain.headers, s.db, h, OnChain(s.chain.headers, s.heads[j], h));
       s' == s.(db := if r.Some? then r.value else s.db)
  }

  /** A flag read on an earlier chain is the flag for the best block of that time. */
  lemma FlagAsRead(seen: Chain, now: Chain, h: Hash)
    requires ValidChain(seen) && Imports(seen, now) && h in seen.headers
    ensures OnBestChain(seen, h) <==> OnChain(now.headers, seen.best, h)
  {
    OnChainStable(seen.headers, now.headers, seen.best, h);
  }

  ghost predicate IndexStep(env: Env, s: State, s': State, h: Hash) {
    s' == s.(db := LogsIndexed(env, s.db, h))
  }

  /** The oldest route not applied yet is applied. */
  ghost predicate CanonStep(s: State, s': State, retracted: seq<Hash>, enacted: seq<Hash>) {
    && ValidChain(s.chain)
    && |s.heads| > 1
    && s.heads[0] in s.chain.headers && s.heads[1] in s.chain.headers
    && IsRoute(s.chain.headers, s.heads[0], s.heads[1], retracted, enacted)
    && s' == State(s.chain, Canonicalized(s.db, retracted, enacted), s.heads[1..])
  }

  /** A block on the chain of some listed head is marked canonical, as happens when no route is reported. */
  ghost predicate MarkStep(s: State, s': State, h: Hash) {
    && ValidChain(s.chain)
    && (exists j :: 0 <= j < |s.heads| && s.heads[j] in s.chain.headers && OnChain(s.chain.headers, s.heads[j], h))
    && s' == s.(db := Canonicalized(s.db, [], [h]))
  }

  ghost predicate Next(env: Env, s: State, s': State) {
    || ImportStep(s, s')
    || (exists h, j :: InsertStep(env, s, s', h, j))
    || (exists h :: IndexStep(env, s, s', h))
    || (exists h :: MarkStep(s, s', h))
    || (exists retracted, enacted :: CanonStep(s, s', retracted, enacted))
  }

  ghost predicate IsRun(env: Env, run: seq<State>) {
    && |run| > 0
    && Initial(run[0])
    && forall i :: 0 <= i < |run| - 1 ==> Next(env, run[i], run[i + 1])
  }

  /** A row names a known block, with the hash its header commits to. */
  ghost predicate RowKnown(env: Env, s: State, k: BlockKey)
    requires k in s.db.blocks
  {
    && k.block in s.chain.headers
    && k.block in s.db.status
    && MetadataHashes(env, k.block, s.chain.headers[k.block]).Some?
    && MetadataHashes(env, k.block, s.chain.headers[k.block]).value.blockHash == k.eth
    && s.db.blocks[k].number == NumberColumn(s.chain.headers[k.block].number)
  }

  /** A row's flag is right for some head whose route is still to be applied. */
  ghost predicate FlagRight(s: State, k: BlockKey, j: nat)
    requires ValidChain(s.chain) && k in s.db.blocks
    requires forall i :: 0 <= i < |s.heads| ==> s.heads[i] in s.chain.headers
  {
    j < |s.heads| && s.db.blocks[k].canon == OnChain(s.chain.headers, s.heads[j], k.block)
  }

  ghost predicate HeadsKnown(s: State) {
    && |s.heads| > 0
    && (forall i :: 0 <= i < |s.heads| ==> s.heads[i] in s.chain.headers)
    && s.heads[|s.heads| - 1] == s.chain.best
  }

  /** A log row is there exactly when its block is log-indexed and its receipts have that log. */
  ghost predicate LogsExact(env: Env, db: Tables) {
    forall k {:trigger k in db.logs} ::
      && (k in db.logs <==>
          && k.block in db.status && db.status[k.block] == 1
          && 0 <= k.tx < |Receipts(env, k.block)| && 0 <= k.log < |Receipts(env, k.block)[k.tx]|)
      && (k in db.logs ==> db.logs[k] == RowOf(Receipts(env, k.block)[k.tx][k.log]))
  }

  ghost predicate StatusExact(env: Env, s: State) {
    forall h {:trigger h in s.db.status} :: h in s.db.status ==>
      && h in s.chain.headers
      && MetadataHashes(env, h, s.chain.headers[h]).Some?
      && BlockKey(MetadataHashes(env, h, s.chain.headers[h]).value.blockHash, h) in s.db.blocks
  }

  /** The block is in the index and has the transaction. */
  ghost predicate Includes(env: Env, s: State, h: Hash, t: Hash) {
    && h in s.db.status && h in s.chain.headers
    && MetadataHashes(env, h, s.chain.headers[h]).Some?
    && t in MetadataHashes(env, h, s.chain.headers[h]).value.transactionHashes
  }

  /** A transaction row is there exactly when its block is in the index and has that transaction. */
  ghost predicate TxsExact(env: Env, s: State) {
    forall k {:trigger k in s.db.txs} ::
      && (k in s.db.txs <==> Includes(env, s, k.block, k.tx))
      && (k in s.db.txs ==> s.db.txs[k] == TxRowOf(MetadataHashes(env, k.block, s.chain.headers[k.block]).value, k.tx))
  }

  /** Every row is known, and its flag right for some head that is still listed. */
  ghost predicate RowsExact(env: Env, s: State)
    requires ValidChain(s.chain) && HeadsKnown(s)
  {
    forall k {:trigger RowKnown(env, s, k)} :: k in s.db.blocks ==>
      RowKnown(env, s, k) && exists j: nat :: FlagRight(s, k, j)
  }

  ghost predicate Inv(env: Env, s: State) {
    && ValidChain(s.chain)
    && HeadsKnown(s)
    && StatusExact(env, s)
    && TxsExact(env, s)
    && RowsExact(env, s)
    && LogsExact(env, s.db)
  }

  lemma {:induction false} OnChainStable(before: Headers, after: Headers, head: Hash, h: Hash)
    requires ParentClosed(before) && ParentClosed(after) && head in before && h in before
    requires forall x :: x in before ==> x in after && after[x] == before[x]
    ensures OnChain(before, head, h) <==> OnChain(after, head, h)
  {
    if before[h].number <= before[head].number {
      AncestorStable(before, after, head, before[h].number);
    }
  }

  lemma {:induction false} AncestorStable(before: Headers, after: Headers, head: Hash, n: nat)
    requires ParentClosed(before) && ParentClosed(after) && head in before && n <= before[head].number
    requires forall x :: x in before ==> x in after && after[x] == before[x]
    ensures AncestorAt(before, head, n) == AncestorAt(after, head, n)
    decreases before[head].number
  {
    if before[head].number != n {
      AncestorStable(before, after, before[head].parent, n);
    }
  }

  /** Headers do not change, so neither do the transactions that indexed blocks have. */
  lemma TxsImported(env: Env, s: State, s': State)
    requires StatusExact(env, s) && TxsExact(env, s) && ImportStep(s, s')
    ensures TxsExact(env, s')
  {
    forall k: TxKey
      ensures Includes(env, s', k.block, k.tx) <==> Includes(env, s, k.block, k.tx)
    {
      assert k.block in s.db.status ==> k.block in s.chain.headers;
    }
  }

  lemma RowsImported(env: Env, s: State, s': State)
    requires ValidChain(s.chain) && HeadsKnown(s) && RowsExact(env, s) && ImportStep(s, s')
    ensures HeadsKnown(s') && RowsExact(env, s')
  {
    forall k | k in s'.db.blocks
      ensures RowKnown(env, s', k) && exists j: nat :: FlagRight(s', k, j)
    {
      assert RowKnown(env, s, k);
      var j: nat :| FlagRight(s, k, j);
      assert s'.heads[j] == s.heads[j];
      OnChainStable(s.chain.headers, s'.chain.headers, s.heads[j], k.block);
      assert FlagRight(s', k, j);
    }
  }

  lemma InvImport(env: Env, s: State, s': State)
    requires Inv(env, s) && ImportStep(s, s')
    ensures Inv(env, s')
  {
    TxsImported(env, s, s');
    RowsImported(env, s, s');
  }

  lemma TxsInserted(env: Env, s: State, s': State, h: Hash, j: nat)
    requires StatusExact(env, s) && TxsExact(env, s) && InsertStep(env, s, s', h, j)
    ensures TxsExact(env, s')
  {
    if Inserted(env, s.chain.headers, s.db, h, OnChain(s.chain.headers, s.heads[j], h)).Some? {
      var hashes := MetadataHashes(env, h, s.chain.headers[h]).value;
      WithTxsExact(s.db.txs, h, hashes.blockHash, hashes.transactionHashes);
      forall k
        ensures k in s'.db.txs <==> Includes(env, s', k.block, k.tx)
        ensures k in s'.db.txs ==>
                  s'.db.txs[k] == TxRowOf(MetadataHashes(env, k.block, s.chain.headers[k.block]).value, k.tx)
      {
        assert k in s.db.txs <==> Includes(env, s, k.block, k.tx);
      }
    }
  }

  /** The inserted row is right for the head that its flag was read for; the others stay as they were. */
  lemma RowsInserted(env: Env, s: State, s': State, h: Hash, m: nat)
    requires ValidChain(s.chain) && HeadsKnown(s) && RowsExact(env, s) && InsertStep(env, s, s', h, m)
    ensures RowsExact(env, s')
  {
    forall k | k in s'.db.blocks
      ensures RowKnown(env, s', k) && exists j: nat :: FlagRight(s', k, j)
    {
      if k in s.db.blocks {
        assert RowKnown(env, s, k);
        var j: nat :| FlagRight(s, k, j);
        assert FlagRight(s', k, j);
      } else {
        assert FlagRight(s', k, m);
      }
    }
  }

  /** A block that is inserted for the first time has no log rows yet, and gets none. */
  lemma LogsInserted(env: Env, s: State, s': State, h: Hash, m: nat)
    requires LogsExact(env, s.db) && InsertStep(env, s, s', h, m)
    ensures LogsExact(env, s'.db)
  {
  }

  lemma StatusInserted(env: Env, s: State, s': State, h: Hash, m: nat)
    requires StatusExact(env, s) && InsertStep(env, s, s', h, m)
    ensures StatusExact(env, s')
  {
  }

  lemma InvInsert(env: Env, s: State, s': State, h: Hash, m: nat)
    requires Inv(env, s) && InsertStep(env, s, s', h, m)
    ensures Inv(env, s')
  {
    TxsInserted(env, s, s', h, m);
    RowsInserted(env, s, s', h, m);
    LogsInserted(env, s, s', h, m);
    StatusInserted(env, s, s', h, m);
  }

  lemma {:induction false} WithLogsExact(logs: map<LogKey, LogRow>, h: Hash, tx: nat, receipt: seq<EthLog>, n: nat,
                                         k: LogKey)
    requires n <= |receipt|
    requires forall x :: x in logs ==> x.block != h || x.tx != tx
    ensures var after := WithLogs(logs, h, tx, receipt, n);
            if k.block == h && k.tx == tx && 0 <= k.log < n then k in after && after[k] == RowOf(receipt[k.log])
            else (k in after <==> k in logs) && (k in logs ==> after[k] == logs[k])
  {
    if n > 0 {
      WithLogsExact(logs, h, tx, receipt, n - 1, k);
      WithLogsExact(logs, h, tx, receipt, n - 1, LogKey(n - 1, tx, h));
    }
  }

  lemma {:induction false} WithReceiptsExact(logs: map<LogKey, LogRow>, h: Hash, receipts: seq<seq<EthLog>>, n: nat,
                                             k: LogKey)
    requires n <= |receipts|
    requires forall x :: x in logs ==> x.block != h
    ensures var after := WithReceipts(logs, h, receipts, n);
            if k.block == h && 0 <= k.tx < n && 0 <= k.log < |receipts[k.tx]|
            then k in after && after[k] == RowOf(receipts[k.tx][k.log])
            else (k in after <==> k in logs) && (k in logs ==> after[k] == logs[k])
  {
    if n > 0 {
      var before := WithReceipts(logs, h, receipts, n - 1);
      forall x | x in before
        ensures x.block != h || x.tx != n - 1
      {
        WithReceiptsExact(logs, h, receipts, n - 1, x);
      }
      WithReceiptsExact(logs, h, receipts, n - 1, k);
      WithLogsExact(before, h, n - 1, receipts[n - 1], |receipts[n - 1]|, k);
    }
  }

  lemma LogsIndexedExact(env: Env, db: Tables, h: Hash)
    requires LogsExact(env, db)
    ensures LogsExact(env, LogsIndexed(env, db, h))
  {
    if h in db.status && db.status[h] == 0 {
      var after := LogsIndexed(env, db, h);
      forall k
        ensures k in after.logs <==>
                && k.block in after.status && after.status[k.block] == 1
                && 0 <= k.tx < |Receipts(env, k.block)| && 0 <= k.log < |Receipts(env, k.block)[k.tx]|
        ensures k in after.logs ==> after.logs[k] == RowOf(Receipts(env, k.block)[k.tx][k.log])
      {
        assert k in db.logs ==> k.block != h;
        WithReceiptsExact(db.logs, h, Receipts(env, h), |Receipts(env, h)|, k);
      }
    }
  }

  lemma InvIndex(env: Env, s: State, s': State, h: Hash)
    requires Inv(env, s) && IndexStep(env, s, s', h)
    ensures Inv(env, s')
  {
    LogsIndexedExact(env, s.db, h);
    forall k | k in s'.db.blocks
      ensures RowKnown(env, s', k) && exists j: nat :: FlagRight(s', k, j)
    {
      assert RowKnown(env, s, k);
      var j: nat :| FlagRight(s, k, j);
      assert FlagRight(s', k, j);
    }
  }

  /** A route's lists are the difference of the two chains, so applying them moves every flag from one to the other. */
  lemma RouteApplied(s: State, s': State, retracted: seq<Hash>, enacted: seq<Hash>, k: BlockKey)
    requires CanonStep(s, s', retracted, enacted) && k in s.db.blocks
    ensures k in s'.db.blocks
    ensures var from := OnChain(s.chain.headers, s.heads[0], k.block);
            var to := OnChain(s.chain.headers, s.heads[1], k.block);
            s'.db.blocks[k] == s.db.blocks[k].(canon := if from != to then to else s.db.blocks[k].canon)
  {
    var from := OnChain(s.chain.headers, s.heads[0], k.block);
    var to := OnChain(s.chain.headers, s.heads[1], k.block);
    assert k.block in retracted <==> from && !to;
    assert k.block in enacted <==> to && !from;
  }

  lemma FlagMoves(s: State, s': State, retracted: seq<Hash>, enacted: seq<Hash>, k: BlockKey, j: nat)
    requires CanonStep(s, s', retracted, enacted) && HeadsKnown(s) && HeadsKnown(s')
    requires k in s.db.blocks && k in s'.db.blocks && FlagRight(s, k, j)
    ensures FlagRight(s', k, 0) || (j > 0 && FlagRight(s', k, j - 1))
  {
    RouteApplied(s, s', retracted, enacted, k);
    assert s'.heads[0] == s.heads[1];
    assert j > 0 ==> s'.heads[j - 1] == s.heads[j];
  }

  /** Applying the oldest route leaves every flag right for a head that is still in the list. */
  lemma InvCanon(env: Env, s: State, s': State, retracted: seq<Hash>, enacted: seq<Hash>)
    requires Inv(env, s) && CanonStep(s, s', retracted, enacted)
    ensures Inv(env, s')
  {
    assert forall i :: 0 <= i < |s'.heads| ==> s'.heads[i] == s.heads[i + 1];
    assert HeadsKnown(s');
    forall k | k in s'.db.blocks
      ensures RowKnown(env, s', k) && exists j: nat :: FlagRight(s', k, j)
    {
      assert k in s.db.blocks && RowKnown(env, s, k);
      var j: nat :| FlagRight(s, k, j);
      FlagMoves(s, s', retracted, enacted, k, j);
    }
  }

  /** A marked block's flag is right for the head that it was marked for. */
  lemma InvMark(env: Env, s: State, s': State, h: Hash)
    requires Inv(env, s) && MarkStep(s, s', h)
    ensures Inv(env, s')
  {
    var m :| 0 <= m < |s.heads| && s.heads[m] in s.chain.headers && OnChain(s.chain.headers, s.heads[m], h);
    forall k | k in s'.db.blocks
      ensures RowKnown(env, s', k) && exists j: nat :: FlagRight(s', k, j)
    {
      assert RowKnown(env, s, k);
      if k.block == h {
        assert FlagRight(s', k, m);
      } else {
        var j: nat :| FlagRight(s, k, j);
        assert FlagRight(s', k, j);
      }
    }
  }

  /**
   * Where the best block moves to a child no route is reported; there marking the child alone does what its route
   * would.
   */
  lemma ExtensionNeedsNoRoute(headers: Headers, from: Hash, to: Hash)
    requires ParentClosed(headers) && from in headers && to in headers
    requires headers[to].number > 0 && headers[to].parent == from
    ensures IsRoute(headers, from, to, [], [to])
  {
    forall h
      ensures OnChain(headers, to, h) <==> h == to || OnChain(headers, from, h)
    {
    }
  }

  /**
   * Every interleaving of imports, best-block moves, inserts, log indexing, marking and canonicalization keeps the
   * index exact.
   */
  lemma {:induction false} RunInvariant(env: Env, run: seq<State>, i: nat)
    requires IsRun(env, run) && i < |run|
    ensures Inv(env, run[i])
  {
    if i > 0 {
      RunInvariant(env, run, i - 1);
      var s, s' := run[i - 1], run[i];
      assert Next(env, run[i - 1], run[i - 1 + 1]);
      if ImportStep(s, s') {
        InvImport(env, s, s');
      } else if h, j :| InsertStep(env, s, s', h, j) {
        InvInsert(env, s, s', h, j);
      } else if h :| IndexStep(env, s, s', h) {
        InvIndex(env, s, s', h);
      } else if h :| MarkStep(s, s', h) {
        InvMark(env, s, s', h);
      } else {
        var retracted, enacted :| CanonStep(s, s', retracted, enacted);
        InvCanon(env, s, s', retracted, enacted);
      }
    }
  }

  /** Once every reported route is applied, a row is flagged canonical exactly when its block is on the best chain. */
  lemma FlagsMatchBestChain(env: Env, s: State, k: BlockKey)
    requires Inv(env, s) && |s.heads| == 1 && k in s.db.blocks
    ensures s.db.blocks[k].canon <==> OnBestChain(s.chain, k.block)
  {
    assert RowKnown(env, s, k);
    var j: nat :| FlagRight(s, k, j);
  }

  /** What a transaction's rows say: block, Ethereum block and index (in no particular order). */
  function TransactionRows(db: Tables, t: Hash): set<(Hash, TxRow)> {
    set k | k in db.txs && k.tx == t :: (k.block, db.txs[k])
  }

  /**
   * In every reachable state, a transaction has exactly one row per indexed block that contains it, with its first
   * index there.
   */
  lemma TransactionRowsExact(env: Env, s: State, t: Hash, h: Hash, row: TxRow)
    requires Inv(env, s)
    ensures (h, row) in TransactionRows(s.db, t) <==>
            && h in s.db.status && h in s.chain.headers && MetadataHashes(env, h, s.chain.headers[h]).Some?
            && var hashes := MetadataHashes(env, h, s.chain.headers[h]).value;
               exists i: nat :: && FirstAt(hashes.transactionHashes, t, i)
                                && row == TxRow(hashes.blockHash, i % 0x1_0000_0000)
  {
    assert TxKey(t, h) in s.db.txs <==> Includes(env, s, h, t);
    if (h, row) in TransactionRows(s.db, t) {
      var k :| k in s.db.txs && k.tx == t && (k.block, s.db.txs[k]) == (h, row);
      assert k == TxKey(t, h);
      var ts := MetadataHashes(env, h, s.chain.headers[h]).value.transactionHashes;
      assert FirstAt(ts, t, FirstIndex(ts, t));
    }
    if Includes(env, s, h, t) {
      var ts := MetadataHashes(env, h, s.chain.headers[h]).value.transactionHashes;
      assert (h, s.db.txs[TxKey(t, h)]) in TransactionRows(s.db, t);
      forall i: nat | FirstAt(ts, t, i)
        ensures i == FirstIndex(ts, t)
      {
        assert ts[FirstIndex(ts, t)] == t;
      }
    }
  }

  /** Position `i` is the first one of `t`. */
  ghost predicate FirstAt(ts: seq<Hash>, t: Hash, i: nat) {
    i < |ts| && ts[i] == t && forall j :: 0 <= j < i ==> ts[j] != t
  }
}
