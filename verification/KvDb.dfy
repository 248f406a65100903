/** The key-value mapping database: its columns, its writers, and what they hold after any history. */
module KvDb {
  import opened Basics
  import opened Consensus

  datatype TxMeta = TxMeta(substrateHash: Hash, ethHash: Hash, index: nat)

  /** The four columns: META's syncing tips, BLOCK_MAPPING, TRANSACTION_MAPPING and SYNCED_MAPPING. */
  datatype Db = Db(tips: seq<Hash>, blocks: map<Hash, seq<Hash>>, txs: map<Hash, seq<TxMeta>>, synced: map<Hash, bool>)

  const EMPTY_DB := Db([], map[], map[], map[])

  /** What one synced block writes. */
  datatype Write = WriteNone | WriteHashes(hashes: Hashes)

  datatype Entry = Entry(block: Hash, write: Write)

  predicate IsSynced(db: Db, h: Hash) {
    h in db.synced && db.synced[h]
  }

  function BlockHash(db: Db, e: Hash): Option<seq<Hash>> {
    if e in db.blocks then Some(db.blocks[e]) else None
  }

  function TransactionMetadata(db: Db, t: Hash): seq<TxMeta> {
    if t in db.txs then db.txs[t] else []
  }

  /** The index of the last occurrence of `t`. */
  function LastIndex(ts: seq<Hash>, t: Hash): (i: nat)
    requires t in ts
    ensures i < |ts| && ts[i] == t && forall j :: i < j < |ts| ==> ts[j] != t
  {
    if ts[|ts| - 1] == t then |ts| - 1 else LastIndex(ts[..|ts| - 1], t)
  }

  /** The entry that a block adds for a transaction of its; `i as u32` keeps the low 32 bits. */
  function MetaOf(h: Hash, hashes: Hashes, t: Hash): TxMeta
    requires t in hashes.transactionHashes
  {
    TxMeta(h, hashes.blockHash, Low32(LastIndex(hashes.transactionHashes, t)))
  }

  // What a history of writes must leave in the columns.

  /** The blocks of a history that committed to Ethereum block `e`, oldest first. */
  function BlocksFor(history: seq<Entry>, e: Hash): seq<Hash> {
    if history == [] then []
    else
      var last := history[|history| - 1];
      BlocksFor(history[..|history| - 1], e) +
      if last.write.WriteHashes? && last.write.hashes.blockHash == e then [last.block] else []
  }

  predicate Contains(entry: Entry, t: Hash) {
    entry.write.WriteHashes? && t in entry.write.hashes.transactionHashes
  }

  /** One entry per block of a history that contains transaction `t`, oldest first. */
  function MetaFor(history: seq<Entry>, t: Hash): seq<TxMeta> {
    if history == [] then []
    else
      var last := history[|history| - 1];
      MetaFor(history[..|history| - 1], t) +
      if Contains(last, t) then [MetaOf(last.block, last.write.hashes, t)] else []
  }

  ghost predicate Wrote(history: seq<Entry>, h: Hash) {
    exists i :: 0 <= i < |history| && history[i].block == h
  }

  ghost predicate OncePerBlock(history: seq<Entry>) {
    forall i, j :: 0 <= i < j < |history| ==> history[i].block != history[j].block
  }

  /** The columns hold exactly the history: nothing missing, nothing extra, in order. */
  ghost predicate Holds(db: Db, history: seq<Entry>) {
    && (forall e :: BlockHash(db, e) == if BlocksFor(history, e) == [] then None else Some(BlocksFor(history, e)))
    && (forall t :: TransactionMetadata(db, t) == MetaFor(history, t))
    && (forall h {:trigger Wrote(history, h)} :: IsSynced(db, h) <==> Wrote(history, h))
  }

  /** The entry is block `h`, and it committed to Ethereum block `e`. */
  predicate CommitsTo(entry: Entry, e: Hash, h: Hash) {
    entry.block == h && entry.write.WriteHashes? && entry.write.hashes.blockHash == e
  }

  lemma {:induction false} BlocksForComplete(history: seq<Entry>, e: Hash, h: Hash, i: nat)
    requires i < |history| && CommitsTo(history[i], e, h)
    ensures h in BlocksFor(history, e)
  {
    var n := |history| - 1;
    if i < n {
      BlocksForComplete(history[..n], e, h, i);
    }
  }

  lemma {:induction false} BlocksForSound(history: seq<Entry>, e: Hash, h: Hash) returns (i: nat)
    requires h in BlocksFor(history, e)
    ensures i < |history| && CommitsTo(history[i], e, h)
  {
    i := |history| - 1;
    if h in BlocksFor(history[..i], e) {
      i := BlocksForSound(history[..i], e, h);
    }
  }

  lemma BlocksForMember(history: seq<Entry>, e: Hash, h: Hash)
    ensures h in BlocksFor(history, e) <==> exists i :: 0 <= i < |history| && CommitsTo(history[i], e, h)
  {
    if h in BlocksFor(history, e) {
      var i := BlocksForSound(history, e, h);
    }
    if i :| 0 <= i < |history| && CommitsTo(history[i], e, h) {
      BlocksForComplete(history, e, h, i);
    }
  }

  /** No block is listed twice when no block was written twice. */
  lemma {:induction false} BlocksForDistinct(history: seq<Entry>, e: Hash)
    requires OncePerBlock(history)
    ensures Distinct(BlocksFor(history, e))
  {
    if history != [] {
      var n := |history| - 1;
      var before := history[..n];
      BlocksForDistinct(before, e);
      BlocksForMember(before, e, history[n].block);
      assert forall i :: 0 <= i < n ==> before[i] == history[i];
    }
  }

  /** The list is in the order of the writes. */
  lemma {:induction false} BlocksForInOrder(history: seq<Entry>, e: Hash, i: nat, j: nat) returns (a: nat, b: nat)
    requires i < j < |BlocksFor(history, e)|
    ensures a < b < |history|
    ensures CommitsTo(history[a], e, BlocksFor(history, e)[i]) && CommitsTo(history[b], e, BlocksFor(history, e)[j])
  {
    var n := |history| - 1;
    var before := BlocksFor(history[..n], e);
    if j < |before| {
      a, b := BlocksForInOrder(history[..n], e, i, j);
    } else {
      a := BlocksForAt(history[..n], e, i);
      b := n;
    }
  }

  lemma {:induction false} BlocksForAt(history: seq<Entry>, e: Hash, i: nat) returns (a: nat)
    requires i < |BlocksFor(history, e)|
    ensures a < |history| && CommitsTo(history[a], e, BlocksFor(history, e)[i])
  {
    a := |history| - 1;
    if i < |BlocksFor(history[..a], e)| {
      a := BlocksForAt(history[..a], e, i);
    }
  }

  /** So are the entries of a transaction. */
  lemma {:induction false} MetaForInOrder(history: seq<Entry>, t: Hash, i: nat, j: nat) returns (a: nat, b: nat)
    requires i < j < |MetaFor(history, t)|
    ensures a < b < |history|
    ensures history[a].block == MetaFor(history, t)[i].substrateHash
    ensures history[b].block == MetaFor(history, t)[j].substrateHash
  {
    var n := |history| - 1;
    var before := MetaFor(history[..n], t);
    if j < |before| {
      a, b := MetaForInOrder(history[..n], t, i, j);
    } else {
      a := MetaForSound(history[..n], t, i);
      b := n;
    }
  }

  /** Every block that contains `t` has its entry. */
  lemma {:induction false} MetaForComplete(history: seq<Entry>, t: Hash, i: nat)
    requires i < |history| && Contains(history[i], t)
    ensures MetaOf(history[i].block, history[i].write.hashes, t) in MetaFor(history, t)
  {
    var n := |history| - 1;
    if i < n {
      MetaForComplete(history[..n], t, i);
    }
  }

  /** Every entry comes from a block that contains `t`; `i` is that block's place in the history. */
  lemma {:induction false} MetaForSound(history: seq<Entry>, t: Hash, k: nat) returns (i: nat)
    requires k < |MetaFor(history, t)|
    ensures i < |history| && Contains(history[i], t)
    ensures MetaFor(history, t)[k] == MetaOf(history[i].block, history[i].write.hashes, t)
  {
    i := |history| - 1;
    if k < |MetaFor(history[..i], t)| {
      i := MetaForSound(history[..i], t, k);
    }
  }

  /** Exactly one entry per block: two entries for a transaction never name the same block. */
  lemma {:induction false} MetaForOnePerBlock(history: seq<Entry>, t: Hash, i: nat, j: nat)
    requires OncePerBlock(history)
    requires i < j < |MetaFor(history, t)|
    ensures MetaFor(history, t)[i].substrateHash != MetaFor(history, t)[j].substrateHash
  {
    var n := |history| - 1;
    var before := history[..n];
    assert forall k :: 0 <= k < n ==> before[k] == history[k];
    if j < |MetaFor(before, t)| {
      MetaForOnePerBlock(before, t, i, j);
    } else {
      var k := MetaForSound(before, t, i);
    }
  }

  /** The transaction column's part of a write: each transaction's list with one entry added. */
  function BatchFor(db: Db, h: Hash, hashes: Hashes): map<Hash, seq<TxMeta>> {
    map t | t in hashes.transactionHashes :: TransactionMetadata(db, t) + [MetaOf(h, hashes, t)]
  }

  lemma MetaSnoc(h: Hash, e: Hash, ts: seq<Hash>, x: Hash)
    requires x in ts
    ensures var n := |ts| - 1;
            if x == ts[n] then MetaOf(h, Hashes(e, ts), x) == TxMeta(h, e, Low32(n))
            else x in ts[..n] && MetaOf(h, Hashes(e, ts), x) == MetaOf(h, Hashes(e, ts[..n]), x)
  {
  }

  lemma BatchAt(db: Db, h: Hash, e: Hash, ts: seq<Hash>, x: Hash)
    requires x in ts
    ensures var n := |ts| - 1;
            BatchFor(db, h, Hashes(e, ts))[x] ==
            if x == ts[n] then TransactionMetadata(db, x) + [TxMeta(h, e, Low32(n))]
            else BatchFor(db, h, Hashes(e, ts[..n]))[x]
  {
    MetaSnoc(h, e, ts, x);
  }

  /** A repeated hash keeps only its last index. */
  lemma BatchSnoc(db: Db, h: Hash, e: Hash, ts: seq<Hash>)
    requires ts != []
    ensures var n := |ts| - 1;
            BatchFor(db, h, Hashes(e, ts)) ==
            BatchFor(db, h, Hashes(e, ts[..n]))[ts[n] := TransactionMetadata(db, ts[n]) + [TxMeta(h, e, Low32(n))]]
  {
    var n := |ts| - 1;
    var before, after := BatchFor(db, h, Hashes(e, ts[..n])), BatchFor(db, h, Hashes(e, ts));
    assert forall x :: x in before <==> x in ts[..n];
    assert forall x :: x in after <==> x in ts;
    forall x | x in ts
      ensures after[x] == if x == ts[n] then TransactionMetadata(db, x) + [TxMeta(h, e, Low32(n))] else before[x]
    {
      BatchAt(db, h, e, ts, x);
    }
  }

  /** The columns after one more write, as the database transaction computes them. */
  function Committed(db: Db, entry: Entry): (r: Db)
    ensures r.tips == db.tips && r.synced == db.synced[entry.block := true]
  {
    match entry.write
    case WriteNone => db.(synced := db.synced[entry.block := true])
    case WriteHashes(hashes) =>
      var known := BlockHash(db, hashes.blockHash);
      var list :=
        if known.None? then [entry.block]
        else if entry.block in known.value then known.value
        else known.value + [entry.block];
      var batch := BatchFor(db, entry.block, hashes);
      Db(db.tips, db.blocks[hashes.blockHash := list], db.txs + batch, db.synced[entry.block := true])
  }

  lemma HoldsEmpty()
    ensures Holds(EMPTY_DB, [])
  {
  }

  lemma CommittedBlocks(db: Db, history: seq<Entry>, entry: Entry, e: Hash)
    requires BlockHash(db, e) == if BlocksFor(history, e) == [] then None else Some(BlocksFor(history, e))
    requires !Wrote(history, entry.block)
    ensures var after := BlocksFor(history + [entry], e);
            BlockHash(Committed(db, entry), e) == if after == [] then None else Some(after)
  {
    var before := BlocksFor(history, e);
    assert (history + [entry])[..|history|] == history;
    if entry.write.WriteHashes? && entry.write.hashes.blockHash == e {
      BlocksForMember(history, e, entry.block);
      assert entry.block !in before;
      assert BlocksFor(history + [entry], e) == before + [entry.block];
      assert Committed(db, entry).blocks[e] == before + [entry.block];
    } else {
      assert BlocksFor(history + [entry], e) == before;
    }
  }

  lemma CommittedTxs(db: Db, history: seq<Entry>, entry: Entry, t: Hash)
    requires TransactionMetadata(db, t) == MetaFor(history, t)
    ensures TransactionMetadata(Committed(db, entry), t) == MetaFor(history + [entry], t)
  {
    assert (history + [entry])[..|history|] == history;
  }

  lemma WroteSnoc(history: seq<Entry>, entry: Entry, h: Hash)
    ensures Wrote(history + [entry], h) <==> Wrote(history, h) || h == entry.block
  {
    var after := history + [entry];
    assert after[|history|] == entry;
    assert forall i :: 0 <= i < |history| ==> after[i] == history[i];
  }

  /** Committing a block that was not committed before extends the history by exactly that block. */
  lemma HoldsCommitted(db: Db, history: seq<Entry>, entry: Entry)
    requires Holds(db, history) && !Wrote(history, entry.block)
    ensures Holds(Committed(db, entry), history + [entry])
  {
    var after := history + [entry];
    var db' := Committed(db, entry);
    forall e
      ensures BlockHash(db', e) == if BlocksFor(after, e) == [] then None else Some(BlocksFor(after, e))
    {
      CommittedBlocks(db, history, entry, e);
    }
    forall t
      ensures TransactionMetadata(db', t) == MetaFor(after, t)
    {
      CommittedTxs(db, history, entry, t);
    }
    forall h
      ensures IsSynced(db', h) <==> Wrote(after, h)
    {
      WroteSnoc(history, entry, h);
      assert IsSynced(db, h) <==> Wrote(history, h);
    }
  }

  /**
   * Writing a block again does not list it twice for its Ethereum block, but does add an entry to each of its
   * transactions: only syncing every block once keeps those lists free of repetitions.
   */
  lemma WrittenAgain(db: Db, h: Hash, hashes: Hashes)
    requires BlockHash(db, hashes.blockHash).Some? && h in BlockHash(db, hashes.blockHash).value
    ensures var after := Committed(db, Entry(h, WriteHashes(hashes)));
            && (forall e :: BlockHash(after, e) == BlockHash(db, e))
            && forall t :: t in hashes.transactionHashes ==>
                 |TransactionMetadata(after, t)| == |TransactionMetadata(db, t)| + 1
  {
  }

  /** The tips column plays no part in what the mapping columns hold. */
  lemma HoldsTips(db: Db, history: seq<Entry>, tips: seq<Hash>)
    requires Holds(db, history)
    ensures Holds(db.(tips := tips), history)
  {
    var db' := db.(tips := tips);
    assert forall e :: BlockHash(db', e) == BlockHash(db, e);
    assert forall t :: TransactionMetadata(db', t) == TransactionMetadata(db, t);
    assert forall h :: IsSynced(db', h) == IsSynced(db, h);
  }

  class Backend {
    var tips: seq<Hash>
    var blocks: map<Hash, seq<Hash>>
    var txs: map<Hash, seq<TxMeta>>
    var synced: map<Hash, bool>

    constructor ()
      ensures Contents() == EMPTY_DB
    {
      tips, blocks, txs, synced := [], map[], map[], map[];
    }

    function Contents(): Db
      reads this
    {
      Db(tips, blocks, txs, synced)
    }

    method WriteCurrentSyncingTips(newTips: seq<Hash>)
      modifies this`tips
      ensures Contents() == old(Contents()).(tips := newTips)
    {
      tips := newTips;
    }

    method WriteNoHashes(h: Hash)
      modifies this`synced
      ensures Contents() == Committed(old(Contents()), Entry(h, WriteNone))
    {
      synced := synced[h := true];
    }

    method MetadataBatch(h: Hash, hashes: Hashes) returns (batch: map<Hash, seq<TxMeta>>)
      ensures batch == BatchFor(Contents(), h, hashes)
    {
      batch := map[];
      var ts := hashes.transactionHashes;
      for i := 0 to |ts|
        invariant batch == BatchFor(Contents(), h, Hashes(hashes.blockHash, ts[..i]))
      {
        var metadata := TransactionMetadata(Contents(), ts[i]);
        batch := batch[ts[i] := metadata + [TxMeta(h, hashes.blockHash, Low32(i))]];
        assert ts[..i + 1][..i] == ts[..i];
        BatchSnoc(Contents(), h, hashes.blockHash, ts[..i + 1]);
      }
      assert ts[..|ts|] == ts;
    }

    /** `write_hashes`: every read sees the database as it was before the transaction. */
    method WriteBlockHashes(h: Hash, hashes: Hashes)
      modifies this`blocks, this`txs, this`synced
      ensures Contents() == Committed(old(Contents()), Entry(h, WriteHashes(hashes)))
    {
      var substrateHashes := [h];
      if hashes.blockHash in blocks {
        substrateHashes := blocks[hashes.blockHash];
        if h !in substrateHashes {
          substrateHashes := substrateHashes + [h];
        }
      }

      var batch := MetadataBatch(h, hashes);
      blocks := blocks[hashes.blockHash := substrateHashes];
      txs := txs + batch;
      synced := synced[h := true];
    }
  }
}
