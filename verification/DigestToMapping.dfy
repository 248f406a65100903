/** From the digest that the runtime finalises to what the two indexes commit for the block. */
module DigestToMapping {
  import opened Basics
  import opened BlockAssembly
  import opened Consensus
  import HeaderTree
  import KvDb
  import MappingSync
  import RpcLookup
  import SqlIndex

  /**
   * The digest of a stored header: finalisation added its log to a digest without any, and whatever was appended
   * after that (a seal, say) holds no frontier log either.
   */
  ghost predicate StoredDigest(stored: Digest, content: PostLogContent, hasher: Hasher, block: EthBlock) {
    exists digest, tail ::
      && FrontierLogs(digest) == [] && FrontierLogs(tail) == []
      && stored == FinalDigest(digest, content, hasher, block) + tail
  }

  /** Any number of seals may follow: a seal is never a frontier log. */
  lemma {:induction false} SealsAreSilent(tail: Digest)
    requires forall i :: 0 <= i < |tail| ==> tail[i].Seal?
    ensures FrontierLogs(tail) == []
  {
    if tail != [] {
      SealsAreSilent(tail[..|tail| - 1]);
    }
  }

  /** The only frontier log of a stored header is the one that finalisation added. */
  lemma OnlyPostLog(stored: Digest, content: PostLogContent, hasher: Hasher, block: EthBlock)
    requires StoredDigest(stored, content, hasher, block)
    ensures FrontierLogs(stored) == [TryLog(PostItem(content, hasher, block)).value]
  {
    var digest, tail :| && FrontierLogs(digest) == [] && FrontierLogs(tail) == []
                        && stored == FinalDigest(digest, content, hasher, block) + tail;
    var item := PostItem(content, hasher, block);
    FrontierLogsCount(digest);
    SelectConcat(digest, [item], TryLog);
    SelectConcat(digest + [item], tail, TryLog);
    assert [item][..0] == [];
    assert Select([item], TryLog) == [TryLog(item).value];
  }

  /**
   * Key-value sync commits the finalised block's hash and transaction hashes exactly when the digest carries them, or
   * the block's state still holds a block with that header hash and these transaction hashes.
   */
  lemma KvCommitsFinalisedBlock(env: MappingSync.Env, h: Hash, header: HeaderTree.Header,
                                content: PostLogContent, block: EthBlock)
    requires StoredDigest(header.digest, content, env.hasher, block)
    ensures MappingSync.WritesBlock(env.hasher, block, MappingSync.BlockWrite(env, h, header)) <==>
            content == BlockAndTxnHashes || (h in env.stored && SameHashes(env.hasher, env.stored[h], block))
  {
    OnlyPostLog(header.digest, content, env.hasher, block);
    FromBlockInOrder(env.hasher, block, FromBlock(env.hasher, block));
    if h in env.stored {
      FromBlockInOrder(env.hasher, block, FromBlock(env.hasher, env.stored[h]));
      SameHashesExact(env.hasher, env.stored[h], block);
    }
  }

  /** The two blocks have the same header hash and the same transaction hashes in the same places. */
  ghost predicate SameHashes(hasher: Hasher, a: EthBlock, b: EthBlock) {
    && hasher.header(a.header) == hasher.header(b.header)
    && |a.transactions| == |b.transactions|
    && forall j :: 0 <= j < |a.transactions| ==> hasher.tx(a.transactions[j]) == hasher.tx(b.transactions[j])
  }

  lemma SameHashesExact(hasher: Hasher, a: EthBlock, b: EthBlock)
    ensures SameHashes(hasher, a, b) <==> FromBlock(hasher, a) == FromBlock(hasher, b)
  {
    FromBlockInOrder(hasher, b, FromBlock(hasher, a));
  }

  /** Either encoding of the post log leads both indexes to the same hashes, when the state holds the stored block. */
  lemma EitherEncodingSameHashes(kv: MappingSync.Env, sql: SqlIndex.Env, h: Hash, header: HeaderTree.Header,
                                 content: PostLogContent, block: EthBlock)
    requires sql.hasher == kv.hasher
    requires h in kv.stored && kv.stored[h] == block && h in sql.stored && sql.stored[h] == block
    requires StoredDigest(header.digest, content, kv.hasher, block)
    ensures MappingSync.WritesBlock(kv.hasher, block, MappingSync.BlockWrite(kv, h, header))
    ensures var hashes := SqlIndex.MetadataHashes(sql, h, header);
            hashes.Some? && HashesOf(kv.hasher, block, hashes.value)
  {
    OnlyPostLog(header.digest, content, kv.hasher, block);
    FromBlockInOrder(kv.hasher, block, FromBlock(kv.hasher, block));
  }

  /** Whatever a header's digest holds, the SQL index commits hashes exactly when key-value sync does, and the same. */
  lemma IndexesCommitAlike(kv: MappingSync.Env, sql: SqlIndex.Env, h: Hash, header: HeaderTree.Header, hashes: Hashes)
    requires sql.hasher == kv.hasher && sql.stored == kv.stored
    ensures SqlIndex.MetadataHashes(sql, h, header) == Some(hashes) <==>
            MappingSync.BlockWrite(kv, h, header) == Ok(KvDb.WriteHashes(hashes))
  {
  }

  /** Block `h` carries `block`: it was finalised over a digest without frontier logs, and its state holds `block`. */
  ghost predicate Carries(env: MappingSync.Env, chain: HeaderTree.Chain, h: Hash,
                          content: PostLogContent, block: EthBlock) {
    && h in chain.headers && chain.headers[h].number > 0
    && h in env.stored && env.stored[h] == block
    && StoredDigest(chain.headers[h].digest, content, env.hasher, block)
  }

  /** The block has been synced, as every block of the best chain has once sync is complete. */
  lemma CarriedIsSynced(env: MappingSync.Env, syncFrom: nat, s: MappingSync.State, h: Hash,
                        content: PostLogContent, block: EthBlock)
    requires MappingSync.Sound(env, syncFrom, s) && MappingSync.Unsynced(syncFrom, s) == {}
    requires Carries(env, s.chain, h, content, block) && s.chain.headers[h].number >= syncFrom
    ensures KvDb.IsSynced(s.db, h)
    ensures MappingSync.WritesBlock(env.hasher, block, MappingSync.Derived(env, h, s.chain.headers[h]))
  {
    KvCommitsFinalisedBlock(env, h, s.chain.headers[h], content, block);
    assert h !in MappingSync.Unsynced(syncFrom, s);
  }

  /**
   * From the runtime to the RPC: once sync has completed, every block that the runtime finalised on the current best
   * chain, at or above `syncFrom`, is found by its Ethereum hash; it is this very block that is found, unless another
   * block of that chain yields the same hash.
   */
  lemma FinalisedBlockIsFound(env: MappingSync.Env, syncFrom: nat, s: MappingSync.State, h: Hash,
                              content: PostLogContent, block: EthBlock)
    requires MappingSync.Sound(env, syncFrom, s) && MappingSync.Unsynced(syncFrom, s) == {}
    requires HeaderTree.OnBestChain(s.chain, h) && s.chain.headers[h].number >= syncFrom
    requires Carries(env, s.chain, h, content, block)
    ensures var e := env.hasher.header(block.header);
            && RpcLookup.LoadHash(s.chain, s.db, e).Some?
            && ((forall x :: HeaderTree.OnBestChain(s.chain, x) && RpcLookup.Yields(env, s.chain, e, x) ==> x == h) ==>
                RpcLookup.LoadHash(s.chain, s.db, e) == Some(h))
  {
    CarriedIsSynced(env, syncFrom, s, h, content, block);
    var e := env.hasher.header(block.header);
    assert RpcLookup.SyncedFor(env, s, e, h);
    RpcLookup.LoadHashFollowsBest(env, syncFrom, s, e);
  }

  /**
   * The same for each of its transactions, under either setting: the answer is this block and the transaction's last
   * place in it, unless another block of the best chain has the transaction too.
   */
  lemma FinalisedTransactionIsFound(env: MappingSync.Env, syncFrom: nat, s: MappingSync.State, h: Hash,
                                    content: PostLogContent, block: EthBlock, i: nat, onlyCanonical: bool)
    requires MappingSync.Sound(env, syncFrom, s) && MappingSync.Unsynced(syncFrom, s) == {}
    requires HeaderTree.OnBestChain(s.chain, h) && s.chain.headers[h].number >= syncFrom
    requires Carries(env, s.chain, h, content, block) && i < |block.transactions|
    ensures var t := env.hasher.tx(block.transactions[i]);
            var answer := RpcLookup.LoadTransactions(s.chain, s.db, t, onlyCanonical);
            && answer.Some?
            && ((forall x :: HeaderTree.OnBestChain(s.chain, x) && RpcLookup.HasTransaction(env, s.chain, t, x) ==>
                   x == h) ==>
                exists j: nat :: LastWithHash(env.hasher, block, t, j) &&
                                 answer == Some((env.hasher.header(block.header), j % 0x1_0000_0000)))
  {
    CarriedIsSynced(env, syncFrom, s, h, content, block);
    var hashes := MappingSync.Derived(env, h, s.chain.headers[h]).value.hashes;
    var t := env.hasher.tx(block.transactions[i]);
    assert hashes.transactionHashes[i] == t;
    var meta := KvDb.MetaOf(h, hashes, t);
    assert RpcLookup.SyncedWith(env, s, t, meta.substrateHash, meta);
    RpcLookup.LoadTransactionsFollowsBest(env, syncFrom, s, t, onlyCanonical);
    var answer := RpcLookup.LoadTransactions(s.chain, s.db, t, onlyCanonical);
    var m: KvDb.TxMeta :| RpcLookup.SyncedWith(env, s, t, m.substrateHash, m) &&
                          HeaderTree.OnBestChain(s.chain, m.substrateHash) && answer.value == (m.ethHash, m.index);
    assert RpcLookup.HasTransaction(env, s.chain, t, m.substrateHash);
    LastIndexInBlock(env.hasher, block, hashes, t);
  }

  /** Transaction `j` is the last of the block with hash `t`. */
  ghost predicate LastWithHash(hasher: Hasher, block: EthBlock, t: Hash, j: nat) {
    && j < |block.transactions| && hasher.tx(block.transactions[j]) == t
    && forall k :: j < k < |block.transactions| ==> hasher.tx(block.transactions[k]) != t
  }

  lemma LastIndexInBlock(hasher: Hasher, block: EthBlock, hashes: Hashes, t: Hash)
    requires HashesOf(hasher, block, hashes) && t in hashes.transactionHashes
    ensures LastWithHash(hasher, block, t, KvDb.LastIndex(hashes.transactionHashes, t))
  {
  }

  /**
   * The two indexes give a transaction of a block the same position exactly when the block has it once: the key-value
   * column keeps the last index, the SQL table the first.
   */
  lemma SamePositionExactly(h: Hash, hashes: Hashes, t: Hash)
    requires t in hashes.transactionHashes && |hashes.transactionHashes| <= 0x1_0000_0000
    ensures KvDb.MetaOf(h, hashes, t).index == SqlIndex.TxRowOf(hashes, t).index <==>
            forall i, j :: 0 <= i < j < |hashes.transactionHashes| ==>
              !(hashes.transactionHashes[i] == hashes.transactionHashes[j] == t)
  {
    var ts := hashes.transactionHashes;
    var first, last := SqlIndex.FirstIndex(ts, t), KvDb.LastIndex(ts, t);
    assert ts[first] == ts[last] == t;
  }
}
