/** How the RPC layer resolves Ethereum hashes: the mapping lists read against the current best chain. */
module RpcLookup {
  import opened Basics
  import opened Consensus
  import opened HeaderTree
  import opened KvDb
  import opened MappingSync

  function FirstCanon(chain: Chain, hashes: seq<Hash>): Option<Hash>
    requires ValidChain(chain)
  {
    if hashes == [] then None
    else if IsCanon(chain, hashes[0]) then Some(hashes[0])
    else FirstCanon(chain, hashes[1..])
  }

  /** `load_hash` */
  function LoadHash(chain: Chain, db: Db, e: Hash): Option<Hash>
    requires ValidChain(chain)
  {
    match BlockHash(db, e)
    case None => None
    case Some(hashes) => FirstCanon(chain, hashes)
  }

  function FirstCanonMeta(chain: Chain, metas: seq<TxMeta>): Option<TxMeta>
    requires ValidChain(chain)
  {
    if metas == [] then None
    else if IsCanon(chain, metas[0].substrateHash) then Some(metas[0])
    else FirstCanonMeta(chain, metas[1..])
  }

  /** `load_transactions` */
  function LoadTransactions(chain: Chain, db: Db, t: Hash, onlyCanonical: bool): Option<(Hash, nat)>
    requires ValidChain(chain)
  {
    var metas := TransactionMetadata(db, t);
    match FirstCanonMeta(chain, metas)
    case Some(meta) => Some((meta.ethHash, meta.index))
    case None =>
      if !onlyCanonical && |metas| > 0 then Some((metas[0].ethHash, metas[0].index)) else None
  }

  /** The log (or genesis API) of block `h` yields Ethereum block `e`. */
  ghost predicate Yields(env: Env, chain: Chain, e: Hash, h: Hash) {
    && h in chain.headers
    && var d := Derived(env, h, chain.headers[h]);
       d.Ok? && d.value.WriteHashes? && d.value.hashes.blockHash == e
  }

  ghost predicate SyncedFor(env: Env, s: State, e: Hash, h: Hash) {
    IsSynced(s.db, h) && Yields(env, s.chain, e, h)
  }

  lemma {:induction false} FirstCanonIsFirst(chain: Chain, hashes: seq<Hash>)
    requires ValidChain(chain)
    ensures match FirstCanon(chain, hashes)
            case None => forall h :: h in hashes ==> !IsCanon(chain, h)
            case Some(h) => exists i :: 0 <= i < |hashes| && hashes[i] == h && IsCanon(chain, h) &&
                                        forall j :: 0 <= j < i ==> !IsCanon(chain, hashes[j])
  {
    if hashes != [] && !IsCanon(chain, hashes[0]) {
      var rest := hashes[1..];
      FirstCanonIsFirst(chain, rest);
      assert forall j :: 1 <= j < |hashes| ==> hashes[j] == rest[j - 1];
      if FirstCanon(chain, rest).Some? {
        var i :| 0 <= i < |rest| && rest[i] == FirstCanon(chain, rest).value &&
                 forall j :: 0 <= j < i ==> !IsCanon(chain, rest[j]);
        assert hashes[i + 1] == rest[i];
      } else {
        assert forall h :: h in hashes ==> h == hashes[0] || h in rest;
      }
    }
  }

  /** In every reachable state the list for `e` is exactly the synced blocks that yield `e`, each once, oldest first. */
  lemma BlockMappingExact(env: Env, syncFrom: nat, s: State, e: Hash)
    requires Sound(env, syncFrom, s)
    ensures var list := if BlockHash(s.db, e).Some? then BlockHash(s.db, e).value else [];
            && list == BlocksFor(s.history, e)
            && Distinct(list)
            && forall h :: h in list <==> SyncedFor(env, s, e, h)
  {
    BlocksForDistinct(s.history, e);
    forall h
      ensures h in BlocksFor(s.history, e) <==> SyncedFor(env, s, e, h)
    {
      BlocksForMember(s.history, e, h);
      assert IsSynced(s.db, h) <==> Wrote(s.history, h);
      if h in s.chain.headers && IsSynced(s.db, h) {
        var i :| 0 <= i < |s.history| && s.history[i].block == h;
        assert Recorded(env, syncFrom, s.chain, s.history[i]);
      }
      if h in BlocksFor(s.history, e) {
        var i :| 0 <= i < |s.history| && CommitsTo(s.history[i], e, h);
        assert Recorded(env, syncFrom, s.chain, s.history[i]);
      }
    }
  }

  /**
   * `load_hash` answers for the chain it is asked about, whatever chain was best when the mapping was written:
   * it finds a block exactly when some synced block for `e` is on the current best chain.
   */
  lemma LoadHashFollowsBest(env: Env, syncFrom: nat, s: State, e: Hash)
    requires Sound(env, syncFrom, s)
    ensures LoadHash(s.chain, s.db, e).Some? <==> exists h :: SyncedFor(env, s, e, h) && OnBestChain(s.chain, h)
    ensures LoadHash(s.chain, s.db, e).Some? ==>
              var h := LoadHash(s.chain, s.db, e).value; SyncedFor(env, s, e, h) && OnBestChain(s.chain, h)
  {
    BlockMappingExact(env, syncFrom, s, e);
    FirstCanonIsFirst(s.chain, BlocksFor(s.history, e));
    var list := BlocksFor(s.history, e);
    assert LoadHash(s.chain, s.db, e) == FirstCanon(s.chain, list);
    match FirstCanon(s.chain, list) {
      case None =>
        forall h | SyncedFor(env, s, e, h) && OnBestChain(s.chain, h)
          ensures false
        {
          assert h in list && IsCanon(s.chain, h);
        }
      case Some(h) =>
        assert h in list && IsCanon(s.chain, h);
        assert SyncedFor(env, s, e, h) && OnBestChain(s.chain, h);
    }
  }

  /** A best-block change moves the answer to the new chain with no database write. */
  lemma ReorgNeedsNoWrite(env: Env, syncFrom: nat, s: State, chain': Chain, e: Hash)
    requires Sound(env, syncFrom, s) && Imports(s.chain, chain')
    ensures var s' := s.(chain := chain');
            LoadHash(chain', s.db, e).Some? <==> exists h :: SyncedFor(env, s', e, h) && OnBestChain(chain', h)
  {
    var s' := s.(chain := chain');
    SoundImport(env, syncFrom, s, s');
    LoadHashFollowsBest(env, syncFrom, s', e);
  }

  /** Once sync has completed, exactly the best chain's blocks at or above `syncFrom` can be looked up. */
  lemma CompletedLookup(env: Env, syncFrom: nat, s: State, e: Hash)
    requires Sound(env, syncFrom, s) && Unsynced(syncFrom, s) == {}
    ensures LoadHash(s.chain, s.db, e).Some? <==>
            exists h :: Yields(env, s.chain, e, h) && OnBestChain(s.chain, h) && s.chain.headers[h].number >= syncFrom
  {
    LoadHashFollowsBest(env, syncFrom, s, e);
    var found := LoadHash(s.chain, s.db, e);
    if found.Some? {
      var h := found.value;
      assert Wrote(s.history, h);
      var i :| 0 <= i < |s.history| && s.history[i].block == h;
      assert Recorded(env, syncFrom, s.chain, s.history[i]);
      assert Yields(env, s.chain, e, h);
    }
    forall h | Yields(env, s.chain, e, h) && OnBestChain(s.chain, h) && s.chain.headers[h].number >= syncFrom
      ensures SyncedFor(env, s, e, h)
    {
      assert h !in Unsynced(syncFrom, s);
    }
  }

  lemma {:induction false} FirstCanonMetaIsFirst(chain: Chain, metas: seq<TxMeta>)
    requires ValidChain(chain)
    ensures match FirstCanonMeta(chain, metas)
            case None => forall m :: m in metas ==> !IsCanon(chain, m.substrateHash)
            case Some(m) => exists i :: 0 <= i < |metas| && metas[i] == m && IsCanon(chain, m.substrateHash) &&
                                        forall j :: 0 <= j < i ==> !IsCanon(chain, metas[j].substrateHash)
  {
    if metas != [] && !IsCanon(chain, metas[0].substrateHash) {
      var rest := metas[1..];
      FirstCanonMetaIsFirst(chain, rest);
      assert forall j :: 1 <= j < |metas| ==> metas[j] == rest[j - 1];
      if FirstCanonMeta(chain, rest).Some? {
        var i :| 0 <= i < |rest| && rest[i] == FirstCanonMeta(chain, rest).value &&
                 forall j :: 0 <= j < i ==> !IsCanon(chain, rest[j].substrateHash);
        assert metas[i + 1] == rest[i];
      } else {
        assert forall m :: m in metas ==> m == metas[0] || m in rest;
      }
    }
  }

  /** Block `h` has transaction `t`. */
  ghost predicate HasTransaction(env: Env, chain: Chain, t: Hash, h: Hash) {
    && h in chain.headers
    && var d := Derived(env, h, chain.headers[h]);
       d.Ok? && d.value.WriteHashes? && t in d.value.hashes.transactionHashes
  }

  /** Block `h` was synced, contains `t`, and `m` is its entry: `t`'s last index in it. */
  ghost predicate SyncedWith(env: Env, s: State, t: Hash, h: Hash, m: TxMeta) {
    && h in s.chain.headers && IsSynced(s.db, h)
    && var d := Derived(env, h, s.chain.headers[h]);
       && d.Ok? && d.value.WriteHashes? && t in d.value.hashes.transactionHashes
       && m == MetaOf(h, d.value.hashes, t)
  }

  /** The entries for `t` are exactly one per synced block that contains it. */
  lemma TransactionMappingExact(env: Env, syncFrom: nat, s: State, t: Hash)
    requires Sound(env, syncFrom, s)
    ensures var metas := TransactionMetadata(s.db, t);
            && metas == MetaFor(s.history, t)
            && (forall m :: m in metas <==> SyncedWith(env, s, t, m.substrateHash, m))
            && forall i, j :: 0 <= i < j < |metas| ==> metas[i].substrateHash != metas[j].substrateHash
  {
    var metas := MetaFor(s.history, t);
    forall m | m in metas
      ensures SyncedWith(env, s, t, m.substrateHash, m)
    {
      var k :| 0 <= k < |metas| && metas[k] == m;
      var i := MetaForSound(s.history, t, k);
      assert Recorded(env, syncFrom, s.chain, s.history[i]);
      assert Wrote(s.history, m.substrateHash);
    }
    forall m: TxMeta | SyncedWith(env, s, t, m.substrateHash, m)
      ensures m in metas
    {
      assert Wrote(s.history, m.substrateHash);
      var i :| 0 <= i < |s.history| && s.history[i].block == m.substrateHash;
      assert Recorded(env, syncFrom, s.chain, s.history[i]);
      MetaForComplete(s.history, t, i);
    }
    forall i, j | 0 <= i < j < |metas|
      ensures metas[i].substrateHash != metas[j].substrateHash
    {
      MetaForOnePerBlock(s.history, t, i, j);
    }
  }

  /**
   * `load_transactions` names a canonical inclusion whenever a synced one exists; without one it gives up
   * if only canonical answers are wanted, and otherwise falls back to the inclusion synced first.
   */
  lemma LoadTransactionsFollowsBest(env: Env, syncFrom: nat, s: State, t: Hash, onlyCanonical: bool)
    requires Sound(env, syncFrom, s)
    ensures var r := LoadTransactions(s.chain, s.db, t, onlyCanonical);
            if exists m: TxMeta :: SyncedWith(env, s, t, m.substrateHash, m) && OnBestChain(s.chain, m.substrateHash)
            then r.Some? && exists m: TxMeta :: SyncedWith(env, s, t, m.substrateHash, m) &&
                                        OnBestChain(s.chain, m.substrateHash) && r.value == (m.ethHash, m.index)
            else var metas := MetaFor(s.history, t);
                 r == if onlyCanonical || metas == [] then None else Some((metas[0].ethHash, metas[0].index))
  {
    TransactionMappingExact(env, syncFrom, s, t);
    var metas := TransactionMetadata(s.db, t);
    FirstCanonMetaIsFirst(s.chain, metas);
    match FirstCanonMeta(s.chain, metas) {
      case Some(m) => assert SyncedWith(env, s, t, m.substrateHash, m);
      case None =>
        forall m: TxMeta | SyncedWith(env, s, t, m.substrateHash, m) && OnBestChain(s.chain, m.substrateHash)
          ensures false
        {
          assert m in metas && IsCanon(s.chain, m.substrateHash);
        }
    }
  }

  /** Once genesis is synced, the block that its runtime reports is found by its hash, and has no transactions there. */
  lemma GenesisIsFound(env: Env, syncFrom: nat, s: State, g: Hash, block: EthBlock)
    requires Sound(env, syncFrom, s) && IsSynced(s.db, g) && OnBestChain(s.chain, g) && s.chain.headers[g].number == 0
    requires env.genesis.Api? && (if env.genesis.version >= 2 then env.genesis.current else env.genesis.beforeVersion2)
                                 == Ok(Some(block))
    ensures var e := env.hasher.header(block.header);
            && LoadHash(s.chain, s.db, e).Some?
            && ((forall x :: OnBestChain(s.chain, x) && Yields(env, s.chain, e, x) ==> x == g) ==>
                LoadHash(s.chain, s.db, e) == Some(g))
    ensures forall t, m :: m in TransactionMetadata(s.db, t) ==> m.substrateHash != g
  {
    var e := env.hasher.header(block.header);
    GenesisWriteExact(env);
    assert SyncedFor(env, s, e, g);
    LoadHashFollowsBest(env, syncFrom, s, e);
    forall t, m | m in TransactionMetadata(s.db, t)
      ensures m.substrateHash != g
    {
      TransactionMappingExact(env, syncFrom, s, t);
      assert SyncedWith(env, s, t, m.substrateHash, m);
    }
  }
}
