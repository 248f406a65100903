/**
 * Mapping sync: walks the block tree backwards from its leaves, on a persisted stack of tips,
 * and commits every block it has not committed yet.
 */
module MappingSync {
  import opened Basics
  import opened Consensus
  import opened HeaderTree
  import opened KvDb

  datatype SyncStrategy = Normal | Parachain

  /**
   * What becomes of a call's two database commits, the block's and (after it) the tips'. A crash between the two
   * leaves what a failing tips commit leaves.
   */
  datatype Disk = Working | BlockWriteFails | TipsWriteFails

  datatype SyncError = HeaderNotFound | HashMismatch | SeveralLogs | GenesisApiFailed | GenesisBlockNotFound
                     | WriteFailed

  /** What the Ethereum runtime API answers at the genesis block. */
  datatype GenesisApi =
    | NoApi
    | ApiUnreachable
    | Api(version: nat, current: Result<Option<EthBlock>, ()>, beforeVersion2: Result<Option<EthBlock>, ()>)

  /** What a block's own state says: its stored Ethereum block (if any), and the genesis runtime API. */
  datatype Env = Env(hasher: Hasher, stored: map<Hash, EthBlock>, genesis: GenesisApi)

  // What one block commits

  /** What a frontier log commits, or `None` for "synced, nothing to map". */
  function LogWrite(env: Env, h: Hash, log: Log): Result<Write, SyncError> {
    match log
    case Pre(PreBlock(block)) => Ok(WriteHashes(FromBlock(env.hasher, block)))
    case Post(PostHashes(hashes)) => Ok(WriteHashes(hashes))
    case Post(PostBlock(block)) => Ok(WriteHashes(FromBlock(env.hasher, block)))
    case Post(PostBlockHash(expected)) =>
      if h !in env.stored then Ok(WriteNone)
      else if env.hasher.header(env.stored[h].header) != expected then Err(HashMismatch)
      else Ok(WriteHashes(FromBlock(env.hasher, env.stored[h])))
  }

  function BlockWrite(env: Env, h: Hash, header: Header): Result<Write, SyncError> {
    match OnlyLog(FrontierLogs(header.digest))
    case Ok(log) => LogWrite(env, h, log)
    case Err(NotFound) => Ok(WriteNone)
    case Err(MultipleLogs) => Err(SeveralLogs)
  }

  function GenesisWrite(env: Env): Result<Write, SyncError> {
    match env.genesis
    case NoApi => Ok(WriteNone)
    case ApiUnreachable => Err(GenesisApiFailed)
    case Api(version, current, legacy) =>
      match (if version > 1 then current else legacy)
      case Err(_) => Err(GenesisApiFailed)
      case Ok(None) => Err(GenesisBlockNotFound)
      case Ok(Some(block)) => Ok(WriteHashes(Hashes(env.hasher.header(block.header), [])))
  }

  /** What syncing a block commits: a function of the block alone, so no later import changes it. */
  function Derived(env: Env, h: Hash, header: Header): Result<Write, SyncError> {
    if header.number == 0 then GenesisWrite(env) else BlockWrite(env, h, header)
  }

  /**
   * What a block with number above 0 commits, by its frontier logs: none, nothing to map; several, an error; hashes,
   * these; a block, the block's own hashes in order; a block hash, the hashes of the stored block if there is one, and
   * an error if that has another hash.
   */
  lemma BlockWriteExact(env: Env, h: Hash, header: Header)
    ensures var logs := FrontierLogs(header.digest);
            var write := BlockWrite(env, h, header);
            && (logs == [] ==> write == Ok(WriteNone))
            && (|logs| > 1 ==> write == Err(SeveralLogs))
            && (forall hashes :: logs == [Post(PostHashes(hashes))] ==> write == Ok(WriteHashes(hashes)))
            && (forall block :: logs == [Pre(PreBlock(block))] || logs == [Post(PostBlock(block))] ==>
                  WritesBlock(env.hasher, block, write))
            && (forall hash :: logs == [Post(PostBlockHash(hash))] ==>
                  if h !in env.stored then write == Ok(WriteNone)
                  else if env.hasher.header(env.stored[h].header) == hash
                  then WritesBlock(env.hasher, env.stored[h], write)
                  else write == Err(HashMismatch))
  {
    var logs := FrontierLogs(header.digest);
    forall block
      ensures WritesBlock(env.hasher, block, Ok(WriteHashes(FromBlock(env.hasher, block))))
    {
      FromBlockInOrder(env.hasher, block, FromBlock(env.hasher, block));
    }
    if |logs| == 1 {
      assert logs == [logs[0]];
    }
  }

  /** The write is that of the block's own hash and its transactions' hashes, in their order. */
  ghost predicate WritesBlock(hasher: Hasher, block: EthBlock, write: Result<Write, SyncError>) {
    write.Ok? && write.value.WriteHashes? && HashesOf(hasher, block, write.value.hashes)
  }

  /** What genesis commits: the header hash of the block that its runtime reports, and no transactions. */
  lemma GenesisWriteExact(env: Env)
    ensures env.genesis == NoApi ==> GenesisWrite(env) == Ok(WriteNone)
    ensures env.genesis == ApiUnreachable ==> GenesisWrite(env).Err?
    ensures env.genesis.Api? ==>
              match (if env.genesis.version >= 2 then env.genesis.current else env.genesis.beforeVersion2)
              case Ok(Some(block)) => GenesisWrite(env) == Ok(WriteHashes(Hashes(env.hasher.header(block.header), [])))
              case Ok(None) => GenesisWrite(env) == Err(GenesisBlockNotFound)
              case Err(_) => GenesisWrite(env) == Err(GenesisApiFailed)
  {
  }

  // One call

  datatype TipScan = Operate(block: Hash, rest: seq<Hash>) | Exhausted | Missing

  /** Pops tips until one is neither synced nor below `syncFrom`. */
  function ScanTips(chain: Chain, db: Db, syncFrom: nat, tips: seq<Hash>): (scan: TipScan)
    ensures scan.Operate? ==> scan.block in chain.headers
  {
    if tips == [] then Exhausted
    else
      var tip, rest := tips[|tips| - 1], tips[..|tips| - 1];
      if IsSynced(db, tip) then ScanTips(chain, db, syncFrom, rest)
      else if tip !in chain.headers then Missing
      else if chain.headers[tip].number >= syncFrom then Operate(tip, rest)
      else ScanTips(chain, db, syncFrom, rest)
  }

  datatype Step = Step(db: Db, result: Result<bool, SyncError>, committed: Option<Entry>)

  function StartTips(chain: Chain, db: Db): seq<Hash> {
    if db.tips == [] then chain.leaves else db.tips
  }

  function OneBlock(env: Env, chain: Chain, bestNumber: nat, syncFrom: nat, strategy: SyncStrategy, disk: Disk, db: Db)
    : Step
  {
    if StartTips(chain, db) == [] then Step(db, Ok(false), None)
    else
      match ScanTips(chain, db, syncFrom, StartTips(chain, db))
      case Missing => Step(db, Err(HeaderNotFound), None)
      case Exhausted =>
        if disk == TipsWriteFails then Step(db, Err(WriteFailed), None) else Step(db.(tips := []), Ok(false), None)
      case Operate(h, rest) => OperateOn(env, bestNumber, strategy, disk, db, h, chain.headers[h], rest)
  }

  /** A call that found block `h` to work on. */
  function OperateOn(env: Env, bestNumber: nat, strategy: SyncStrategy, disk: Disk, db: Db,
                     h: Hash, header: Header, rest: seq<Hash>): Step
  {
    if header.number > 0 && strategy == Parachain && header.number > bestNumber then Step(db, Ok(false), None)
    else
      match Derived(env, h, header)
      case Err(e) => Step(db, Err(e), None)
      case Ok(write) => CommitOn(disk, db, Entry(h, write), NextTips(header, rest))
  }

  /** The two commits of a call, as far as the disk lets them. */
  function CommitOn(disk: Disk, db: Db, entry: Entry, tips: seq<Hash>): Step {
    match disk
    case BlockWriteFails => Step(db, Err(WriteFailed), None)
    case TipsWriteFails => Step(Committed(db, entry), Err(WriteFailed), Some(entry))
    case Working => Step(Committed(db, entry).(tips := tips), Ok(true), Some(entry))
  }

  /** The parent of a committed block becomes a tip. */
  function NextTips(header: Header, rest: seq<Hash>): seq<Hash> {
    if header.number == 0 then rest else rest + [header.parent]
  }

  /** The verdict of a commit: an error before it, or the disk's. */
  function Written(write: Result<Write, SyncError>, disk: Disk): Result<(), SyncError> {
    match write
    case Err(e) => Err(e)
    case Ok(_) => if disk == BlockWriteFails then Err(WriteFailed) else Ok(())
  }

  method CommitWrite(backend: Backend, h: Hash, write: Write, disk: Disk) returns (r: Result<(), SyncError>)
    modifies backend
    ensures r == Written(Ok(write), disk)
    ensures backend.Contents() ==
            if r.Ok? then Committed(old(backend.Contents()), Entry(h, write)) else old(backend.Contents())
  {
    if disk == BlockWriteFails {
      return Err(WriteFailed);
    }
    r := Ok(());
    match write
    case WriteNone => backend.WriteNoHashes(h);
    case WriteHashes(hashes) => backend.WriteBlockHashes(h, hashes);
  }

  method SyncBlock(env: Env, backend: Backend, h: Hash, header: Header, disk: Disk) returns (r: Result<(), SyncError>)
    modifies backend
    ensures r == Written(BlockWrite(env, h, header), disk)
    ensures backend.Contents() ==
            if r.Ok? then Committed(old(backend.Contents()), Entry(h, BlockWrite(env, h, header).value))
            else old(backend.Contents())
  {
    var found := FindLog(header.digest);
    match found
    case Err(NotFound) =>
      r := CommitWrite(backend, h, WriteNone, disk);
    case Err(MultipleLogs) =>
      return Err(SeveralLogs);
    case Ok(log) =>
      var write := LogWrite(env, h, log);
      if write.Err? {
        return Err(write.error);
      }
      r := CommitWrite(backend, h, write.value, disk);
  }

  method SyncGenesisBlock(env: Env, backend: Backend, h: Hash, disk: Disk) returns (r: Result<(), SyncError>)
    modifies backend
    ensures r == Written(GenesisWrite(env), disk)
    ensures backend.Contents() ==
            if r.Ok? then Committed(old(backend.Contents()), Entry(h, GenesisWrite(env).value))
            else old(backend.Contents())
  {
    var write := GenesisWrite(env);
    if write.Err? {
      return Err(write.error);
    }
    r := CommitWrite(backend, h, write.value, disk);
  }

  /** Writes the tips unless that commit fails. */
  method SaveTips(backend: Backend, tips: seq<Hash>, disk: Disk) returns (ok: bool)
    modifies backend
    ensures ok == (disk != TipsWriteFails)
    ensures backend.Contents() == if ok then old(backend.Contents()).(tips := tips) else old(backend.Contents())
  {
    ok := disk != TipsWriteFails;
    if ok {
      backend.WriteCurrentSyncingTips(tips);
    }
  }

  /** `fetch_header` */
  function FetchHeader(chain: Chain, db: Db, tip: Hash, syncFrom: nat): Result<Option<Header>, SyncError> {
    if IsSynced(db, tip) then Ok(None)
    else if tip !in chain.headers then Err(HeaderNotFound)
    else if chain.headers[tip].number >= syncFrom then Ok(Some(chain.headers[tip]))
    else Ok(None)
  }

  /** The while loop of `sync_one_block`: pops tips until one has a header to work on. */
  method PopTips(chain: Chain, syncFrom: nat, backend: Backend, start: seq<Hash>)
    returns (r: Result<Option<(Hash, Header)>, SyncError>, tips: seq<Hash>)
    ensures match ScanTips(chain, backend.Contents(), syncFrom, start)
            case Missing => r == Err(HeaderNotFound)
            case Exhausted => r == Ok(None) && tips == []
            case Operate(h, rest) => r == Ok(Some((h, chain.headers[h]))) && tips == rest
  {
    tips := start;
    ghost var scan := ScanTips(chain, backend.Contents(), syncFrom, start);
    while tips != []
      invariant scan == ScanTips(chain, backend.Contents(), syncFrom, tips)
      decreases |tips|
    {
      var tip := tips[|tips| - 1];
      tips := tips[..|tips| - 1];
      var fetched := FetchHeader(chain, backend.Contents(), tip, syncFrom);
      if fetched.Err? {
        return Err(fetched.error), tips;
      }
      if fetched.value.Some? {
        return Ok(Some((tip, fetched.value.value))), tips;
      }
    }
    return Ok(None), tips;
  }

  method SyncOneBlock(env: Env, chain: Chain, bestNumber: nat, syncFrom: nat, strategy: SyncStrategy, disk: Disk,
                      backend: Backend)
    returns (r: Result<bool, SyncError>)
    modifies backend
    ensures var step := OneBlock(env, chain, bestNumber, syncFrom, strategy, disk, old(backend.Contents()));
            r == step.result && backend.Contents() == step.db
  {
    var tips := backend.tips;
    if tips == [] {
      if chain.leaves == [] {
        return Ok(false);
      }
      tips := tips + chain.leaves;
    }

    assert tips == StartTips(chain, backend.Contents());
    var popped;
    popped, tips := PopTips(chain, syncFrom, backend, tips);
    if popped.Err? {
      return Err(popped.error);
    }
    var operating := popped.value;
    if operating.None? {
      var saved := SaveTips(backend, tips, disk);
      return if saved then Ok(false) else Err(WriteFailed);
    }

    var (h, header) := operating.value;
    r := OperateOnBlock(env, bestNumber, strategy, disk, backend, h, header, tips);
  }

  /** The rest of `sync_one_block`, once it has a header. */
  method OperateOnBlock(env: Env, bestNumber: nat, strategy: SyncStrategy, disk: Disk, backend: Backend,
                        h: Hash, header: Header, tips: seq<Hash>)
    returns (r: Result<bool, SyncError>)
    modifies backend
    ensures var step := OperateOn(env, bestNumber, strategy, disk, old(backend.Contents()), h, header, tips);
            r == step.result && backend.Contents() == step.db
  {
    var saved;
    if header.number == 0 {
      var done := SyncGenesisBlock(env, backend, h, disk);
      if done.Err? {
        return Err(done.error);
      }
      saved := SaveTips(backend, tips, disk);
    } else {
      if strategy == Parachain && header.number > bestNumber {
        return Ok(false);
      }
      var done := SyncBlock(env, backend, h, header, disk);
      if done.Err? {
        return Err(done.error);
      }
      saved := SaveTips(backend, tips + [header.parent], disk);
    }
    return if saved then Ok(true) else Err(WriteFailed);
  }

  /**
   * A whole `sync_blocks` call on values, attempt `i` meeting the disk `disks[i]`: attempts stop mattering after the
   * first success.
   */
  function ManyBlocks(env: Env, chain: Chain, bestNumber: nat, syncFrom: nat, strategy: SyncStrategy, disks: seq<Disk>,
                      db: Db): Step
    decreases |disks|
  {
    if disks == [] then Step(db, Ok(false), None)
    else
      var step := OneBlock(env, chain, bestNumber, syncFrom, strategy, disks[0], db);
      if step.result == Ok(false)
      then ManyBlocks(env, chain, bestNumber, syncFrom, strategy, disks[1..], step.db)
      else step
  }

  method SyncBlocks(env: Env, chain: Chain, bestNumber: nat, syncFrom: nat, strategy: SyncStrategy, disks: seq<Disk>,
                    backend: Backend, limit: nat)
    returns (r: Result<bool, SyncError>)
    requires |disks| == limit
    modifies backend
    ensures var step := ManyBlocks(env, chain, bestNumber, syncFrom, strategy, disks, old(backend.Contents()));
            r == step.result && backend.Contents() == step.db
  {
    var syncedAny := false;
    ghost var whole := ManyBlocks(env, chain, bestNumber, syncFrom, strategy, disks, backend.Contents());
    assert disks[0..] == disks;
    for i := 0 to limit
      invariant syncedAny ==> whole.result == Ok(true) && backend.Contents() == whole.db
      invariant !syncedAny ==>
        whole == ManyBlocks(env, chain, bestNumber, syncFrom, strategy, disks[i..], backend.Contents())
    {
      assert disks[i..][0] == disks[i] && disks[i..][1..] == disks[i + 1..];
      if !syncedAny {
        var one := SyncOneBlock(env, chain, bestNumber, syncFrom, strategy, disks[i], backend);
        if one.Err? {
          return Err(one.error);
        }
        syncedAny := one.value;
      }
    }
    return Ok(syncedAny);
  }

  // Runs

  /** The chain, the database, and (for the proofs) every commit made so far. */
  datatype State = State(chain: Chain, db: Db, history: seq<Entry>)

  ghost predicate Initial(s: State) {
    ValidChain(s.chain) && s.db == EMPTY_DB && s.history == []
  }

  function AfterStep(s: State, step: Step): State {
    State(s.chain, step.db, if step.committed.Some? then s.history + [step.committed.value] else s.history)
  }

  ghost function StepOf(env: Env, syncFrom: nat, strategy: SyncStrategy, disk: Disk, s: State): Step
    requires ValidChain(s.chain)
  {
    OneBlock(env, s.chain, s.chain.headers[s.chain.best].number, syncFrom, strategy, disk, s.db)
  }

  ghost predicate SyncStep(env: Env, syncFrom: nat, strategy: SyncStrategy, disk: Disk, s: State, s': State) {
    ValidChain(s.chain) && s' == AfterStep(s, StepOf(env, syncFrom, strategy, disk, s))
  }

  ghost predicate ImportStep(s: State, s': State) {
    Imports(s.chain, s'.chain) && s'.db == s.db && s'.history == s.history
  }

  /** Either a sync call (successful, idle or failing, under either strategy) or any batch of imports. */
  ghost predicate Next(env: Env, syncFrom: nat, disks: set<Disk>, s: State, s': State) {
    || ImportStep(s, s')
    || exists strategy, disk :: disk in disks && SyncStep(env, syncFrom, strategy, disk, s, s')
  }

  ghost predicate IsRun(env: Env, syncFrom: nat, disks: set<Disk>, run: seq<State>) {
    && |run| > 0
    && Initial(run[0])
    && forall i :: 0 <= i < |run| - 1 ==> Next(env, syncFrom, disks, run[i], run[i + 1])
  }

  /** The parent of a synced block is synced, below the floor, or waiting in the tips. */
  ghost predicate ParentAccounted(s: State, syncFrom: nat, h: Hash)
    requires ValidChain(s.chain) && h in s.chain.headers
  {
    var header := s.chain.headers[h];
    header.number > 0 ==>
      || IsSynced(s.db, header.parent)
      || s.chain.headers[header.parent].number < syncFrom
      || header.parent in s.db.tips
  }

  ghost predicate Recorded(env: Env, syncFrom: nat, chain: Chain, entry: Entry) {
    && entry.block in chain.headers
    && chain.headers[entry.block].number >= syncFrom
    && Derived(env, entry.block, chain.headers[entry.block]) == Ok(entry.write)
  }

  ghost predicate TipsKnown(s: State) {
    forall h :: h in s.db.tips ==> h in s.chain.headers
  }

  /** Every commit was made once, of a block that is there, with what the block yields; the columns hold just these. */
  ghost predicate Ledger(env: Env, syncFrom: nat, s: State) {
    && OncePerBlock(s.history)
    && Holds(s.db, s.history)
    && (forall i {:trigger Recorded(env, syncFrom, s.chain, s.history[i])} ::
          0 <= i < |s.history| ==> Recorded(env, syncFrom, s.chain, s.history[i]))
  }

  /** What even a crash between the two commits of a call does not break. */
  ghost predicate Sound(env: Env, syncFrom: nat, s: State) {
    ValidChain(s.chain) && Ledger(env, syncFrom, s) && TipsKnown(s)
  }

  ghost predicate Inv(env: Env, syncFrom: nat, s: State) {
    && Sound(env, syncFrom, s)
    && (forall h {:trigger ParentAccounted(s, syncFrom, h)} ::
          h in s.chain.headers && IsSynced(s.db, h) ==> ParentAccounted(s, syncFrom, h))
  }

  /** Tips are taken from the end: what is left is the part of the stack before the operating block. */
  lemma {:induction false} ScanTipsFromTheEnd(chain: Chain, db: Db, syncFrom: nat, tips: seq<Hash>)
    requires forall h :: h in tips ==> h in chain.headers
    ensures var scan := ScanTips(chain, db, syncFrom, tips);
            scan.Operate? ==>
              && |scan.rest| < |tips| && scan.rest == tips[..|scan.rest|] && scan.block == tips[|scan.rest|]
              && forall i :: |scan.rest| < i < |tips| ==>
                   IsSynced(db, tips[i]) || chain.headers[tips[i]].number < syncFrom
  {
    if tips != [] {
      var rest := tips[..|tips| - 1];
      ScanTipsFromTheEnd(chain, db, syncFrom, rest);
      assert forall i :: 0 <= i < |rest| ==> rest[i] == tips[i];
    }
  }

  lemma {:induction false} ScanTipsFacts(chain: Chain, db: Db, syncFrom: nat, tips: seq<Hash>)
    requires forall h :: h in tips ==> h in chain.headers
    ensures var scan := ScanTips(chain, db, syncFrom, tips);
            && !scan.Missing?
            && (scan.Operate? ==>
                && scan.block in tips && !IsSynced(db, scan.block)
                && chain.headers[scan.block].number >= syncFrom
                && (forall h :: h in scan.rest ==> h in tips)
                && forall h :: h in tips ==>
                     h in scan.rest || h == scan.block || IsSynced(db, h) || chain.headers[h].number < syncFrom)
            && (scan.Exhausted? ==>
                forall h :: h in tips ==> IsSynced(db, h) || chain.headers[h].number < syncFrom)
  {
    if tips != [] {
      var tip, rest := tips[|tips| - 1], tips[..|tips| - 1];
      assert forall h :: h in tips <==> h == tip || h in rest;
      ScanTipsFacts(chain, db, syncFrom, rest);
    }
  }

  lemma SoundImport(env: Env, syncFrom: nat, s: State, s': State)
    requires Sound(env, syncFrom, s) && ImportStep(s, s')
    ensures Sound(env, syncFrom, s')
  {
    forall i | 0 <= i < |s'.history|
      ensures Recorded(env, syncFrom, s'.chain, s'.history[i])
    {
      assert Recorded(env, syncFrom, s.chain, s.history[i]);
    }
  }

  lemma InvImport(env: Env, syncFrom: nat, s: State, s': State)
    requires Inv(env, syncFrom, s) && ImportStep(s, s')
    ensures Inv(env, syncFrom, s')
  {
    SoundImport(env, syncFrom, s, s');
    forall h | h in s'.chain.headers && IsSynced(s'.db, h)
      ensures ParentAccounted(s', syncFrom, h)
    {
      assert Wrote(s.history, h);
      var i :| 0 <= i < |s.history| && s.history[i].block == h;
      assert Recorded(env, syncFrom, s.chain, s.history[i]);
      assert ParentAccounted(s, syncFrom, h);
    }
  }

  /** What a commit leaves: the block written, and these tips. */
  ghost function AfterCommit(s: State, h: Hash, tips: seq<Hash>, write: Write): State {
    State(s.chain, Committed(s.db, Entry(h, write)).(tips := tips), s.history + [Entry(h, write)])
  }

  lemma CommitSyncs(s: State, h: Hash, tips: seq<Hash>, write: Write, x: Hash)
    ensures IsSynced(AfterCommit(s, h, tips, write).db, x) <==> x == h || IsSynced(s.db, x)
  {
  }

  /** The popped tips that a commit drops were already accounted for. */
  lemma CommitAccounts(s: State, syncFrom: nat, h: Hash, rest: seq<Hash>, write: Write, x: Hash)
    requires ValidChain(s.chain) && TipsKnown(s) && h in s.chain.headers && x in s.chain.headers
    requires ScanTips(s.chain, s.db, syncFrom, StartTips(s.chain, s.db)) == Operate(h, rest)
    requires x != h ==> ParentAccounted(s, syncFrom, x)
    ensures ParentAccounted(AfterCommit(s, h, NextTips(s.chain.headers[h], rest), write), syncFrom, x)
  {
    var tips := NextTips(s.chain.headers[h], rest);
    ScanTipsFacts(s.chain, s.db, syncFrom, StartTips(s.chain, s.db));
    var header := s.chain.headers[x];
    if header.number > 0 {
      CommitSyncs(s, h, tips, write, header.parent);
      if x == h {
        assert tips[|rest|] == header.parent;
      } else {
        assert forall y :: y in rest ==> y in tips;
      }
    }
  }

  lemma LedgerCommit(env: Env, syncFrom: nat, s: State, h: Hash, tips: seq<Hash>, write: Write)
    requires Ledger(env, syncFrom, s) && !IsSynced(s.db, h)
    requires h in s.chain.headers && s.chain.headers[h].number >= syncFrom
    requires Derived(env, h, s.chain.headers[h]) == Ok(write)
    ensures Ledger(env, syncFrom, AfterCommit(s, h, tips, write))
  {
    var entry := Entry(h, write);
    var s' := AfterCommit(s, h, tips, write);
    assert !Wrote(s.history, h);
    HoldsCommitted(s.db, s.history, entry);
    HoldsTips(Committed(s.db, entry), s'.history, tips);
    forall i | 0 <= i < |s'.history|
      ensures Recorded(env, syncFrom, s'.chain, s'.history[i])
    {
      assert i < |s.history| ==> Recorded(env, syncFrom, s.chain, s.history[i]);
    }
  }

  lemma SoundCommit(env: Env, syncFrom: nat, s: State, h: Hash, tips: seq<Hash>, write: Write)
    requires Sound(env, syncFrom, s) && Committable(env, syncFrom, s, h, write)
    requires forall t :: t in tips ==> t in s.chain.headers
    ensures Sound(env, syncFrom, AfterCommit(s, h, tips, write))
  {
    LedgerCommit(env, syncFrom, s, h, tips, write);
  }

  lemma SoundTips(env: Env, syncFrom: nat, s: State)
    requires Sound(env, syncFrom, s)
    ensures Sound(env, syncFrom, s.(db := s.db.(tips := [])))
  {
    HoldsTips(s.db, s.history, []);
  }

  ghost predicate Committable(env: Env, syncFrom: nat, s: State, h: Hash, write: Write) {
    && h in s.chain.headers && s.chain.headers[h].number >= syncFrom && !IsSynced(s.db, h)
    && Derived(env, h, s.chain.headers[h]) == Ok(write)
  }

  /** What a call can do: commit one block and leave some known tips, or clear the tips, or nothing. */
  lemma StepShape(env: Env, syncFrom: nat, strategy: SyncStrategy, disk: Disk, s: State)
    requires ValidChain(s.chain) && TipsKnown(s)
    ensures Shaped(env, syncFrom, s, StepOf(env, syncFrom, strategy, disk, s))
  {
    ScanTipsFacts(s.chain, s.db, syncFrom, StartTips(s.chain, s.db));
    var scan := ScanTips(s.chain, s.db, syncFrom, StartTips(s.chain, s.db));
    if scan.Operate? {
      OperateShape(env, syncFrom, s.chain.headers[s.chain.best].number, strategy, disk, s, scan.block, scan.rest);
    }
  }

  ghost predicate Shaped(env: Env, syncFrom: nat, s: State, step: Step) {
    && step.result != Err(HeaderNotFound)
    && match step.committed
       case Some(entry) =>
         && AfterStep(s, step) == AfterCommit(s, entry.block, step.db.tips, entry.write)
         && Committable(env, syncFrom, s, entry.block, entry.write)
         && forall t :: t in step.db.tips ==> t in s.chain.headers
       case None => AfterStep(s, step) == s || AfterStep(s, step) == s.(db := s.db.(tips := []))
  }

  lemma OperateShape(env: Env, syncFrom: nat, bestNumber: nat, strategy: SyncStrategy, disk: Disk, s: State,
                     h: Hash, rest: seq<Hash>)
    requires ValidChain(s.chain) && TipsKnown(s) && (forall t :: t in rest ==> t in s.chain.headers)
    requires h in s.chain.headers && s.chain.headers[h].number >= syncFrom && !IsSynced(s.db, h)
    ensures Shaped(env, syncFrom, s, OperateOn(env, bestNumber, strategy, disk, s.db, h, s.chain.headers[h], rest))
  {
    var step := OperateOn(env, bestNumber, strategy, disk, s.db, h, s.chain.headers[h], rest);
    if step.committed.Some? {
      assert step.db == Committed(s.db, step.committed.value).(tips := step.db.tips);
    }
  }

  /** One call keeps the columns exact, whatever becomes of its commits. */
  lemma SoundSync(env: Env, syncFrom: nat, strategy: SyncStrategy, disk: Disk, s: State, s': State)
    requires Sound(env, syncFrom, s) && SyncStep(env, syncFrom, strategy, disk, s, s')
    ensures Sound(env, syncFrom, s')
    ensures StepOf(env, syncFrom, strategy, disk, s).result != Err(HeaderNotFound)
  {
    StepShape(env, syncFrom, strategy, disk, s);
    var step := StepOf(env, syncFrom, strategy, disk, s);
    if step.committed.Some? {
      SoundCommit(env, syncFrom, s, step.committed.value.block, step.db.tips, step.committed.value.write);
    } else {
      SoundTips(env, syncFrom, s);
    }
  }

  /** A call whose tips commit does not fail keeps every synced block's parent accounted for. */
  lemma InvSync(env: Env, syncFrom: nat, strategy: SyncStrategy, disk: Disk, s: State, s': State)
    requires Inv(env, syncFrom, s) && SyncStep(env, syncFrom, strategy, disk, s, s') && disk != TipsWriteFails
    ensures Inv(env, syncFrom, s')
  {
    SoundSync(env, syncFrom, strategy, disk, s, s');
    var start := StartTips(s.chain, s.db);
    ScanTipsFacts(s.chain, s.db, syncFrom, start);
    var step := StepOf(env, syncFrom, strategy, disk, s);
    forall x | x in s'.chain.headers && IsSynced(s'.db, x)
      ensures ParentAccounted(s', syncFrom, x)
    {
      if step.committed.Some? {
        var scan := ScanTips(s.chain, s.db, syncFrom, start);
        CommitSyncs(s, scan.block, s'.db.tips, step.committed.value.write, x);
        assert x != scan.block ==> ParentAccounted(s, syncFrom, x);
        CommitAccounts(s, syncFrom, scan.block, scan.rest, step.committed.value.write, x);
      } else {
        assert ParentAccounted(s, syncFrom, x);
      }
    }
  }

  /**
   * Over every run of sync calls and imports, whatever commits fail or are cut off: no block is committed twice or
   * with anything but what it yields, and the columns hold exactly the commits.
   */
  lemma {:induction false} RunSound(env: Env, syncFrom: nat, disks: set<Disk>, run: seq<State>, i: nat)
    requires IsRun(env, syncFrom, disks, run) && i < |run|
    ensures Sound(env, syncFrom, run[i])
  {
    if i == 0 {
      HoldsEmpty();
    } else {
      RunSound(env, syncFrom, disks, run, i - 1);
      var s, s' := run[i - 1], run[i];
      assert Next(env, syncFrom, disks, run[i - 1], run[i - 1 + 1]);
      if ImportStep(s, s') {
        SoundImport(env, syncFrom, s, s');
      } else {
        var strategy, disk :| disk in disks && SyncStep(env, syncFrom, strategy, disk, s, s');
        SoundSync(env, syncFrom, strategy, disk, s, s');
      }
    }
  }

  /** Safety over every run in which no tips commit fails, sync calls being interleaved with any imports. */
  lemma {:induction false} RunInvariant(env: Env, syncFrom: nat, disks: set<Disk>, run: seq<State>, i: nat)
    requires IsRun(env, syncFrom, disks, run) && TipsWriteFails !in disks && i < |run|
    ensures Inv(env, syncFrom, run[i])
  {
    RunSound(env, syncFrom, disks, run, i);
    if i > 0 {
      RunInvariant(env, syncFrom, disks, run, i - 1);
      var s, s' := run[i - 1], run[i];
      assert Next(env, syncFrom, disks, run[i - 1], run[i - 1 + 1]);
      if ImportStep(s, s') {
        InvImport(env, syncFrom, s, s');
      } else {
        var strategy, disk :| disk in disks && SyncStep(env, syncFrom, strategy, disk, s, s');
        InvSync(env, syncFrom, strategy, disk, s, s');
      }
    }
  }

  /** With no tips left, the synced set is closed under ancestors down to `syncFrom`. */
  lemma {:induction false} SyncedAncestors(env: Env, syncFrom: nat, s: State, h: Hash, n: nat)
    requires Inv(env, syncFrom, s) && s.db.tips == []
    requires h in s.chain.headers && IsSynced(s.db, h)
    requires syncFrom <= n <= s.chain.headers[h].number
    ensures IsSynced(s.db, AncestorAt(s.chain.headers, h, n))
    decreases s.chain.headers[h].number
  {
    if s.chain.headers[h].number != n {
      assert ParentAccounted(s, syncFrom, h);
      SyncedAncestors(env, syncFrom, s, s.chain.headers[h].parent, n);
    }
  }

  // What repeated calls can still reach

  ghost function Unsynced(syncFrom: nat, s: State): set<Hash> {
    set h | h in s.chain.headers && s.chain.headers[h].number >= syncFrom && !IsSynced(s.db, h)
  }

  /** Walking from `top` to its parents meets `h`, and no synced block up to there. */
  ghost predicate UnsyncedDown(chain: Chain, db: Db, top: Hash, h: Hash)
    requires ValidChain(chain) && top in chain.headers
    decreases chain.headers[top].number
  {
    && !IsSynced(db, top)
    && (top == h || (chain.headers[top].number > 0 && UnsyncedDown(chain, db, chain.headers[top].parent, h)))
  }

  ghost predicate Starts(s: State, l: Hash) {
    l in s.chain.headers && (l in s.chain.leaves || l in s.db.tips)
  }

  /** Some leaf or tip leads to `h` through unsynced blocks only. */
  ghost predicate Waiting(s: State, h: Hash)
    requires ValidChain(s.chain)
  {
    exists l {:trigger Starts(s, l)} :: Starts(s, l) && UnsyncedDown(s.chain, s.db, l, h)
  }

  /** The unsynced blocks that no leaf or tip leads to. */
  ghost function Lost(syncFrom: nat, s: State): set<Hash>
    requires ValidChain(s.chain)
  {
    set h | h in Unsynced(syncFrom, s) && !Waiting(s, h)
  }

  lemma {:induction false} PathFacts(chain: Chain, db: Db, top: Hash, h: Hash)
    requires ValidChain(chain) && top in chain.headers && UnsyncedDown(chain, db, top, h)
    ensures h in chain.headers && chain.headers[h].number <= chain.headers[top].number && !IsSynced(db, h)
    decreases chain.headers[top].number
  {
    if top != h {
      PathFacts(chain, db, chain.headers[top].parent, h);
    }
  }

  lemma {:induction false} PathTrans(chain: Chain, db: Db, top: Hash, mid: Hash, h: Hash)
    requires ValidChain(chain) && top in chain.headers && mid in chain.headers
    requires UnsyncedDown(chain, db, top, mid) && UnsyncedDown(chain, db, mid, h)
    ensures UnsyncedDown(chain, db, top, h)
    decreases chain.headers[top].number
  {
    if top != mid {
      PathTrans(chain, db, chain.headers[top].parent, mid, h);
    }
  }

  /** `after` has exactly one synced block more. */
  ghost predicate AlsoSynced(before: Db, after: Db, c: Hash) {
    forall x {:trigger IsSynced(after, x)} :: IsSynced(after, x) <==> x == c || IsSynced(before, x)
  }

  lemma {:induction false} PathMono(chain: Chain, before: Db, after: Db, c: Hash, top: Hash, h: Hash)
    requires ValidChain(chain) && top in chain.headers && AlsoSynced(before, after, c)
    requires UnsyncedDown(chain, after, top, h)
    ensures UnsyncedDown(chain, before, top, h)
    decreases chain.headers[top].number
  {
    assert !IsSynced(after, top);
    if top != h {
      PathMono(chain, before, after, c, chain.headers[top].parent, h);
    }
  }

  /** A path that does not pass through `c` stays when `c` is synced. */
  lemma {:induction false} PathKept(chain: Chain, before: Db, after: Db, c: Hash, top: Hash, h: Hash)
    requires ValidChain(chain) && top in chain.headers && AlsoSynced(before, after, c)
    requires UnsyncedDown(chain, before, top, h) && !OnChain(chain.headers, top, c)
    ensures UnsyncedDown(chain, after, top, h)
    decreases chain.headers[top].number
  {
    assert !IsSynced(after, top);
    if top != h {
      PathKept(chain, before, after, c, chain.headers[top].parent, h);
    }
  }

  /** A path on which `c` was synced goes on from the parent of `c`. */
  lemma {:induction false} PathCut(chain: Chain, before: Db, after: Db, c: Hash, top: Hash, h: Hash)
    requires ValidChain(chain) && top in chain.headers && c in chain.headers && AlsoSynced(before, after, c)
    requires UnsyncedDown(chain, before, top, h) && h != c
    ensures || UnsyncedDown(chain, after, top, h)
            || (chain.headers[c].number > 0 && UnsyncedDown(chain, after, chain.headers[c].parent, h))
    decreases chain.headers[top].number
  {
    if top == c {
      PathKept(chain, before, after, c, chain.headers[top].parent, h);
    } else {
      assert !IsSynced(after, top);
      if top != h {
        PathCut(chain, before, after, c, chain.headers[top].parent, h);
      }
    }
  }

  /** While every synced block's parent is accounted for, nothing is lost. */
  lemma {:induction false} NothingLostAt(env: Env, syncFrom: nat, s: State, h: Hash, top: nat)
    requires Inv(env, syncFrom, s) && h in Unsynced(syncFrom, s)
    requires forall x :: x in s.chain.headers ==> s.chain.headers[x].number <= top
    ensures Waiting(s, h)
    decreases top - s.chain.headers[h].number
  {
    if HasChild(s.chain.headers, h) {
      var c :| c in s.chain.headers && s.chain.headers[c].number > 0 && s.chain.headers[c].parent == h;
      if IsSynced(s.db, c) {
        assert ParentAccounted(s, syncFrom, c);
        assert Starts(s, h);
      } else {
        NothingLostAt(env, syncFrom, s, c, top);
        var l :| Starts(s, l) && UnsyncedDown(s.chain, s.db, l, c);
        assert UnsyncedDown(s.chain, s.db, c, h);
        PathTrans(s.chain, s.db, l, c, h);
      }
    } else {
      assert Starts(s, h);
    }
  }

  lemma NothingLost(env: Env, syncFrom: nat, s: State)
    requires Inv(env, syncFrom, s)
    ensures Lost(syncFrom, s) == {}
  {
    var top := HeightBound(s.chain.headers, s.chain.headers.Keys);
    forall h | h in Unsynced(syncFrom, s)
      ensures Waiting(s, h)
    {
      NothingLostAt(env, syncFrom, s, h, top);
    }
  }

  /** What a completed commit does to the walk: the block is synced and its parent becomes a start. */
  ghost predicate Commits(syncFrom: nat, s: State, s': State, c: Hash)
    requires ValidChain(s.chain)
  {
    && s'.chain == s.chain && c in s.chain.headers && AlsoSynced(s.db, s'.db, c)
    && Starts(s, c) && !IsSynced(s.db, c) && s.chain.headers[c].number >= syncFrom
    && (forall l {:trigger Starts(s', l)} ::
          Starts(s', l) ==> Starts(s, l) || (s.chain.headers[c].number > 0 && l == s.chain.headers[c].parent))
    && (s.chain.headers[c].number > 0 ==> Starts(s', s.chain.headers[c].parent))
    && (forall l {:trigger Starts(s', l)} :: Starts(s, l) ==>
          Starts(s', l) || l == c || IsSynced(s.db, l) || s.chain.headers[l].number < syncFrom)
  }

  lemma ScanCommits(syncFrom: nat, s: State, s': State, c: Hash, rest: seq<Hash>)
    requires ValidChain(s.chain) && TipsKnown(s) && s'.chain == s.chain
    requires ScanTips(s.chain, s.db, syncFrom, StartTips(s.chain, s.db)) == Operate(c, rest) && c in s.chain.headers
    requires s'.db.tips == NextTips(s.chain.headers[c], rest) && s'.db.synced == s.db.synced[c := true]
    ensures Commits(syncFrom, s, s', c)
  {
    ScanTipsFacts(s.chain, s.db, syncFrom, StartTips(s.chain, s.db));
    SyncedInsert(s.db, s'.db, c);
    assert forall l :: l in rest ==> l in s'.db.tips;
    assert s.chain.headers[c].number > 0 ==> s'.db.tips[|rest|] == s.chain.headers[c].parent;
  }

  /** A successful call commits a block that could be committed, and pushes its parent. */
  lemma CommitStep(env: Env, syncFrom: nat, s: State, s': State) returns (c: Hash)
    requires TipsKnown(s) && SyncStep(env, syncFrom, Normal, Working, s, s')
    requires StepOf(env, syncFrom, Normal, Working, s).result == Ok(true)
    ensures Commits(syncFrom, s, s', c) && Derived(env, c, s.chain.headers[c]).Ok?
  {
    var scan := ScanTips(s.chain, s.db, syncFrom, StartTips(s.chain, s.db));
    c := scan.block;
    ScanCommits(syncFrom, s, s', c, scan.rest);
  }

  lemma WaitingForward(syncFrom: nat, s: State, s': State, c: Hash, h: Hash)
    requires ValidChain(s.chain) && Commits(syncFrom, s, s', c)
    requires h in Unsynced(syncFrom, s') && Waiting(s, h)
    ensures Waiting(s', h)
  {
    var l :| Starts(s, l) && UnsyncedDown(s.chain, s.db, l, h);
    PathFacts(s.chain, s.db, l, h);
    PathCut(s.chain, s.db, s'.db, c, l, h);
    if UnsyncedDown(s.chain, s'.db, l, h) {
      assert !IsSynced(s'.db, l);
      assert Starts(s', l);
    } else {
      assert Starts(s', s.chain.headers[c].parent);
    }
  }

  lemma WaitingBackward(syncFrom: nat, s: State, s': State, c: Hash, h: Hash)
    requires ValidChain(s.chain) && Commits(syncFrom, s, s', c)
    requires Waiting(s', h)
    ensures Waiting(s, h)
  {
    var l :| Starts(s', l) && UnsyncedDown(s.chain, s'.db, l, h);
    PathMono(s.chain, s.db, s'.db, c, l, h);
    if !Starts(s, l) {
      assert UnsyncedDown(s.chain, s.db, c, h);
    }
  }

  /** A commit reaches a block that was waiting, and neither loses nor recovers any other. */
  lemma CommitLosesNothing(syncFrom: nat, s: State, s': State, c: Hash)
    requires ValidChain(s.chain) && Commits(syncFrom, s, s', c)
    ensures c in Unsynced(syncFrom, s) - Lost(syncFrom, s)
    ensures Unsynced(syncFrom, s') == Unsynced(syncFrom, s) - {c} && Lost(syncFrom, s') == Lost(syncFrom, s)
    ensures Potential(syncFrom, s') < Potential(syncFrom, s)
  {
    CommitKeepsWaiting(syncFrom, s, s', c);
    var before, after := Unsynced(syncFrom, s) - Lost(syncFrom, s), Unsynced(syncFrom, s') - Lost(syncFrom, s');
    assert after == before - {c};
  }

  lemma CommitKeepsWaiting(syncFrom: nat, s: State, s': State, c: Hash)
    requires ValidChain(s.chain) && Commits(syncFrom, s, s', c)
    ensures c in Unsynced(syncFrom, s) - Lost(syncFrom, s)
    ensures Unsynced(syncFrom, s') == Unsynced(syncFrom, s) - {c} && Lost(syncFrom, s') == Lost(syncFrom, s)
  {
    assert UnsyncedDown(s.chain, s.db, c, c);
    assert forall x :: x in Unsynced(syncFrom, s') <==> x in Unsynced(syncFrom, s) && x != c;
    forall h | h in Unsynced(syncFrom, s')
      ensures Waiting(s', h) <==> Waiting(s, h)
    {
      if Waiting(s, h) {
        WaitingForward(syncFrom, s, s', c, h);
      }
      if Waiting(s', h) {
        WaitingBackward(syncFrom, s, s', c, h);
      }
    }
  }

  /** A call that finds nothing to do leaves what it was given, with the tips cleared; only lost blocks were left. */
  lemma IdleStep(env: Env, syncFrom: nat, s: State, s': State)
    requires TipsKnown(s) && SyncStep(env, syncFrom, Normal, Working, s, s')
    requires StepOf(env, syncFrom, Normal, Working, s).result == Ok(false)
    ensures s' == s.(db := s.db.(tips := []))
    ensures Unsynced(syncFrom, s') == Unsynced(syncFrom, s) && Lost(syncFrom, s') == Lost(syncFrom, s)
    ensures s.db.tips == [] ==> Lost(syncFrom, s) == Unsynced(syncFrom, s)
  {
    ScanTipsFacts(s.chain, s.db, syncFrom, StartTips(s.chain, s.db));
    ExhaustedWaiting(syncFrom, s);
  }

  /** With every tip (or, without tips, every leaf) done, the tips lead nowhere. */
  lemma ExhaustedWaiting(syncFrom: nat, s: State)
    requires ValidChain(s.chain)
    requires forall l :: l in StartTips(s.chain, s.db) && l in s.chain.headers ==>
               IsSynced(s.db, l) || s.chain.headers[l].number < syncFrom
    ensures var s' := s.(db := s.db.(tips := []));
            Unsynced(syncFrom, s') == Unsynced(syncFrom, s) && Lost(syncFrom, s') == Lost(syncFrom, s)
    ensures s.db.tips == [] ==> Lost(syncFrom, s) == Unsynced(syncFrom, s)
  {
    var s' := s.(db := s.db.(tips := []));
    assert forall x :: IsSynced(s'.db, x) == IsSynced(s.db, x);
    forall h | h in Unsynced(syncFrom, s)
      ensures Waiting(s', h) <==> Waiting(s, h)
      ensures s.db.tips == [] ==> !Waiting(s, h)
    {
      if l :| Starts(s, l) && UnsyncedDown(s.chain, s.db, l, h) {
        PathFacts(s.chain, s.db, l, h);
        assert !IsSynced(s.db, l);
        assert l !in StartTips(s.chain, s.db);
        SamePath(s.chain, s.db, [], l, h);
        assert Starts(s', l);
      }
      if l :| Starts(s', l) && UnsyncedDown(s.chain, s'.db, l, h) {
        SamePath(s.chain, s.db, [], l, h);
        assert Starts(s, l);
      }
    }
  }

  /** The tips play no part in what is synced. */
  lemma {:induction false} SamePath(chain: Chain, db: Db, tips: seq<Hash>, top: Hash, h: Hash)
    requires ValidChain(chain) && top in chain.headers
    ensures UnsyncedDown(chain, db.(tips := tips), top, h) <==> UnsyncedDown(chain, db, top, h)
    decreases chain.headers[top].number
  {
    if chain.headers[top].number > 0 {
      SamePath(chain, db, tips, chain.headers[top].parent, h);
    }
  }

  // Progress on a fixed chain

  /** Steps still needed at most: a commit and a tips reset per block that is waiting. */
  ghost function Potential(syncFrom: nat, s: State): nat
    requires ValidChain(s.chain)
  {
    2 * |Unsynced(syncFrom, s) - Lost(syncFrom, s)| + if s.db.tips == [] then 0 else 1
  }

  /** Calls in a row under the Normal strategy on one chain; a failing call leaves the state as it is. */
  ghost predicate IsSyncRun(env: Env, syncFrom: nat, run: seq<State>) {
    && |run| > 0
    && Sound(env, syncFrom, run[0])
    && forall i :: 0 <= i < |run| - 1 ==> SyncStep(env, syncFrom, Normal, Working, run[i], run[i + 1])
  }

  lemma FailingStep(env: Env, syncFrom: nat, s: State, s': State)
    requires SyncStep(env, syncFrom, Normal, Working, s, s') && StepOf(env, syncFrom, Normal, Working, s).result.Err?
    ensures s' == s
  {
  }

  /** A call uses up potential, or fails without changing anything, or there is none left; it loses no block. */
  lemma StepProgress(env: Env, syncFrom: nat, s: State, s': State)
    requires Sound(env, syncFrom, s) && SyncStep(env, syncFrom, Normal, Working, s, s')
    ensures Sound(env, syncFrom, s') && s'.chain == s.chain && Lost(syncFrom, s') == Lost(syncFrom, s)
    ensures match StepOf(env, syncFrom, Normal, Working, s).result
            case Ok(true) => Potential(syncFrom, s') < Potential(syncFrom, s)
            case Ok(false) =>
              && Unsynced(syncFrom, s') == Unsynced(syncFrom, s)
              && s'.db.tips == [] && if s.db.tips == [] then s' == s && Potential(syncFrom, s) == 0
                                     else Potential(syncFrom, s') == Potential(syncFrom, s) - 1
            case Err(_) => s' == s
  {
    SoundSync(env, syncFrom, Normal, Working, s, s');
    match StepOf(env, syncFrom, Normal, Working, s).result {
      case Ok(true) =>
        var c := CommitStep(env, syncFrom, s, s');
        CommitLosesNothing(syncFrom, s, s', c);
      case Ok(false) => IdleStep(env, syncFrom, s, s');
      case Err(_) => FailingStep(env, syncFrom, s, s');
    }
  }

  ghost predicate Stuck(env: Env, syncFrom: nat, s: State)
    requires ValidChain(s.chain)
  {
    StepOf(env, syncFrom, Normal, Working, s).result.Err?
  }

  lemma SettlesStep(env: Env, syncFrom: nat, s: State, s': State)
    requires Sound(env, syncFrom, s) && SyncStep(env, syncFrom, Normal, Working, s, s')
    ensures Sound(env, syncFrom, s')
    ensures if Stuck(env, syncFrom, s) then s' == s
            else Potential(syncFrom, s') <= SaturatingSub(Potential(syncFrom, s), 1)
  {
    StepProgress(env, syncFrom, s, s');
  }

  /** A quantity that falls by one a step, unless the steps have stopped, is used up in time. */
  lemma {:induction false} Countdown(left: seq<nat>, stopped: seq<bool>, n: nat)
    requires |left| == |stopped| && n < |left|
    requires forall i :: 0 <= i < |left| - 1 ==>
               if stopped[i] then stopped[i + 1] else left[i + 1] <= SaturatingSub(left[i], 1)
    ensures stopped[n] || left[n] <= SaturatingSub(left[0], n)
  {
    if n > 0 {
      Countdown(left, stopped, n - 1);
      assert if stopped[n - 1] then stopped[n - 1 + 1] else left[n - 1 + 1] <= SaturatingSub(left[n - 1], 1);
    }
  }

  lemma {:induction false} RunStaysSound(env: Env, syncFrom: nat, run: seq<State>, n: nat)
    requires IsSyncRun(env, syncFrom, run) && n < |run|
    ensures Sound(env, syncFrom, run[n])
  {
    if n > 0 {
      RunStaysSound(env, syncFrom, run, n - 1);
      assert SyncStep(env, syncFrom, Normal, Working, run[n - 1], run[n - 1 + 1]);
      SoundSync(env, syncFrom, Normal, Working, run[n - 1], run[n]);
    }
  }

  /** After `Potential` calls the state is final: everything that was waiting is synced, or every call fails. */
  lemma Settles(env: Env, syncFrom: nat, run: seq<State>, n: nat)
    requires IsSyncRun(env, syncFrom, run) && n < |run|
    ensures Sound(env, syncFrom, run[n])
    ensures Stuck(env, syncFrom, run[n]) || Potential(syncFrom, run[n]) <= SaturatingSub(Potential(syncFrom, run[0]), n)
  {
    forall i | 0 <= i < |run|
      ensures Sound(env, syncFrom, run[i])
    {
      RunStaysSound(env, syncFrom, run, i);
    }
    var left := seq(|run|, i requires 0 <= i < |run| => Potential(syncFrom, run[i]));
    var stopped := seq(|run|, i requires 0 <= i < |run| => Stuck(env, syncFrom, run[i]));
    forall i | 0 <= i < |run| - 1
      ensures if stopped[i] then stopped[i + 1] else left[i + 1] <= SaturatingSub(left[i], 1)
    {
      assert SyncStep(env, syncFrom, Normal, Working, run[i], run[i + 1]);
      SettlesStep(env, syncFrom, run[i], run[i + 1]);
    }
    Countdown(left, stopped, n);
  }

  /** The waiting blocks that no call can commit: several logs, a mismatched hash, an unusable genesis API. */
  ghost function Refused(env: Env, syncFrom: nat, s: State): set<Hash>
    requires ValidChain(s.chain)
  {
    set h | h in Unsynced(syncFrom, s) - Lost(syncFrom, s) && Derived(env, h, s.chain.headers[h]).Err?
  }

  lemma RefusedCommit(env: Env, syncFrom: nat, s: State, s': State, c: Hash)
    requires ValidChain(s.chain) && s'.chain == s.chain && Lost(syncFrom, s') == Lost(syncFrom, s)
    requires Unsynced(syncFrom, s') == Unsynced(syncFrom, s) - {c}
    requires c in s.chain.headers && Derived(env, c, s.chain.headers[c]).Ok?
    ensures Refused(env, syncFrom, s') == Refused(env, syncFrom, s)
  {
  }

  lemma RefusedStep(env: Env, syncFrom: nat, s: State, s': State)
    requires Sound(env, syncFrom, s) && SyncStep(env, syncFrom, Normal, Working, s, s')
    ensures s'.chain == s.chain && Refused(env, syncFrom, s') == Refused(env, syncFrom, s)
    ensures Lost(syncFrom, s') == Lost(syncFrom, s)
  {
    StepProgress(env, syncFrom, s, s');
    if StepOf(env, syncFrom, Normal, Working, s).result == Ok(true) {
      var c := CommitStep(env, syncFrom, s, s');
      CommitLosesNothing(syncFrom, s, s', c);
      RefusedCommit(env, syncFrom, s, s', c);
    }
  }

  /** No sequence of calls changes which blocks are refused or lost. */
  lemma {:induction false} RefusedStays(env: Env, syncFrom: nat, run: seq<State>, n: nat)
    requires IsSyncRun(env, syncFrom, run) && n < |run|
    ensures run[n].chain == run[0].chain && Sound(env, syncFrom, run[n])
    ensures Refused(env, syncFrom, run[n]) == Refused(env, syncFrom, run[0])
    ensures Lost(syncFrom, run[n]) == Lost(syncFrom, run[0])
  {
    if n > 0 {
      RefusedStays(env, syncFrom, run, n - 1);
      assert SyncStep(env, syncFrom, Normal, Working, run[n - 1], run[n - 1 + 1]);
      SoundSync(env, syncFrom, Normal, Working, run[n - 1], run[n]);
      RefusedStep(env, syncFrom, run[n - 1], run[n]);
    }
  }

  /** A call fails only on a refused block. */
  lemma StuckMeansRefused(env: Env, syncFrom: nat, s: State)
    requires Sound(env, syncFrom, s) && Stuck(env, syncFrom, s)
    ensures Refused(env, syncFrom, s) != {}
  {
    ScanTipsFacts(s.chain, s.db, syncFrom, StartTips(s.chain, s.db));
    var bad := ScanTips(s.chain, s.db, syncFrom, StartTips(s.chain, s.db)).block;
    assert Starts(s, bad) && UnsyncedDown(s.chain, s.db, bad, bad);
    assert bad in Refused(env, syncFrom, s);
  }

  /**
   * On a fixed chain, from any state that a run can reach, repeated calls end with every block at or above
   * `syncFrom` synced except the lost ones, exactly when no waiting block is refused; otherwise they end in a call
   * that fails for ever. No such call loses a block or recovers one.
   */
  lemma SyncSettles(env: Env, syncFrom: nat, run: seq<State>, n: nat)
    requires IsSyncRun(env, syncFrom, run)
    requires Potential(syncFrom, run[0]) <= n < |run|
    ensures Sound(env, syncFrom, run[n]) && Lost(syncFrom, run[n]) == Lost(syncFrom, run[0])
    ensures Refused(env, syncFrom, run[0]) == {} <==>
            Unsynced(syncFrom, run[n]) == Lost(syncFrom, run[0]) && run[n].db.tips == []
    ensures Refused(env, syncFrom, run[0]) != {} <==> Stuck(env, syncFrom, run[n])
  {
    Settles(env, syncFrom, run, n);
    RefusedStays(env, syncFrom, run, n);
    if Stuck(env, syncFrom, run[n]) {
      StuckMeansRefused(env, syncFrom, run[n]);
    } else {
      assert Unsynced(syncFrom, run[n]) - Lost(syncFrom, run[n]) == {};
    }
  }

  /**
   * If no tips commit ever failed, repeated calls sync every block at or above `syncFrom` exactly when none of them
   * is refused.
   */
  lemma SyncCompletes(env: Env, syncFrom: nat, run: seq<State>, n: nat)
    requires IsSyncRun(env, syncFrom, run) && Inv(env, syncFrom, run[0])
    requires Potential(syncFrom, run[0]) <= n < |run|
    ensures (forall h :: h in Unsynced(syncFrom, run[0]) ==> Derived(env, h, run[0].chain.headers[h]).Ok?) <==>
            Unsynced(syncFrom, run[n]) == {} && run[n].db.tips == []
  {
    NothingLost(env, syncFrom, run[0]);
    SyncSettles(env, syncFrom, run, n);
    if h :| h in Unsynced(syncFrom, run[0]) && Derived(env, h, run[0].chain.headers[h]).Err? {
      assert h in Refused(env, syncFrom, run[0]);
    }
  }

  /**
   * What a failing disk makes of a call, compared with the same call on a working one: a failing block commit leaves
   * everything; a failing tips commit leaves the block without its tips, or the tips that were to be cleared; every
   * other call is the same.
   */
  lemma DiskExact(env: Env, syncFrom: nat, strategy: SyncStrategy, s: State)
    requires ValidChain(s.chain) && TipsKnown(s)
    ensures var works := StepOf(env, syncFrom, strategy, Working, s);
            var block := StepOf(env, syncFrom, strategy, BlockWriteFails, s);
            var tips := StepOf(env, syncFrom, strategy, TipsWriteFails, s);
            if works.committed.Some?
            then && works.result == Ok(true)
                 && block == Step(s.db, Err(WriteFailed), None)
                 && tips == Step(works.db.(tips := s.db.tips), Err(WriteFailed), works.committed)
            else && works.result != Ok(true) && block == works
                 && tips == if works.db != s.db || ClearsNothing(syncFrom, s) then Step(s.db, Err(WriteFailed), None)
                            else works
  {
  }

  /** Tips are saved although there were none: all leaves are done. */
  ghost predicate ClearsNothing(syncFrom: nat, s: State) {
    s.db.tips == [] && s.chain.leaves != [] && ScanTips(s.chain, s.db, syncFrom, s.chain.leaves).Exhausted?
  }

  /**
   * The parachain strategy waits: a call on a block above the best one does nothing at all, not even saving the tips,
   * and no block above the best one is ever committed; the normal strategy never waits.
   */
  lemma ParachainWaits(env: Env, syncFrom: nat, disk: Disk, s: State)
    requires ValidChain(s.chain) && TipsKnown(s)
    ensures var best := s.chain.headers[s.chain.best].number;
            var step := StepOf(env, syncFrom, Parachain, disk, s);
            var scan := ScanTips(s.chain, s.db, syncFrom, StartTips(s.chain, s.db));
            && (step.committed.Some? ==> step.committed.value.block in s.chain.headers &&
                                         (s.chain.headers[step.committed.value.block].number <= best))
            && (scan.Operate? && s.chain.headers[scan.block].number > best ==>
                step.result == Ok(false) && step.db == s.db)
            && ((scan.Operate? ==> s.chain.headers[scan.block].number <= best) ==>
                step == StepOf(env, syncFrom, Normal, disk, s))
  {
    ScanTipsFacts(s.chain, s.db, syncFrom, StartTips(s.chain, s.db));
  }

  // A block commit without its tips commit

  /** Some leaf or tip that does not descend from `c` leads to `h` through unsynced blocks. */
  ghost predicate WaitsElsewhere(s: State, c: Hash, h: Hash)
    requires ValidChain(s.chain)
  {
    exists l {:trigger Starts(s, l)} ::
      Starts(s, l) && UnsyncedDown(s.chain, s.db, l, h) && !OnChain(s.chain.headers, l, c)
  }

  /** What a torn call leaves: the block synced, the starts as they were. */
  ghost predicate Tears(syncFrom: nat, s: State, s': State, c: Hash)
    requires ValidChain(s.chain)
  {
    && s'.chain == s.chain && s'.db.tips == s.db.tips && c in s.chain.headers && AlsoSynced(s.db, s'.db, c)
    && Starts(s, c) && !IsSynced(s.db, c) && s.chain.headers[c].number >= syncFrom
  }

  lemma StepTears(env: Env, syncFrom: nat, strategy: SyncStrategy, s: State, s': State)
    requires TipsKnown(s) && SyncStep(env, syncFrom, strategy, TipsWriteFails, s, s')
    requires StepOf(env, syncFrom, strategy, TipsWriteFails, s).committed.Some?
    ensures Tears(syncFrom, s, s', StepOf(env, syncFrom, strategy, TipsWriteFails, s).committed.value.block)
  {
    ScanTipsFacts(s.chain, s.db, syncFrom, StartTips(s.chain, s.db));
  }

  /** An unsynced path to a lower block passes through every block of the chain in between. */
  lemma {:induction false} PathPasses(chain: Chain, db: Db, top: Hash, c: Hash, h: Hash)
    requires ValidChain(chain) && top in chain.headers && OnChain(chain.headers, top, c)
    requires UnsyncedDown(chain, db, top, h) && h in chain.headers && chain.headers[h].number < chain.headers[c].number
    ensures !IsSynced(db, c)
    decreases chain.headers[top].number
  {
    if top != c {
      PathPasses(chain, db, chain.headers[top].parent, c, h);
    }
  }

  lemma WaitingAfterTear(syncFrom: nat, s: State, s': State, c: Hash, h: Hash)
    requires ValidChain(s.chain) && Tears(syncFrom, s, s', c)
    requires h in s.chain.headers && s.chain.headers[h].number < s.chain.headers[c].number
    ensures Waiting(s', h) <==> WaitsElsewhere(s, c, h)
  {
    if l :| Starts(s', l) && UnsyncedDown(s.chain, s'.db, l, h) {
      PathMono(s.chain, s.db, s'.db, c, l, h);
      if OnChain(s.chain.headers, l, c) {
        PathPasses(s.chain, s'.db, l, c, h);
      }
      assert Starts(s, l);
    }
    if l :| Starts(s, l) && UnsyncedDown(s.chain, s.db, l, h) && !OnChain(s.chain.headers, l, c) {
      PathKept(s.chain, s.db, s'.db, c, l, h);
      assert Starts(s', l);
    }
  }

  /** A block that is not below the torn one is led to as before. */
  lemma WaitingAboveTear(syncFrom: nat, s: State, s': State, c: Hash, h: Hash)
    requires ValidChain(s.chain) && Tears(syncFrom, s, s', c)
    requires h in s.chain.headers && h != c && s.chain.headers[h].number >= s.chain.headers[c].number
    ensures Waiting(s', h) <==> Waiting(s, h)
  {
    if l :| Starts(s, l) && UnsyncedDown(s.chain, s.db, l, h) {
      PathCut(s.chain, s.db, s'.db, c, l, h);
      if !UnsyncedDown(s.chain, s'.db, l, h) {
        PathFacts(s.chain, s'.db, s.chain.headers[c].parent, h);
      }
      assert Starts(s', l);
    }
    if l :| Starts(s', l) && UnsyncedDown(s.chain, s'.db, l, h) {
      PathMono(s.chain, s.db, s'.db, c, l, h);
      assert Starts(s, l);
    }
  }

  /** Which blocks nothing leads to once a call on `c` was torn. */
  ghost predicate LostByTear(syncFrom: nat, s: State, c: Hash, h: Hash)
    requires ValidChain(s.chain) && c in s.chain.headers
  {
    && h in Unsynced(syncFrom, s) && h != c
    && if s.chain.headers[h].number < s.chain.headers[c].number then !WaitsElsewhere(s, c, h)
       else h in Lost(syncFrom, s)
  }

  lemma TearLoses(syncFrom: nat, s: State, s': State, c: Hash, h: Hash)
    requires ValidChain(s.chain) && Tears(syncFrom, s, s', c)
    ensures h in Lost(syncFrom, s') <==> LostByTear(syncFrom, s, c, h)
  {
    SyncedOne(syncFrom, s, s', c);
    if h in Unsynced(syncFrom, s) && h != c {
      if s.chain.headers[h].number < s.chain.headers[c].number {
        WaitingAfterTear(syncFrom, s, s', c, h);
      } else {
        WaitingAboveTear(syncFrom, s, s', c, h);
      }
    }
  }

  /** Nothing that was lost is found again, and if anything more is lost, so is the parent of the torn block. */
  lemma TearLosesParent(syncFrom: nat, s: State, s': State, c: Hash, h: Hash)
    requires ValidChain(s.chain) && Tears(syncFrom, s, s', c)
    ensures h in Lost(syncFrom, s) ==> h in Lost(syncFrom, s')
    ensures h in Lost(syncFrom, s') && h !in Lost(syncFrom, s) ==>
              s.chain.headers[c].number > 0 && s.chain.headers[c].parent in Lost(syncFrom, s') - Lost(syncFrom, s)
  {
    SyncedOne(syncFrom, s, s', c);
    assert UnsyncedDown(s.chain, s.db, c, c);
    if l :| Starts(s', l) && UnsyncedDown(s.chain, s'.db, l, h) {
      PathMono(s.chain, s.db, s'.db, c, l, h);
      assert Starts(s, l);
    }
    if h in Lost(syncFrom, s') && h !in Lost(syncFrom, s) {
      var l :| Starts(s, l) && UnsyncedDown(s.chain, s.db, l, h);
      assert Starts(s', l);
      PathCut(s.chain, s.db, s'.db, c, l, h);
      ParentLost(syncFrom, s, s', c, h);
    }
  }

  lemma ParentLost(syncFrom: nat, s: State, s': State, c: Hash, h: Hash)
    requires ValidChain(s.chain) && Tears(syncFrom, s, s', c) && h in Lost(syncFrom, s')
    requires s.chain.headers[c].number > 0 && UnsyncedDown(s.chain, s'.db, s.chain.headers[c].parent, h)
    ensures s.chain.headers[c].parent in Lost(syncFrom, s') - Lost(syncFrom, s)
  {
    var parent := s.chain.headers[c].parent;
    PathFacts(s.chain, s'.db, parent, h);
    assert !IsSynced(s'.db, parent);
    assert UnsyncedDown(s.chain, s.db, c, parent);
    if m :| Starts(s', m) && UnsyncedDown(s.chain, s'.db, m, parent) {
      PathTrans(s.chain, s'.db, m, parent, h);
    }
  }

  /**
   * What a call cut off between its two commits does, from any state that a run can reach: exactly the blocks that
   * were lost before, and those below the committed block to which no leaf or tip off its branch leads, are lost
   * after it. Any are added exactly when the parent is still to be synced and nothing off the branch leads to it.
   */
  lemma TornCallLoses(env: Env, syncFrom: nat, strategy: SyncStrategy, s: State, s': State)
    requires Sound(env, syncFrom, s) && SyncStep(env, syncFrom, strategy, TipsWriteFails, s, s')
    requires StepOf(env, syncFrom, strategy, TipsWriteFails, s).committed.Some?
    ensures var c := StepOf(env, syncFrom, strategy, TipsWriteFails, s).committed.value.block;
            && Sound(env, syncFrom, s') && s'.chain == s.chain && c in s.chain.headers
            && (forall h {:trigger h in Lost(syncFrom, s')} ::
                  h in Lost(syncFrom, s') <==> LostByTear(syncFrom, s, c, h))
            && Lost(syncFrom, s) <= Lost(syncFrom, s')
            && (Lost(syncFrom, s') != Lost(syncFrom, s) <==> LosesParent(syncFrom, s, c))
            && (LosesParent(syncFrom, s, c) ==> s.chain.headers[c].parent in Lost(syncFrom, s') - Lost(syncFrom, s))
  {
    SoundSync(env, syncFrom, strategy, TipsWriteFails, s, s');
    StepTears(env, syncFrom, strategy, s, s');
    TearExactly(syncFrom, s, s', StepOf(env, syncFrom, strategy, TipsWriteFails, s).committed.value.block);
  }

  /** The parent of `c` is still to be synced, and nothing off the branch of `c` leads to it. */
  ghost predicate LosesParent(syncFrom: nat, s: State, c: Hash)
    requires ValidChain(s.chain) && c in s.chain.headers
  {
    var header := s.chain.headers[c];
    header.number > 0 && header.parent in Unsynced(syncFrom, s) && !WaitsElsewhere(s, c, header.parent)
  }

  lemma TearExactly(syncFrom: nat, s: State, s': State, c: Hash)
    requires ValidChain(s.chain) && Tears(syncFrom, s, s', c)
    ensures forall h {:trigger h in Lost(syncFrom, s')} ::
              h in Lost(syncFrom, s') <==> LostByTear(syncFrom, s, c, h)
    ensures Lost(syncFrom, s) <= Lost(syncFrom, s')
    ensures Lost(syncFrom, s') != Lost(syncFrom, s) <==> LosesParent(syncFrom, s, c)
    ensures LosesParent(syncFrom, s, c) ==> s.chain.headers[c].parent in Lost(syncFrom, s') - Lost(syncFrom, s)
  {
    forall h
      ensures h in Lost(syncFrom, s') <==> LostByTear(syncFrom, s, c, h)
      ensures h in Lost(syncFrom, s) ==> h in Lost(syncFrom, s')
    {
      TearLoses(syncFrom, s, s', c, h);
      TearLosesParent(syncFrom, s, s', c, h);
    }
    var header := s.chain.headers[c];
    if LosesParent(syncFrom, s, c) {
      TearLoses(syncFrom, s, s', c, header.parent);
      assert UnsyncedDown(s.chain, s.db, c, header.parent);
      assert Waiting(s, header.parent);
    }
    if h :| h in Lost(syncFrom, s') && h !in Lost(syncFrom, s) {
      TearLosesParent(syncFrom, s, s', c, h);
      TearLoses(syncFrom, s, s', c, header.parent);
    }
  }

  /** The plain case: on a single branch without tips, a torn call on the leaf loses its unsynced parent. */
  lemma TornLeafLosesItsParent(env: Env, syncFrom: nat, strategy: SyncStrategy, s: State, s': State, leaf: Hash)
    requires Sound(env, syncFrom, s) && SyncStep(env, syncFrom, strategy, TipsWriteFails, s, s')
    requires StepOf(env, syncFrom, strategy, TipsWriteFails, s).committed.Some?
    requires s.chain.leaves == [leaf] && s.db.tips == []
    requires leaf in s.chain.headers && s.chain.headers[leaf].number > syncFrom
    requires !IsSynced(s.db, s.chain.headers[leaf].parent)
    ensures s.chain.headers[leaf].parent in Lost(syncFrom, s') - Lost(syncFrom, s)
  {
    StepTears(env, syncFrom, strategy, s, s');
    LeafLosesItsParent(syncFrom, s, s', StepOf(env, syncFrom, strategy, TipsWriteFails, s).committed.value.block);
  }

  lemma LeafLosesItsParent(syncFrom: nat, s: State, s': State, leaf: Hash)
    requires ValidChain(s.chain) && Tears(syncFrom, s, s', leaf)
    requires |s.chain.leaves| == 1 && s.db.tips == [] && s.chain.headers[leaf].number > syncFrom
    requires !IsSynced(s.db, s.chain.headers[leaf].parent)
    ensures s.chain.headers[leaf].parent in Lost(syncFrom, s') - Lost(syncFrom, s)
  {
    assert forall l :: Starts(s, l) ==> l == leaf;
    TearExactly(syncFrom, s, s', leaf);
  }

  // What imports do to lost blocks

  /** An imported block on an old one from which unsynced blocks lead to `h`. */
  ghost predicate LeadsFromImport(s: State, s': State, n: Hash, h: Hash)
    requires ValidChain(s.chain)
  {
    && n in s'.chain.headers && n !in s.chain.headers
    && s'.chain.headers[n].number > 0 && s'.chain.headers[n].parent in s.chain.headers
    && UnsyncedDown(s.chain, s.db, s'.chain.headers[n].parent, h)
  }

  ghost predicate Recovers(s: State, s': State, h: Hash)
    requires ValidChain(s.chain)
  {
    exists n :: LeadsFromImport(s, s', n, h)
  }

  lemma SyncedIsKnown(env: Env, syncFrom: nat, s: State, x: Hash)
    requires Sound(env, syncFrom, s) && IsSynced(s.db, x)
    ensures x in s.chain.headers
  {
    assert Wrote(s.history, x);
    var i :| 0 <= i < |s.history| && s.history[i].block == x;
    assert Recorded(env, syncFrom, s.chain, s.history[i]);
  }

  lemma ImportedUnsynced(env: Env, syncFrom: nat, s: State, x: Hash)
    requires Sound(env, syncFrom, s) && x !in s.chain.headers
    ensures !IsSynced(s.db, x)
  {
    if IsSynced(s.db, x) {
      SyncedIsKnown(env, syncFrom, s, x);
    }
  }

  /** Paths from old blocks are the same before and after. */
  lemma {:induction false} OldPath(s: State, s': State, top: Hash, h: Hash)
    requires ValidChain(s.chain) && ImportStep(s, s') && top in s.chain.headers
    ensures UnsyncedDown(s'.chain, s'.db, top, h) <==> UnsyncedDown(s.chain, s.db, top, h)
    decreases s.chain.headers[top].number
  {
    if s.chain.headers[top].number > 0 {
      OldPath(s, s', s.chain.headers[top].parent, h);
    }
  }

  /** A path from an imported block to an old one leaves the imported blocks somewhere. */
  lemma {:induction false} PathFromImport(s: State, s': State, top: Hash, h: Hash) returns (n: Hash)
    requires ValidChain(s.chain) && ImportStep(s, s') && h in s.chain.headers
    requires top in s'.chain.headers && top !in s.chain.headers && UnsyncedDown(s'.chain, s'.db, top, h)
    ensures LeadsFromImport(s, s', n, h)
    decreases s'.chain.headers[top].number
  {
    var parent := s'.chain.headers[top].parent;
    if parent in s.chain.headers {
      n := top;
      OldPath(s, s', parent, h);
    } else {
      n := PathFromImport(s, s', parent, h);
    }
  }

  /** From an imported block, or an old leaf, unsynced imported blocks lead up to a leaf. */
  lemma {:induction false} ClimbToLeaf(env: Env, syncFrom: nat, s: State, s': State, x: Hash, top: nat)
    returns (l: Hash)
    requires Sound(env, syncFrom, s) && ImportStep(s, s') && x in s'.chain.headers && !IsSynced(s.db, x)
    requires x !in s.chain.headers || x in s.chain.leaves
    requires forall y :: y in s'.chain.headers ==> s'.chain.headers[y].number <= top
    ensures l in s'.chain.headers && l in s'.chain.leaves && UnsyncedDown(s'.chain, s'.db, l, x)
    decreases top - s'.chain.headers[x].number
  {
    if HasChild(s'.chain.headers, x) {
      var c :| c in s'.chain.headers && s'.chain.headers[c].number > 0 && s'.chain.headers[c].parent == x;
      ImportedChild(s, s', x, c);
      ImportedUnsynced(env, syncFrom, s, c);
      l := ClimbToLeaf(env, syncFrom, s, s', c, top);
      assert UnsyncedDown(s'.chain, s'.db, x, x);
      PathTrans(s'.chain, s'.db, l, c, x);
    } else {
      l := x;
    }
  }

  /** A child of an imported block or of an old leaf is imported. */
  lemma ImportedChild(s: State, s': State, x: Hash, c: Hash)
    requires ValidChain(s.chain) && ImportStep(s, s') && (x !in s.chain.headers || x in s.chain.leaves)
    requires c in s'.chain.headers && s'.chain.headers[c].number > 0 && s'.chain.headers[c].parent == x
    ensures c !in s.chain.headers
  {
    KnownChild(s, s', x, c);
  }

  lemma KnownChild(s: State, s': State, x: Hash, c: Hash)
    requires ValidChain(s.chain) && ImportStep(s, s')
    requires c in s'.chain.headers && s'.chain.headers[c].number > 0 && s'.chain.headers[c].parent == x
    ensures c in s.chain.headers ==> x in s.chain.headers && HasChild(s.chain.headers, x)
  {
    if c in s.chain.headers {
      assert s.chain.headers[c] == s'.chain.headers[c];
    }
  }

  lemma ChildStays(s: State, s': State, x: Hash)
    requires ImportStep(s, s') && HasChild(s.chain.headers, x)
    ensures HasChild(s'.chain.headers, x)
  {
    var c :| c in s.chain.headers && s.chain.headers[c].number > 0 && s.chain.headers[c].parent == x;
    assert s'.chain.headers[c] == s.chain.headers[c];
  }

  lemma WaitingAfterImport(env: Env, syncFrom: nat, s: State, s': State, h: Hash, top: nat)
    requires Sound(env, syncFrom, s) && ImportStep(s, s') && h in s.chain.headers
    requires forall y :: y in s'.chain.headers ==> s'.chain.headers[y].number <= top
    requires Waiting(s, h) || Recovers(s, s', h)
    ensures Waiting(s', h)
  {
    if Waiting(s, h) {
      var l :| Starts(s, l) && UnsyncedDown(s.chain, s.db, l, h);
      OldPath(s, s', l, h);
      if l in s.db.tips {
        assert Starts(s', l);
      } else {
        var m := ClimbToLeaf(env, syncFrom, s, s', l, top);
        PathTrans(s'.chain, s'.db, m, l, h);
        assert Starts(s', m);
      }
    } else {
      var n :| LeadsFromImport(s, s', n, h);
      var parent := s'.chain.headers[n].parent;
      ImportedUnsynced(env, syncFrom, s, n);
      OldPath(s, s', parent, h);
      var m := ClimbToLeaf(env, syncFrom, s, s', n, top);
      assert UnsyncedDown(s'.chain, s'.db, n, h);
      PathTrans(s'.chain, s'.db, m, n, h);
      assert Starts(s', m);
    }
  }

  lemma WaitingBeforeImport(s: State, s': State, h: Hash)
    requires ValidChain(s.chain) && ImportStep(s, s') && h in s.chain.headers && Waiting(s', h)
    ensures Waiting(s, h) || Recovers(s, s', h)
  {
    var l :| Starts(s', l) && UnsyncedDown(s'.chain, s'.db, l, h);
    if l in s.chain.headers {
      OldPath(s, s', l, h);
      if l !in s.db.tips {
        OldLeaf(s, s', l);
      }
      assert Starts(s, l);
    } else {
      var n := PathFromImport(s, s', l, h);
    }
  }

  lemma OldLeaf(s: State, s': State, l: Hash)
    requires ValidChain(s.chain) && ImportStep(s, s') && l in s.chain.headers && l in s'.chain.leaves
    ensures l in s.chain.leaves
  {
    if HasChild(s.chain.headers, l) {
      ChildStays(s, s', l);
    }
  }

  /**
   * Imports lose no block, neither an old nor a new one; of the lost blocks exactly those recover to which unsynced
   * blocks lead from the parent of an imported block.
   */
  lemma ImportsRecover(env: Env, syncFrom: nat, s: State, s': State)
    requires Sound(env, syncFrom, s) && ImportStep(s, s')
    ensures forall h {:trigger h in Lost(syncFrom, s')} ::
              h in Lost(syncFrom, s') <==> h in Lost(syncFrom, s) && !Recovers(s, s', h)
  {
    var top := HeightBound(s'.chain.headers, s'.chain.headers.Keys);
    forall h
      ensures h in Lost(syncFrom, s') <==> h in Lost(syncFrom, s) && !Recovers(s, s', h)
    {
      if h in s.chain.headers {
        if Waiting(s', h) {
          WaitingBeforeImport(s, s', h);
        }
        if Waiting(s, h) || Recovers(s, s', h) {
          WaitingAfterImport(env, syncFrom, s, s', h, top);
        }
      } else if h in s'.chain.headers {
        ImportedUnsynced(env, syncFrom, s, h);
        var l := ClimbToLeaf(env, syncFrom, s, s', h, top);
        assert Starts(s', l);
      }
    }
  }

  // A whole sync_blocks call

  /** `s'` is `s` with at most one commit more, and the report says so unless a tips commit failed. */
  ghost predicate CommitsAsReported(env: Env, syncFrom: nat, disks: seq<Disk>, s: State, step: Step, s': State) {
    && Sound(env, syncFrom, s')
    && (TipsWriteFails !in disks && Inv(env, syncFrom, s) ==> Inv(env, syncFrom, s'))
    && (step.result == Ok(true) ==> step.committed.Some?)
    && (step.committed.Some? ==> step.result == Ok(true) || (step.result.Err? && TipsWriteFails in disks))
    && (if step.committed.Some?
        then step.committed.value.block in Unsynced(syncFrom, s) &&
             Unsynced(syncFrom, s') == Unsynced(syncFrom, s) - {step.committed.value.block}
        else s'.history == s.history && Unsynced(syncFrom, s') == Unsynced(syncFrom, s))
  }

  lemma OneBlockReports(env: Env, syncFrom: nat, strategy: SyncStrategy, disk: Disk, s: State)
    requires Sound(env, syncFrom, s)
    ensures var step := StepOf(env, syncFrom, strategy, disk, s);
            CommitsAsReported(env, syncFrom, [disk], s, step, AfterStep(s, step))
  {
    var step := StepOf(env, syncFrom, strategy, disk, s);
    var s' := AfterStep(s, step);
    SoundSync(env, syncFrom, strategy, disk, s, s');
    if disk != TipsWriteFails && Inv(env, syncFrom, s) {
      InvSync(env, syncFrom, strategy, disk, s, s');
    }
    OneBlockUnsynced(env, syncFrom, strategy, disk, s);
  }

  lemma OneBlockUnsynced(env: Env, syncFrom: nat, strategy: SyncStrategy, disk: Disk, s: State)
    requires ValidChain(s.chain) && TipsKnown(s)
    ensures var step := StepOf(env, syncFrom, strategy, disk, s);
            var s' := AfterStep(s, step);
            if step.committed.Some?
            then step.committed.value.block in Unsynced(syncFrom, s) &&
                 Unsynced(syncFrom, s') == Unsynced(syncFrom, s) - {step.committed.value.block}
            else s'.history == s.history && Unsynced(syncFrom, s') == Unsynced(syncFrom, s)
  {
    var step := StepOf(env, syncFrom, strategy, disk, s);
    OneBlockSyncs(env, syncFrom, strategy, disk, s);
    if step.committed.Some? {
      SyncedInsert(s.db, step.db, step.committed.value.block);
      SyncedOne(syncFrom, s, AfterStep(s, step), step.committed.value.block);
    } else {
      SyncedNone(syncFrom, s, AfterStep(s, step));
    }
  }

  /** A call syncs the block it commits, which was unsynced, and no other. */
  lemma OneBlockSyncs(env: Env, syncFrom: nat, strategy: SyncStrategy, disk: Disk, s: State)
    requires ValidChain(s.chain) && TipsKnown(s)
    ensures var step := StepOf(env, syncFrom, strategy, disk, s);
            match step.committed
            case Some(entry) =>
              && entry.block in s.chain.headers && s.chain.headers[entry.block].number >= syncFrom
              && !IsSynced(s.db, entry.block) && step.db.synced == s.db.synced[entry.block := true]
            case None => step.db.synced == s.db.synced
  {
    ScanTipsFacts(s.chain, s.db, syncFrom, StartTips(s.chain, s.db));
  }

  lemma SyncedInsert(before: Db, after: Db, c: Hash)
    requires after.synced == before.synced[c := true]
    ensures AlsoSynced(before, after, c)
  {
  }

  lemma SyncedNone(syncFrom: nat, s: State, s': State)
    requires s'.chain == s.chain && s'.db.synced == s.db.synced
    ensures Unsynced(syncFrom, s') == Unsynced(syncFrom, s)
  {
    assert forall x :: IsSynced(s'.db, x) <==> IsSynced(s.db, x);
  }

  lemma SyncedOne(syncFrom: nat, s: State, s': State, c: Hash)
    requires s'.chain == s.chain && AlsoSynced(s.db, s'.db, c)
    ensures Unsynced(syncFrom, s') == Unsynced(syncFrom, s) - {c}
  {
    assert forall x :: x in Unsynced(syncFrom, s') <==> x in Unsynced(syncFrom, s) && x != c;
  }

  /**
   * A `sync_blocks` call never commits more than one block, and unless a tips commit failed it returns true exactly
   * when it commits.
   */
  lemma {:induction false} SyncBlocksCommitsAtMostOne(env: Env, syncFrom: nat, strategy: SyncStrategy,
                                                      disks: seq<Disk>, s: State)
    requires Sound(env, syncFrom, s)
    ensures var best := s.chain.headers[s.chain.best].number;
            var step := ManyBlocks(env, s.chain, best, syncFrom, strategy, disks, s.db);
            CommitsAsReported(env, syncFrom, disks, s, step, AfterStep(s, step))
    decreases |disks|
  {
    if disks != [] {
      OneBlockReports(env, syncFrom, strategy, disks[0], s);
      assert disks[0] in disks;
      var one := StepOf(env, syncFrom, strategy, disks[0], s);
      if one.result == Ok(false) {
        var mid := AfterStep(s, one);
        SyncBlocksCommitsAtMostOne(env, syncFrom, strategy, disks[1..], mid);
        ReportsCompose(env, syncFrom, disks, s, mid,
          ManyBlocks(env, s.chain, s.chain.headers[s.chain.best].number, syncFrom, strategy, disks[1..], mid.db));
      }
    }
  }

  /**
   * A `sync_blocks` call does try again: with two attempts on a working disk it reports no progress only if nothing
   * was waiting. An attempt that fails or succeeds is the last one that matters.
   */
  lemma SyncBlocksTriesAgain(env: Env, syncFrom: nat, strategy: SyncStrategy, disks: seq<Disk>, s: State)
    requires Sound(env, syncFrom, s) && |disks| >= 2
    ensures var best := s.chain.headers[s.chain.best].number;
            var step := ManyBlocks(env, s.chain, best, syncFrom, strategy, disks, s.db);
            && (strategy == Normal && disks[0] == disks[1] == Working && step.result == Ok(false) ==>
                Unsynced(syncFrom, s) == Lost(syncFrom, s))
            && (StepOf(env, syncFrom, strategy, disks[0], s).result != Ok(false) ==>
                step == StepOf(env, syncFrom, strategy, disks[0], s))
  {
    var one := StepOf(env, syncFrom, strategy, disks[0], s);
    var mid := AfterStep(s, one);
    var step := ManyBlocks(env, s.chain, s.chain.headers[s.chain.best].number, syncFrom, strategy, disks, s.db);
    if strategy == Normal && disks[0] == disks[1] == Working && step.result == Ok(false) {
      StepProgress(env, syncFrom, s, mid);
      SecondAttempt(env, syncFrom, mid, disks[1..]);
    }
  }

  lemma SecondAttempt(env: Env, syncFrom: nat, s: State, disks: seq<Disk>)
    requires Sound(env, syncFrom, s) && s.db.tips == [] && |disks| > 0 && disks[0] == Working
    requires ManyBlocks(env, s.chain, s.chain.headers[s.chain.best].number, syncFrom, Normal, disks, s.db).result ==
             Ok(false)
    ensures Unsynced(syncFrom, s) == Lost(syncFrom, s)
  {
    var step := StepOf(env, syncFrom, Normal, Working, s);
    if step.result == Ok(false) {
      IdleStep(env, syncFrom, s, AfterStep(s, step));
    }
  }

  /** A report made after an attempt that committed nothing holds from before that attempt. */
  lemma ReportsCompose(env: Env, syncFrom: nat, disks: seq<Disk>, s: State, mid: State, step: Step)
    requires disks != []
    requires mid.chain == s.chain && mid.history == s.history && Unsynced(syncFrom, mid) == Unsynced(syncFrom, s)
    requires disks[0] != TipsWriteFails && Inv(env, syncFrom, s) ==> Inv(env, syncFrom, mid)
    requires CommitsAsReported(env, syncFrom, disks[1..], mid, step, AfterStep(mid, step))
    ensures CommitsAsReported(env, syncFrom, disks, s, step, AfterStep(s, step))
  {
    assert forall d :: d in disks[1..] ==> d in disks;
  }
}
