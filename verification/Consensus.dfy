/** Frontier's digest logs: what a Substrate header says about the Ethereum block it carries. */
module Consensus {
  import opened Basics

  /** The fields of an Ethereum header that the model reads; `rest` stands for all the others. */
  datatype EthHeader = EthHeader(
    parentHash: Hash, number: nat, gasUsed: nat, logsBloom: set<nat>, rest: nat)

  datatype TxKind = Legacy | EIP2930 | EIP1559 | EIP7702

  datatype Transaction = Transaction(kind: TxKind, payload: nat)

  datatype EthBlock = EthBlock(header: EthHeader, transactions: seq<Transaction>)

  /** The Keccak hashes of headers and transactions, as arbitrary functions. */
  datatype Hasher = Hasher(header: EthHeader -> Hash, tx: Transaction -> Hash)

  datatype Hashes = Hashes(blockHash: Hash, transactionHashes: seq<Hash>)

  datatype PreLog = PreBlock(block: EthBlock)

  datatype PostLog = PostHashes(hashes: Hashes) | PostBlock(block: EthBlock) | PostBlockHash(hash: Hash)

  datatype Log = Pre(pre: PreLog) | Post(post: PostLog)

  datatype FindLogError = NotFound | MultipleLogs

  datatype Engine = Frontier | Foreign(id: nat)

  /** A digest item. A payload is `None` when its bytes do not decode to the log type of its kind. */
  datatype DigestItem =
    | PreRuntime(engine: Engine, pre: Option<PreLog>)
    | ConsensusItem(engine: Engine, post: Option<PostLog>)
    | Seal(engine: Engine)
    | Other

  type Digest = seq<DigestItem>

  function FromBlock(hasher: Hasher, block: EthBlock): Hashes {
    Hashes(hasher.header(block.header),
           seq(|block.transactions|, i requires 0 <= i < |block.transactions| => hasher.tx(block.transactions[i])))
  }

  /** `try_to::<PreLog>(PreRuntime(FRONTIER_ENGINE_ID))` */
  function TryPre(item: DigestItem): Option<PreLog> {
    if item.PreRuntime? && item.engine == Frontier then item.pre else None
  }

  /** `try_to::<PostLog>(Consensus(FRONTIER_ENGINE_ID))` */
  function TryPost(item: DigestItem): Option<PostLog> {
    if item.ConsensusItem? && item.engine == Frontier then item.post else None
  }

  /** The logs that `f` reads out of a digest, in digest order. */
  function Select<T>(digest: Digest, f: DigestItem -> Option<T>): seq<T> {
    if digest == [] then []
    else
      var rest := Select(digest[..|digest| - 1], f);
      match f(digest[|digest| - 1])
      case None => rest
      case Some(log) => rest + [log]
  }

  function TryLog(item: DigestItem): Option<Log> {
    match (TryPre(item), TryPost(item))
    case (Some(pre), _) => Some(Pre(pre))
    case (None, Some(post)) => Some(Post(post))
    case (None, None) => None
  }

  function PreLogs(digest: Digest): seq<PreLog> { Select(digest, TryPre) }

  function PostLogs(digest: Digest): seq<PostLog> { Select(digest, TryPost) }

  /** Every frontier log of either kind. */
  function FrontierLogs(digest: Digest): seq<Log> { Select(digest, TryLog) }

  /** The verdict on a list of logs: exactly one is wanted. */
  function OnlyLog<T>(logs: seq<T>): Result<T, FindLogError> {
    if |logs| == 0 then Err(NotFound) else if |logs| == 1 then Ok(logs[0]) else Err(MultipleLogs)
  }

  lemma {:induction false} SelectConcat<T>(a: Digest, b: Digest, f: DigestItem -> Option<T>)
    ensures Select(a + b, f) == Select(a, f) + Select(b, f)
  {
    if b == [] {
      assert a + b == a;
    } else {
      var n := |b| - 1;
      assert (a + b)[..|a + b| - 1] == a + b[..n];
      assert (a + b)[|a + b| - 1] == b[n];
      SelectConcat(a, b[..n], f);
    }
  }

  lemma SelectPrefix<T>(digest: Digest, i: nat, f: DigestItem -> Option<T>)
    requires i < |digest|
    ensures Select(digest[..i + 1], f) ==
            Select(digest[..i], f) + (match f(digest[i]) case None => [] case Some(log) => [log])
  {
    assert digest[..i + 1][..i] == digest[..i];
  }

  lemma SelectGrows<T>(digest: Digest, i: nat, f: DigestItem -> Option<T>)
    requires i <= |digest|
    ensures |Select(digest[..i], f)| <= |Select(digest, f)|
  {
    SelectConcat(digest[..i], digest[i..], f);
    assert digest == digest[..i] + digest[i..];
  }

  /** No item is both kinds of log, so the combined count is the sum of the two. */
  lemma {:induction false} FrontierLogsCount(digest: Digest)
    ensures |FrontierLogs(digest)| == |PreLogs(digest)| + |PostLogs(digest)|
  {
    if digest != [] {
      FrontierLogsCount(digest[..|digest| - 1]);
    }
  }

  /** `hashes` are the block's own hash and those of its transactions, one each, in their order. */
  ghost predicate HashesOf(hasher: Hasher, block: EthBlock, hashes: Hashes) {
    && hashes.blockHash == hasher.header(block.header)
    && |hashes.transactionHashes| == |block.transactions|
    && forall j :: 0 <= j < |block.transactions| ==> hashes.transactionHashes[j] == hasher.tx(block.transactions[j])
  }

  lemma FromBlockInOrder(hasher: Hasher, block: EthBlock, hashes: Hashes)
    ensures HashesOf(hasher, block, hashes) <==> hashes == FromBlock(hasher, block)
  {
  }

  /** The item is this frontier log. */
  predicate IsLog(item: DigestItem, log: Log) {
    match log
    case Pre(pre) => item == PreRuntime(Frontier, Some(pre))
    case Post(post) => item == ConsensusItem(Frontier, Some(post))
  }

  /** The item is some frontier log. */
  predicate IsFrontier(item: DigestItem) {
    || (item.PreRuntime? && item.engine == Frontier && item.pre.Some?)
    || (item.ConsensusItem? && item.engine == Frontier && item.post.Some?)
  }

  /** Item `i` reads as `x`, and no other item reads as anything. */
  ghost predicate OnlyAt<T(!new)>(digest: Digest, f: DigestItem -> Option<T>, x: T, i: nat) {
    i < |digest| && f(digest[i]) == Some(x) && forall j :: 0 <= j < |digest| && j != i ==> f(digest[j]).None?
  }

  lemma {:induction false} SelectNone<T>(digest: Digest, f: DigestItem -> Option<T>)
    ensures Select(digest, f) == [] <==> forall j :: 0 <= j < |digest| ==> f(digest[j]).None?
  {
    if digest != [] {
      var n := |digest| - 1;
      SelectNone(digest[..n], f);
      assert forall j :: 0 <= j < n ==> digest[..n][j] == digest[j];
    }
  }

  lemma {:induction false} SelectOne<T(!new)>(digest: Digest, f: DigestItem -> Option<T>, x: T) returns (i: nat)
    requires Select(digest, f) == [x]
    ensures OnlyAt(digest, f, x, i)
  {
    var n := |digest| - 1;
    var rest := digest[..n];
    assert forall j :: 0 <= j < n ==> rest[j] == digest[j];
    if f(digest[n]).Some? {
      i := n;
      var all := Select(rest, f) + [f(digest[n]).value];
      assert all == [x] && all[|all| - 1] == x;
      SelectNone(rest, f);
    } else {
      i := SelectOne(rest, f, x);
    }
  }

  lemma {:induction false} OneSelected<T(!new)>(digest: Digest, f: DigestItem -> Option<T>, x: T, i: nat)
    requires OnlyAt(digest, f, x, i)
    ensures Select(digest, f) == [x]
  {
    var n := |digest| - 1;
    var rest := digest[..n];
    assert forall j :: 0 <= j < n ==> rest[j] == digest[j];
    if i == n {
      SelectNone(rest, f);
    } else {
      OneSelected(rest, f, x, i);
    }
  }

  /**
   * What "the only frontier log" means on the items themselves: one item of the frontier engine is this log, and no
   * other item is any; items of other engines, of other kinds and undecodable ones do not matter.
   */
  lemma OnlyLogExact(digest: Digest, log: Log)
    ensures OnlyLog(FrontierLogs(digest)) == Ok(log) <==>
            exists i :: 0 <= i < |digest| && IsLog(digest[i], log) &&
                        forall j :: 0 <= j < |digest| && j != i ==> !IsFrontier(digest[j])
    ensures OnlyLog(FrontierLogs(digest)) == Err(NotFound) <==>
            forall j :: 0 <= j < |digest| ==> !IsFrontier(digest[j])
  {
    SelectNone(digest, TryLog);
    if OnlyLog(FrontierLogs(digest)) == Ok(log) {
      var i := SelectOne(digest, TryLog, log);
      assert IsLog(digest[i], log);
    }
    if i :| 0 <= i < |digest| && IsLog(digest[i], log) &&
            forall j :: 0 <= j < |digest| && j != i ==> !IsFrontier(digest[j]) {
      OneSelected(digest, TryLog, log, i);
    }
  }

  predicate IsFrontierPre(item: DigestItem) {
    item.PreRuntime? && item.engine == Frontier && item.pre.Some?
  }

  /** The same for pre logs alone. */
  lemma OnlyPreLogExact(digest: Digest, pre: PreLog)
    ensures OnlyLog(PreLogs(digest)) == Ok(pre) <==>
            exists i :: 0 <= i < |digest| && digest[i] == PreRuntime(Frontier, Some(pre)) &&
                        forall j :: 0 <= j < |digest| && j != i ==> !IsFrontierPre(digest[j])
  {
    if OnlyLog(PreLogs(digest)) == Ok(pre) {
      var i := SelectOne(digest, TryPre, pre);
      assert digest[i] == PreRuntime(Frontier, Some(pre));
    }
    if i :| 0 <= i < |digest| && digest[i] == PreRuntime(Frontier, Some(pre)) &&
            forall j :: 0 <= j < |digest| && j != i ==> !IsFrontierPre(digest[j]) {
      OneSelected(digest, TryPre, pre, i);
    }
  }

  method FindLogWith<T>(digest: Digest, tryTo: DigestItem -> Option<T>) returns (r: Result<T, FindLogError>)
    ensures r == OnlyLog(Select(digest, tryTo))
  {
    var found: Option<T> := None;
    for i := 0 to |digest|
      invariant |Select(digest[..i], tryTo)| <= 1
      invariant found == if |Select(digest[..i], tryTo)| == 0 then None else Some(Select(digest[..i], tryTo)[0])
    {
      SelectPrefix(digest, i, tryTo);
      match tryTo(digest[i]) {
        case None =>
        case Some(log) =>
          if found.Some? {
            SelectGrows(digest, i + 1, tryTo);
            return Err(MultipleLogs);
          }
          found := Some(log);
      }
    }
    assert digest[..|digest|] == digest;
    return if found.Some? then Ok(found.value) else Err(NotFound);
  }

  method FindPreLog(digest: Digest) returns (r: Result<PreLog, FindLogError>)
    ensures r == OnlyLog(PreLogs(digest))
  {
    r := FindLogWith(digest, TryPre);
  }

  method FindPostLog(digest: Digest) returns (r: Result<PostLog, FindLogError>)
    ensures r == OnlyLog(PostLogs(digest))
  {
    r := FindLogWith(digest, TryPost);
  }

  method FindLog(digest: Digest) returns (r: Result<Log, FindLogError>)
    ensures r == OnlyLog(FrontierLogs(digest))
  {
    var found: Option<Log> := None;
    for i := 0 to |digest|
      invariant |FrontierLogs(digest[..i])| <= 1
      invariant found == if |FrontierLogs(digest[..i])| == 0 then None else Some(FrontierLogs(digest[..i])[0])
    {
      SelectPrefix(digest, i, TryLog);
      SelectGrows(digest, i + 1, TryLog);
      var pre := TryPre(digest[i]);
      if pre.Some? && found.Some? {
        return Err(MultipleLogs);
      } else if pre.Some? {
        found := Some(Pre(pre.value));
      }
      var post := TryPost(digest[i]);
      if post.Some? && found.Some? {
        return Err(MultipleLogs);
      } else if post.Some? {
        found := Some(Post(post.value));
      }
    }
    assert digest[..|digest|] == digest;
    return if found.Some? then Ok(found.value) else Err(NotFound);
  }

  /** `ensure_log`: import accepts a header exactly when its digest has one frontier log. */
  method EnsureLog(digest: Digest) returns (r: Result<(), FindLogError>)
    ensures r.Ok? <==> |FrontierLogs(digest)| == 1
    ensures r.Err? ==> (r.error == NotFound <==> FrontierLogs(digest) == [])
  {
    var log := FindLog(digest);
    r := match log case Ok(_) => Ok(()) case Err(e) => Err(e);
  }
}
