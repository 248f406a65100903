/** The log query over the SQL index, and why its answer is a plain scan of the canonical receipts. */
module SqlQuery {
  import opened Basics
  import opened BloomFilter
  import opened Blooms
  import opened HeaderTree
  import opened SqlIndex
  import opened TopicFilter

  const MAX_TOPIC_COUNT: nat := 4
  const ROW_LIMIT: nat := 10001

  /** What `build_query` binds; an empty address list or topic set constrains nothing. */
  datatype Query = Query(from: int, to: int, addresses: seq<Hash>, topics: seq<set<Hash>>)

  /** One row of `logs` joined with one row of `blocks`: the columns name both keys. */
  datatype JoinRow = JoinRow(block: Hash, eth: Hash, number: int, tx: int, log: int)

  // From a flattened filter to the query

  /** The non-null topics that any combination has at position `j`. */
  function ColumnOf(cs: seq<Combination>, j: nat): set<Hash> {
    if |cs| == 0 then {}
    else
      var last := cs[|cs| - 1];
      ColumnOf(cs[..|cs| - 1], j) + if j < |last| && last[j].Some? then {last[j].value} else {}
  }

  /** The first loop of `filter_logs`; a combination with a fifth position is refused. */
  method UniqueTopics(cs: seq<Combination>) returns (r: Option<seq<set<Hash>>>)
    ensures r.None? <==> exists i :: 0 <= i < |cs| && |cs[i]| > 4
    ensures r.Some? ==> |r.value| == 4 && forall j :: 0 <= j < 4 ==> r.value[j] == ColumnOf(cs, j)
  {
    var unique: seq<set<Hash>> := [{}, {}, {}, {}];
    for i := 0 to |cs|
      invariant forall k :: 0 <= k < i ==> |cs[k]| <= MAX_TOPIC_COUNT
      invariant |unique| == 4 && forall j :: 0 <= j < 4 ==> unique[j] == ColumnOf(cs[..i], j)
    {
      var c := cs[i];
      assert cs[..i + 1][..i] == cs[..i];
      for j := 0 to |c|
        invariant j <= MAX_TOPIC_COUNT
        invariant |unique| == 4
        invariant forall k :: 0 <= k < 4 ==>
          unique[k] == ColumnOf(cs[..i], k) + if k < j && c[k].Some? then {c[k].value} else {}
      {
        if j == MAX_TOPIC_COUNT {
          return None;
        }
        if c[j].Some? {
          unique := unique[j := unique[j] + {c[j].value}];
        }
      }
    }
    assert cs[..|cs|] == cs;
    return Some(unique);
  }

  predicate TopicsMatch(columns: seq<set<Hash>>, topics: seq<Option<Hash>>)
    requires |columns| == 4 && |topics| == 4
  {
    forall j :: 0 <= j < 4 ==> columns[j] == {} || (topics[j].Some? && topics[j].value in columns[j])
  }

  function ColumnsOf(cs: seq<Combination>): (r: seq<set<Hash>>)
    ensures |r| == 4 && forall j :: 0 <= j < 4 ==> r[j] == ColumnOf(cs, j)
  {
    seq(4, j requires 0 <= j < 4 => ColumnOf(cs, j))
  }

  lemma {:induction false} ColumnOfMember(cs: seq<Combination>, j: nat, t: Hash)
    ensures t in ColumnOf(cs, j) <==> exists i :: 0 <= i < |cs| && j < |cs[i]| && cs[i][j] == Some(t)
  {
    if |cs| > 0 {
      var n := |cs| - 1;
      ColumnOfMember(cs[..n], j, t);
      assert forall i :: 0 <= i < n ==> cs[..n][i] == cs[i];
    }
  }

  /** Expanding and projecting back recovers each position's topics: the product loses nothing, if no list is empty. */
  lemma ProjectedProduct(lists: seq<Alternatives>, j: nat, t: Hash)
    requires NonEmptyLists(lists)
    ensures t in ColumnOf(Product(lists), j) <==> j < |lists| && Some(t) in lists[j]
  {
    var cs := Product(lists);
    ColumnOfMember(cs, j, t);
    if t in ColumnOf(cs, j) {
      var i :| 0 <= i < |cs| && j < |cs[i]| && cs[i][j] == Some(t);
      ProductMember(lists, cs[i]);
    }
    if j < |lists| && Some(t) in lists[j] {
      var c := Heads(lists)[j := Some(t)];
      forall i | 0 <= i < |lists|
        ensures c[i] in lists[i]
      {
        assert lists[i][0] in lists[i];
      }
      ProductMember(lists, c);
      var i :| 0 <= i < |cs| && cs[i] == c;
    }
  }

  /** Every position a wildcard or a non-empty list without wildcards. */
  predicate Plain(lists: seq<Alternatives>) {
    NonEmptyLists(lists) && forall i :: 0 <= i < |lists| ==> Wild(lists[i]) || None !in lists[i]
  }

  lemma FreshHash(s: set<Hash>) returns (x: Hash)
    ensures x !in s
  {
    x := UpperBound(s);
  }

  lemma {:induction false} UpperBound(s: set<Hash>) returns (x: Hash)
    ensures forall y :: y in s ==> y < x
  {
    if s == {} {
      x := 0;
    } else {
      var z :| z in s;
      var b := UpperBound(s - {z});
      x := Max(b, z + 1);
      assert forall y :: y in s ==> y == z || y in s - {z};
    }
  }

  lemma PlainColumnsAgree(lists: seq<Alternatives>, columns: seq<set<Hash>>, topics: seq<Hash>)
    requires |lists| <= 4 && |columns| == 4 && Plain(lists)
    requires forall j, t: Hash {:trigger t in columns[j]} :: 0 <= j < 4 ==>
               (t in columns[j] <==> j < |lists| && Some(t) in lists[j])
    ensures TopicsMatch(columns, Columns(topics)) <==> Accepts(lists, topics)
  {
    forall j | 0 <= j < 4
      ensures columns[j] == {} <==> j >= |lists| || Wild(lists[j])
      ensures j < |lists| && Wild(lists[j]) ==> None in lists[j]
    {
      if j < |lists| {
        assert lists[j][0] in lists[j];
        if !Wild(lists[j]) {
          var x :| x in lists[j] && x != None;
          assert x.value in columns[j];
        } else {
          assert forall t: Hash :: t !in columns[j];
        }
      } else {
        assert forall t: Hash :: t !in columns[j];
      }
    }
  }

  /** A list with a wildcard among its topics is queried as if the wildcard were not there. */
  lemma MixedColumnFails(lists: seq<Alternatives>, p: nat) returns (topics: seq<Hash>)
    requires p < |lists| <= 4 && NonEmptyLists(lists) && None in lists[p] && !Wild(lists[p])
    ensures !TopicsMatch(ColumnsOf(Product(lists)), Columns(topics)) && Accepts(lists, topics)
  {
    var columns := ColumnsOf(Product(lists));
    var unseen := FreshHash(columns[p]);
    var base := AcceptedTopics(lists, |lists|);
    topics := base[p := unseen];
    assert Accepts(lists, topics) by {
      assert forall i :: 0 <= i < |lists| && i != p ==> topics[i] == base[i];
    }
    var x :| x in lists[p] && x != None;
    ProjectedProduct(lists, p, x.value);
    assert Columns(topics)[p] == Some(unseen);
  }

  /** The query's topic test means what the filter means exactly for plain filters (or no positions at all). */
  lemma SqlTopicsExact(lists: seq<Alternatives>)
    requires |lists| <= 4
    ensures (forall topics :: TopicsMatch(ColumnsOf(Product(lists)), Columns(topics)) == Accepts(lists, topics))
            <==> Plain(lists)
  {
    var columns := ColumnsOf(Product(lists));
    if Plain(lists) {
      forall j, t: Hash | 0 <= j < 4
        ensures t in columns[j] <==> j < |lists| && Some(t) in lists[j]
      {
        ProjectedProduct(lists, j, t);
      }
      forall topics
        ensures TopicsMatch(columns, Columns(topics)) == Accepts(lists, topics)
      {
        PlainColumnsAgree(lists, columns, topics);
      }
    } else if i :| 0 <= i < |lists| && |lists[i]| == 0 {
      EmptyListEmptiesProduct(lists, i);
      assert TopicsMatch(columns, Columns([])) && !Accepts(lists, []);
    } else {
      var p :| 0 <= p < |lists| && !Wild(lists[p]) && None in lists[p];
      var topics := MixedColumnFails(lists, p);
      assert TopicsMatch(columns, Columns(topics)) != Accepts(lists, topics);
    }
  }

  // The query and its answers

  predicate RowMatches(q: Query, row: LogRow)
    requires |q.topics| == 4 && |row.topics| == 4
  {
    (q.addresses == [] || row.address in q.addresses) && TopicsMatch(q.topics, row.topics)
  }

  /** A joined row that satisfies ON and WHERE. */
  ghost predicate Joined(db: Tables, q: Query, r: JoinRow)
    requires |q.topics| == 4
  {
    var blockKey, logKey := BlockKey(r.eth, r.block), LogKey(r.log, r.tx, r.block);
    && blockKey in db.blocks && db.blocks[blockKey] == BlockRow(r.number, true)
    && q.from <= r.number <= q.to
    && logKey in db.logs && |db.logs[logKey].topics| == 4 && RowMatches(q, db.logs[logKey])
  }

  /** ORDER BY block_number, transaction_index, log_index. */
  predicate Before(a: JoinRow, b: JoinRow) {
    || a.number < b.number
    || (a.number == b.number && (a.tx < b.tx || (a.tx == b.tx && a.log < b.log)))
  }

  predicate Ordered(rows: seq<JoinRow>) {
    forall i, j :: 0 <= i < j < |rows| ==> !Before(rows[j], rows[i])
  }

  function Limited(rows: seq<JoinRow>): seq<JoinRow> {
    if |rows| <= ROW_LIMIT then rows else rows[..ROW_LIMIT]
  }

  /** Any list of rows that the database may return: some ordering of the joined rows, cut at the limit. */
  ghost predicate IsAnswer(db: Tables, q: Query, out: seq<JoinRow>)
    requires |q.topics| == 4
  {
    exists rows: seq<JoinRow> ::
      && Distinct(rows) && Ordered(rows)
      && (forall r {:trigger r in rows} :: r in rows <==> Joined(db, q, r))
      && out == Limited(rows)
  }

  // The scan

  function EthHashOf(env: Env, chain: Chain, h: Hash): Hash
    requires h in chain.headers
  {
    var hashes := MetadataHashes(env, h, chain.headers[h]);
    if hashes.Some? then hashes.value.blockHash else 0
  }

  /** The kept logs among the first `n` of a receipt. */
  function ReceiptScan(keep: EthLog -> bool, h: Hash, e: Hash, number: nat, tx: nat, receipt: seq<EthLog>, n: nat)
    : seq<JoinRow>
    requires n <= |receipt|
  {
    if n == 0 then []
    else ReceiptScan(keep, h, e, number, tx, receipt, n - 1) +
         if keep(receipt[n - 1]) then [JoinRow(h, e, number, tx, n - 1)] else []
  }

  /** The kept logs of the first `n` receipts of a block. */
  function BlockScan(keep: EthLog -> bool, h: Hash, e: Hash, number: nat, receipts: seq<seq<EthLog>>, n: nat)
    : seq<JoinRow>
    requires n <= |receipts|
  {
    if n == 0 then []
    else BlockScan(keep, h, e, number, receipts, n - 1) +
         ReceiptScan(keep, h, e, number, n - 1, receipts[n - 1], |receipts[n - 1]|)
  }

  /** The kept logs of the canonical block at one height, if `included` has that block. */
  function HeightScan(env: Env, chain: Chain, keep: EthLog -> bool, included: Hash -> bool, n: nat): seq<JoinRow>
    requires ValidChain(chain)
  {
    match CanonicalHash(chain, n)
    case None => []
    case Some(h) =>
      if included(h)
      then BlockScan(keep, h, EthHashOf(env, chain, h), n, Receipts(env, h), |Receipts(env, h)|) else []
  }

  /** The rows at the heights from `lo` up to but excluding `hi`, in order. */
  function Concat(rowsAt: nat -> seq<JoinRow>, lo: nat, hi: nat): seq<JoinRow>
    decreases hi
  {
    if hi <= lo then [] else Concat(rowsAt, lo, hi - 1) + rowsAt(hi - 1)
  }

  function HeightsOf(env: Env, chain: Chain, keep: EthLog -> bool, included: Hash -> bool): nat -> seq<JoinRow>
    requires ValidChain(chain)
  {
    (n: nat) => HeightScan(env, chain, keep, included, n)
  }

  /** A plain scan of the best chain from height `lo` up to but excluding `hi`. */
  function ChainScan(env: Env, chain: Chain, keep: EthLog -> bool, included: Hash -> bool, lo: nat, hi: nat)
    : seq<JoinRow>
    requires ValidChain(chain)
  {
    Concat(HeightsOf(env, chain, keep, included), lo, hi)
  }

  predicate Strict(rows: seq<JoinRow>) {
    forall i, j :: 0 <= i < j < |rows| ==> Before(rows[i], rows[j])
  }

  lemma StrictConcat(a: seq<JoinRow>, b: seq<JoinRow>)
    requires Strict(a) && Strict(b)
    requires forall x, y :: x in a && y in b ==> Before(x, y)
    ensures Strict(a + b)
  {
  }

  lemma {:induction false} ReceiptScanExact(keep: EthLog -> bool, h: Hash, e: Hash, number: nat, tx: nat,
                                            receipt: seq<EthLog>, n: nat)
    requires n <= |receipt|
    ensures var rows := ReceiptScan(keep, h, e, number, tx, receipt, n);
            && Strict(rows)
            && forall r :: r in rows <==>
                 && r.block == h && r.eth == e && r.number == number && r.tx == tx
                 && 0 <= r.log < n && keep(receipt[r.log])
  {
    if n > 0 {
      ReceiptScanExact(keep, h, e, number, tx, receipt, n - 1);
      var last := if keep(receipt[n - 1]) then [JoinRow(h, e, number, tx, n - 1)] else [];
      StrictConcat(ReceiptScan(keep, h, e, number, tx, receipt, n - 1), last);
    }
  }

  lemma {:induction false} BlockScanExact(keep: EthLog -> bool, h: Hash, e: Hash, number: nat,
                                          receipts: seq<seq<EthLog>>, n: nat)
    requires n <= |receipts|
    ensures var rows := BlockScan(keep, h, e, number, receipts, n);
            && Strict(rows)
            && forall r :: r in rows <==>
                 && r.block == h && r.eth == e && r.number == number && 0 <= r.tx < n
                 && 0 <= r.log < |receipts[r.tx]| && keep(receipts[r.tx][r.log])
  {
    if n > 0 {
      BlockScanExact(keep, h, e, number, receipts, n - 1);
      ReceiptScanExact(keep, h, e, number, n - 1, receipts[n - 1], |receipts[n - 1]|);
      StrictConcat(BlockScan(keep, h, e, number, receipts, n - 1),
                   ReceiptScan(keep, h, e, number, n - 1, receipts[n - 1], |receipts[n - 1]|));
    }
  }

  /** The row is a kept log of an included canonical block. */
  ghost predicate Scanned(env: Env, chain: Chain, keep: EthLog -> bool, included: Hash -> bool, r: JoinRow)
    requires ValidChain(chain)
  {
    && r.number >= 0 && CanonicalHash(chain, r.number) == Some(r.block)
    && included(r.block) && r.eth == EthHashOf(env, chain, r.block)
    && 0 <= r.tx < |Receipts(env, r.block)| && 0 <= r.log < |Receipts(env, r.block)[r.tx]|
    && keep(Receipts(env, r.block)[r.tx][r.log])
  }

  lemma HeightScanExact(env: Env, chain: Chain, keep: EthLog -> bool, included: Hash -> bool, n: nat)
    requires ValidChain(chain)
    ensures var rows := HeightScan(env, chain, keep, included, n);
            && Strict(rows)
            && forall r :: r in rows <==> r.number == n && Scanned(env, chain, keep, included, r)
  {
    var found := CanonicalHash(chain, n);
    if found.Some? {
      var h := found.value;
      BlockScanExact(keep, h, EthHashOf(env, chain, h), n, Receipts(env, h), |Receipts(env, h)|);
    }
  }

  predicate AllBelow(rows: seq<JoinRow>, n: nat) {
    forall i :: 0 <= i < |rows| ==> rows[i].number < n
  }

  predicate AllAt(rows: seq<JoinRow>, n: nat) {
    forall i :: 0 <= i < |rows| ==> rows[i].number == n
  }

  lemma HeightScanStrict(env: Env, chain: Chain, keep: EthLog -> bool, included: Hash -> bool, n: nat)
    requires ValidChain(chain)
    ensures Strict(HeightScan(env, chain, keep, included, n)) && AllAt(HeightScan(env, chain, keep, included, n), n)
  {
    HeightScanExact(env, chain, keep, included, n);
    var rows := HeightScan(env, chain, keep, included, n);
    assert forall i :: 0 <= i < |rows| ==> rows[i] in rows;
  }

  lemma StrictAbove(below: seq<JoinRow>, rows: seq<JoinRow>, n: nat)
    requires Strict(below) && AllBelow(below, n) && Strict(rows) && AllAt(rows, n)
    ensures Strict(below + rows) && AllBelow(below + rows, n + 1)
  {
  }

  /** Every height's rows are in order, and at that height. */
  ghost predicate InOrder(rowsAt: nat -> seq<JoinRow>) {
    forall n: nat :: Strict(rowsAt(n)) && AllAt(rowsAt(n), n)
  }

  lemma {:induction false} ConcatStrict(rowsAt: nat -> seq<JoinRow>, lo: nat, hi: nat)
    requires InOrder(rowsAt)
    ensures Strict(Concat(rowsAt, lo, hi)) && AllBelow(Concat(rowsAt, lo, hi), hi)
    decreases hi
  {
    if hi > lo {
      ConcatStrict(rowsAt, lo, hi - 1);
      StrictAbove(Concat(rowsAt, lo, hi - 1), rowsAt(hi - 1), hi - 1);
    }
  }

  lemma {:induction false} ConcatMember(rowsAt: nat -> seq<JoinRow>, lo: nat, hi: nat, r: JoinRow)
    requires InOrder(rowsAt)
    ensures r in Concat(rowsAt, lo, hi) <==> lo <= r.number < hi && r in rowsAt(r.number)
    decreases hi
  {
    if hi > lo {
      ConcatMember(rowsAt, lo, hi - 1, r);
      MemberAt(rowsAt(hi - 1), hi - 1, r);
    }
  }

  lemma MemberAt(rows: seq<JoinRow>, n: nat, r: JoinRow)
    requires AllAt(rows, n)
    ensures r in rows ==> r.number == n
  {
  }

  /** The scan lists exactly the kept logs of the range, strictly in (block, transaction, log) order. */
  lemma ChainScanExact(env: Env, chain: Chain, keep: EthLog -> bool, included: Hash -> bool, lo: nat, hi: nat)
    requires ValidChain(chain)
    ensures var rows := ChainScan(env, chain, keep, included, lo, hi);
            && Strict(rows)
            && forall r :: r in rows <==> lo <= r.number < hi && Scanned(env, chain, keep, included, r)
  {
    var rowsAt := HeightsOf(env, chain, keep, included);
    forall n: nat
      ensures Strict(rowsAt(n)) && AllAt(rowsAt(n), n)
    {
      HeightScanStrict(env, chain, keep, included, n);
    }
    ConcatStrict(rowsAt, lo, hi);
    forall r
      ensures r in Concat(rowsAt, lo, hi) <==> lo <= r.number < hi && Scanned(env, chain, keep, included, r)
    {
      ConcatMember(rowsAt, lo, hi, r);
      if r.number >= 0 {
        HeightScanExact(env, chain, keep, included, r.number);
      }
    }
  }

  /** A strictly ordered list is determined by its elements. */
  lemma {:induction false} StrictUnique(a: seq<JoinRow>, b: seq<JoinRow>)
    requires Strict(a) && Strict(b) && forall r :: r in a <==> r in b
    ensures a == b
    decreases |a|
  {
    HasElement(a);
    HasElement(b);
    if |a| > 0 {
      var m := |a| - 1;
      assert a[m] in b;
      var n := |b| - 1;
      assert b[n] in a;
      assert a[m] == b[n];
      forall r
        ensures r in a[..m] <==> r in b[..n]
      {
        InitMember(a, r);
        InitMember(b, r);
      }
      StrictUnique(a[..m], b[..n]);
      assert a == a[..m] + [a[m]] && b == b[..n] + [b[n]];
    }
  }

  lemma HasElement(rows: seq<JoinRow>)
    ensures |rows| > 0 <==> exists r :: r in rows
  {
    if |rows| > 0 {
      assert rows[0] in rows;
    }
  }

  lemma InitMember(a: seq<JoinRow>, r: JoinRow)
    requires Strict(a) && |a| > 0
    ensures r in a[..|a| - 1] <==> r in a && r != a[|a| - 1]
  {
    var m := |a| - 1;
    assert a == a[..m] + [a[m]];
    if r in a[..m] {
      var i :| 0 <= i < m && a[..m][i] == r;
      assert Before(a[i], a[m]);
    }
  }

  lemma StrictIsOrderedDistinct(rows: seq<JoinRow>)
    requires Strict(rows)
    ensures Ordered(rows) && Distinct(rows)
  {
    forall i, j | 0 <= i < j < |rows|
      ensures rows[i] != rows[j] && !Before(rows[j], rows[i])
    {
      assert Before(rows[i], rows[j]);
    }
  }

  // The answer is the scan

  /** Every reported route has been applied. */
  ghost predicate Ready(env: Env, s: State) {
    Inv(env, s) && |s.heads| == 1
  }

  /** Heights from here on are stored as negative numbers, so no range reaches them. */
  const FIRST_UNSEEN: nat := 0x8000_0000

  lemma NumberColumnFaithful(n: nat)
    ensures NumberColumn(n) == n <==> n < FIRST_UNSEEN
    ensures NumberColumn(n) >= 0 <==> n < FIRST_UNSEEN
  {
  }

  lemma {:induction false} CanonicalBelowBest(chain: Chain, h: Hash)
    requires ValidChain(chain) && h in chain.headers
    ensures OnBestChain(chain, h) <==> CanonicalHash(chain, chain.headers[h].number) == Some(h)
  {
  }

  predicate InRange(q: Query, number: int) {
    q.from <= number <= q.to && number < FIRST_UNSEEN
  }

  /** The end of the heights that a query up to `to` can see. */
  function Horizon(to: nat): nat {
    Min(to + 1, FIRST_UNSEEN)
  }

  lemma JoinedMeansScanned(env: Env, s: State, q: Query, keep: EthLog -> bool, included: Hash -> bool, r: JoinRow)
    requires Ready(env, s) && |q.topics| == 4 && 0 <= q.from
    requires forall log :: keep(log) == RowMatches(q, RowOf(log))
    requires forall h :: included(h) == (h in s.db.status && s.db.status[h] == 1)
    requires Joined(s.db, q, r)
    ensures InRange(q, r.number) && Scanned(env, s.chain, keep, included, r)
  {
    var blockKey := BlockKey(r.eth, r.block);
    assert RowKnown(env, s, blockKey);
    FlagsMatchBestChain(env, s, blockKey);
    CanonicalBelowBest(s.chain, r.block);
    NumberColumnFaithful(s.chain.headers[r.block].number);
  }

  lemma ScannedMeansJoined(env: Env, s: State, q: Query, keep: EthLog -> bool, included: Hash -> bool, r: JoinRow)
    requires Ready(env, s) && |q.topics| == 4 && 0 <= q.from
    requires forall log :: keep(log) == RowMatches(q, RowOf(log))
    requires forall h :: included(h) == (h in s.db.status && s.db.status[h] == 1)
    requires InRange(q, r.number) && Scanned(env, s.chain, keep, included, r)
    ensures Joined(s.db, q, r)
  {
    var blockKey := BlockKey(r.eth, r.block);
    assert r.block in s.db.status;
    assert RowKnown(env, s, blockKey);
    FlagsMatchBestChain(env, s, blockKey);
    CanonicalBelowBest(s.chain, r.block);
    NumberColumnFaithful(s.chain.headers[r.block].number);
    assert LogKey(r.log, r.tx, r.block) in s.db.logs;
  }

  /** A joined row is a kept log of a log-indexed canonical block in range, and conversely. */
  lemma JoinedIsScanned(env: Env, s: State, q: Query, keep: EthLog -> bool, included: Hash -> bool, r: JoinRow)
    requires Ready(env, s) && |q.topics| == 4 && 0 <= q.from
    requires forall log :: keep(log) == RowMatches(q, RowOf(log))
    requires forall h :: included(h) == (h in s.db.status && s.db.status[h] == 1)
    ensures Joined(s.db, q, r) <==> InRange(q, r.number) && Scanned(env, s.chain, keep, included, r)
  {
    if Joined(s.db, q, r) {
      JoinedMeansScanned(env, s, q, keep, included, r);
    } else if InRange(q, r.number) && Scanned(env, s.chain, keep, included, r) {
      ScannedMeansJoined(env, s, q, keep, included, r);
    }
  }

  /** Rows with the same sort key are the same row, so any ordering the database picks is strict. */
  lemma AnswerIsStrict(env: Env, s: State, q: Query, keep: EthLog -> bool, included: Hash -> bool, rows: seq<JoinRow>)
    requires Ready(env, s) && |q.topics| == 4 && 0 <= q.from
    requires forall log :: keep(log) == RowMatches(q, RowOf(log))
    requires forall h :: included(h) == (h in s.db.status && s.db.status[h] == 1)
    requires Distinct(rows) && Ordered(rows) && forall r :: r in rows ==> Joined(s.db, q, r)
    ensures Strict(rows)
  {
    forall i, j | 0 <= i < j < |rows|
      ensures Before(rows[i], rows[j])
    {
      var a, b := rows[i], rows[j];
      assert a in rows && b in rows;
      JoinedIsScanned(env, s, q, keep, included, a);
      JoinedIsScanned(env, s, q, keep, included, b);
    }
  }

  /**
   * Whatever was interleaved before: the database's answer is exactly the first 10001 rows of a scan of the
   * canonical, log-indexed blocks in range and below 2^31, in order and without duplicates.
   */
  lemma IndexedQueryIsScan(env: Env, s: State, q: Query, keep: EthLog -> bool, included: Hash -> bool,
                           out: seq<JoinRow>)
    requires Ready(env, s) && |q.topics| == 4 && 0 <= q.from && 0 <= q.to
    requires forall log :: keep(log) == RowMatches(q, RowOf(log))
    requires forall h :: included(h) == (h in s.db.status && s.db.status[h] == 1)
    ensures var scan := ChainScan(env, s.chain, keep, included, q.from, Horizon(q.to));
            IsAnswer(s.db, q, out) <==> out == scan[..Min(|scan|, 10001)]
  {
    var scan := ChainScan(env, s.chain, keep, included, q.from, Horizon(q.to));
    ScanIsJoined(env, s, q, keep, included, scan);
    LimitedExact(scan);
    if IsAnswer(s.db, q, out) {
      AnswerIsScan(env, s, q, keep, included, scan, out);
    }
    ScanIsAnswer(s.db, q, scan);
  }

  lemma LimitedExact(rows: seq<JoinRow>)
    ensures Limited(rows) == rows[..Min(|rows|, 10001)]
  {
  }

  lemma ScanIsJoined(env: Env, s: State, q: Query, keep: EthLog -> bool, included: Hash -> bool, scan: seq<JoinRow>)
    requires Ready(env, s) && |q.topics| == 4 && 0 <= q.from && 0 <= q.to
    requires forall log :: keep(log) == RowMatches(q, RowOf(log))
    requires forall h :: included(h) == (h in s.db.status && s.db.status[h] == 1)
    requires scan == ChainScan(env, s.chain, keep, included, q.from, Horizon(q.to))
    ensures Strict(scan) && forall r :: r in scan <==> Joined(s.db, q, r)
  {
    ChainScanExact(env, s.chain, keep, included, q.from, Horizon(q.to));
    forall r
      ensures r in scan <==> Joined(s.db, q, r)
    {
      JoinedIsScanned(env, s, q, keep, included, r);
    }
  }

  lemma AnswerIsScan(env: Env, s: State, q: Query, keep: EthLog -> bool, included: Hash -> bool, scan: seq<JoinRow>,
                     out: seq<JoinRow>)
    requires Ready(env, s) && |q.topics| == 4 && 0 <= q.from
    requires forall log :: keep(log) == RowMatches(q, RowOf(log))
    requires forall h :: included(h) == (h in s.db.status && s.db.status[h] == 1)
    requires Strict(scan) && (forall r :: r in scan <==> Joined(s.db, q, r)) && IsAnswer(s.db, q, out)
    ensures out == Limited(scan)
  {
    var rows: seq<JoinRow> :| Distinct(rows) && Ordered(rows) &&
                              (forall r {:trigger r in rows} :: r in rows <==> Joined(s.db, q, r)) &&
                              out == Limited(rows);
    AnswerIsStrict(env, s, q, keep, included, rows);
    StrictUnique(rows, scan);
  }

  lemma ScanIsAnswer(db: Tables, q: Query, scan: seq<JoinRow>)
    requires |q.topics| == 4 && Strict(scan) && forall r :: r in scan <==> Joined(db, q, r)
    ensures IsAnswer(db, q, Limited(scan))
  {
    StrictIsOrderedDistinct(scan);
  }

  // From an RPC filter to the scan it stands for

  /** How `eth_getLogs` turns the address part of a filter into the query's list. */
  function AddressList(address: Option<Variadic<Hash>>): seq<Hash> {
    match address
    case Some(Single(a)) => [a]
    case Some(Multiple(xs)) => xs
    case Some(Null) => []
    case None => []
  }

  /** How `eth_getLogs` turns flat topics into combinations. */
  function CombinationsOf(flat: seq<FlatTopic>): (r: seq<Combination>)
    ensures |r| == |flat|
    ensures forall i :: 0 <= i < |flat| ==>
              r[i] == match flat[i] case Single(t) => [t] case Multiple(ts) => ts case Null => []
  {
    seq(|flat|, i requires 0 <= i < |flat| =>
      match flat[i] case Single(t) => [t] case Multiple(ts) => ts case Null => [])
  }

  function QueryOf(f: Filter, from: nat, to: nat): (q: Query)
    ensures |q.topics| == 4
  {
    Query(from, to, AddressList(f.address), ColumnsOf(CombinationsOf(NewParams(Some(f)).flatTopics)))
  }

  /** The address list means what the filter means unless it was given as an empty list. */
  lemma SqlAddressesExact(f: Filter)
    ensures (forall a: Hash :: (AddressList(f.address) == [] || a in AddressList(f.address)) == FilterAddress(f, a))
            <==> f.address != Some(Multiple([]))
  {
    var list := AddressList(f.address);
    if f.address == Some(Multiple([])) {
      assert list == [] && !FilterAddress(f, 0);
    }
  }

  function FilterPositions(f: Filter): seq<Alternatives> {
    if f.topics.Some? then TopicPositions(f.topics.value) else []
  }

  /** A filter that the query can express: at most four plain positions, and no empty address list. */
  predicate Expressible(f: Filter) {
    Plain(FilterPositions(f)) && |FilterPositions(f)| <= 4 && f.address != Some(Multiple([]))
  }

  /** Projecting the combinations of any kind of filter recovers its positions. */
  lemma FilterColumns(f: Filter, j: nat, t: Hash)
    requires NonEmptyLists(FilterPositions(f))
    ensures t in ColumnOf(CombinationsOf(NewParams(Some(f)).flatTopics), j) <==>
            j < |FilterPositions(f)| && Some(t) in FilterPositions(f)[j]
  {
    var flat, lists := NewParams(Some(f)).flatTopics, FilterPositions(f);
    var cs := CombinationsOf(flat);
    if f.topics.Some? && f.topics.value.Multiple? {
      assert cs == Product(lists);
      ProjectedProduct(lists, j, t);
    } else {
      ColumnOfMember(cs, j, t);
      if |flat| == 1 {
        assert t in ColumnOf(cs, j) <==> j < |cs[0]| && cs[0][j] == Some(t);
      }
    }
  }

  /** For an expressible filter, the query's topic test is the direct matcher. */
  lemma QueryTopicsAgree(f: Filter, topics: seq<Hash>)
    requires Expressible(f)
    ensures var flat := NewParams(Some(f)).flatTopics;
            TopicsMatch(ColumnsOf(CombinationsOf(flat)), Columns(topics)) <==> FilterTopics(flat, topics)
  {
    var lists, flat := FilterPositions(f), NewParams(Some(f)).flatTopics;
    var columns := ColumnsOf(CombinationsOf(flat));
    forall j, t: Hash | 0 <= j < 4
      ensures t in columns[j] <==> j < |lists| && Some(t) in lists[j]
    {
      FilterColumns(f, j, t);
      assert columns[j] == ColumnOf(CombinationsOf(flat), j);
    }
    PlainColumnsAgree(lists, columns, topics);
    PositionsAgree(f, topics);
  }

  lemma PositionsAgree(f: Filter, topics: seq<Hash>)
    requires Plain(FilterPositions(f))
    ensures FilterTopics(NewParams(Some(f)).flatTopics, topics) <==> Accepts(FilterPositions(f), topics)
  {
    if f.topics.Some? {
      PlainFiltersWellMatched(FilterPositions(f));
      MatchingExact(f.topics.value);
    }
  }

  /** For an expressible filter, the query keeps a log exactly when the direct filter does. */
  lemma QueryKeepsWhatTheFilterKeeps(f: Filter, from: nat, to: nat, log: EthLog)
    requires Expressible(f)
    ensures RowMatches(QueryOf(f, from, to), RowOf(log)) <==>
            FilterAddress(f, log.address) && FilterTopics(NewParams(Some(f)).flatTopics, log.topics)
  {
    SqlAddressesExact(f);
    QueryTopicsAgree(f, log.topics);
  }

  predicate KeptByFilter(f: Filter, log: EthLog) {
    FilterAddress(f, log.address) && FilterTopics(NewParams(Some(f)).flatTopics, log.topics)
  }

  function Keeping(f: Filter): EthLog -> bool {
    (log: EthLog) => KeptByFilter(f, log)
  }

  function Everywhere(): Hash -> bool {
    (h: Hash) => true
  }

  /** A block without any log (genesis, or one from before the pallet was there) has nothing to index. */
  predicate Silent(receipts: seq<seq<EthLog>>) {
    forall i :: 0 <= i < |receipts| ==> receipts[i] == []
  }

  ghost predicate LogsKnown(env: Env, s: State, h: Hash) {
    (h in s.db.status && s.db.status[h] == 1) || Silent(Receipts(env, h))
  }

  /** Every canonical block of the range has had its logs indexed, if it has any. */
  ghost predicate Covered(env: Env, s: State, from: nat, to: nat)
    requires ValidChain(s.chain)
  {
    forall n {:trigger CanonicalHash(s.chain, n)} :: from <= n <= to && CanonicalHash(s.chain, n).Some? ==>
      LogsKnown(env, s, CanonicalHash(s.chain, n).value)
  }

  lemma {:induction false} SilentScan(keep: EthLog -> bool, h: Hash, e: Hash, number: nat,
                                      receipts: seq<seq<EthLog>>, n: nat)
    requires Silent(receipts) && n <= |receipts|
    ensures BlockScan(keep, h, e, number, receipts, n) == []
  {
    if n > 0 {
      SilentScan(keep, h, e, number, receipts, n - 1);
    }
  }

  /** The canonical block at height `n`, if there is one, is included or silent. */
  ghost predicate IncludedOrSilent(env: Env, chain: Chain, included: Hash -> bool, n: nat)
    requires ValidChain(chain)
  {
    match CanonicalHash(chain, n)
    case None => true
    case Some(h) => included(h) || Silent(Receipts(env, h))
  }

  lemma IncludedAt(env: Env, chain: Chain, keep: EthLog -> bool, included: Hash -> bool, n: nat)
    requires ValidChain(chain) && IncludedOrSilent(env, chain, included, n)
    ensures HeightScan(env, chain, keep, included, n) == HeightScan(env, chain, keep, Everywhere(), n)
  {
    match CanonicalHash(chain, n)
    case None =>
    case Some(h) => SilentOrNot(keep, h, EthHashOf(env, chain, h), n, Receipts(env, h));
  }

  lemma SilentOrNot(keep: EthLog -> bool, h: Hash, e: Hash, number: nat, receipts: seq<seq<EthLog>>)
    ensures Silent(receipts) ==> BlockScan(keep, h, e, number, receipts, |receipts|) == []
  {
    if Silent(receipts) {
      SilentScan(keep, h, e, number, receipts, |receipts|);
    }
  }

  lemma {:induction false} ConcatSame(f: nat -> seq<JoinRow>, g: nat -> seq<JoinRow>, lo: nat, hi: nat)
    requires forall n :: lo <= n < hi ==> f(n) == g(n)
    ensures Concat(f, lo, hi) == Concat(g, lo, hi)
    decreases hi
  {
    if hi > lo {
      ConcatSame(f, g, lo, hi - 1);
    }
  }

  /** Leaving out silent blocks leaves the scan as it is. */
  lemma IncludedEverywhere(env: Env, chain: Chain, keep: EthLog -> bool, included: Hash -> bool, lo: nat, hi: nat)
    requires ValidChain(chain)
    requires forall n :: lo <= n < hi ==> IncludedOrSilent(env, chain, included, n)
    ensures ChainScan(env, chain, keep, included, lo, hi) == ChainScan(env, chain, keep, Everywhere(), lo, hi)
  {
    var f, g := HeightsOf(env, chain, keep, included), HeightsOf(env, chain, keep, Everywhere());
    forall n | lo <= n < hi
      ensures f(n) == g(n)
    {
      IncludedAt(env, chain, keep, included, n);
    }
    ConcatSame(f, g, lo, hi);
  }

  /** The blocks whose logs are in the index. */
  function IndexedIn(status: map<Hash, nat>): Hash -> bool {
    (h: Hash) => h in status && status[h] == 1
  }

  lemma KeepsAgree(f: Filter, from: nat, to: nat)
    requires Expressible(f)
    ensures forall log :: Keeping(f)(log) == RowMatches(QueryOf(f, from, to), RowOf(log))
  {
    forall log
      ensures Keeping(f)(log) == RowMatches(QueryOf(f, from, to), RowOf(log))
    {
      QueryKeepsWhatTheFilterKeeps(f, from, to, log);
    }
  }

  lemma IndexedEverywhere(env: Env, s: State, keep: EthLog -> bool, from: nat, to: nat)
    requires ValidChain(s.chain) && Covered(env, s, from, to)
    ensures ChainScan(env, s.chain, keep, IndexedIn(s.db.status), from, Horizon(to)) ==
            ChainScan(env, s.chain, keep, Everywhere(), from, Horizon(to))
  {
    forall n | from <= n < Horizon(to)
      ensures IncludedOrSilent(env, s.chain, IndexedIn(s.db.status), n)
    {
      assert CanonicalHash(s.chain, n).Some? ==> LogsKnown(env, s, CanonicalHash(s.chain, n).value);
    }
    IncludedEverywhere(env, s.chain, keep, IndexedIn(s.db.status), from, Horizon(to));
  }

  /**
   * The whole path: for an expressible filter over a range whose canonical blocks with logs are all log-indexed,
   * the indexed answer is exactly the first 10001 logs, in order, that a plain scan of the canonical receipts with
   * the address test and `filter_topics` keeps. For `to` below 2^31 that is the whole range; no log of a higher
   * block is ever returned.
   */
  lemma FilterLogsIsCanonicalScan(env: Env, s: State, f: Filter, from: nat, to: nat, out: seq<JoinRow>)
    requires Ready(env, s) && Expressible(f) && Covered(env, s, from, to)
    ensures var scan := ChainScan(env, s.chain, Keeping(f), Everywhere(), from, Horizon(to));
            IsAnswer(s.db, QueryOf(f, from, to), out) <==> out == scan[..Min(|scan|, 10001)]
  {
    var q := QueryOf(f, from, to);
    KeepsAgree(f, from, to);
    IndexedEverywhere(env, s, Keeping(f), from, to);
    IndexedQueryIsScan(env, s, q, Keeping(f), IndexedIn(s.db.status), out);
  }
}
