/** Log topic filters: expansion to a cartesian product, direct matching, and exactly when matching is right. */
module TopicFilter {
  import opened Basics

  datatype Variadic<+T> = Single(value: T) | Multiple(values: seq<T>) | Null

  type FlatTopic = Variadic<Option<Hash>>
  type Topic = Variadic<Option<FlatTopic>>

  /** The alternatives allowed at one topic position; `None` is a wildcard. */
  type Alternatives = seq<Option<Hash>>
  /** One choice per position. */
  type Combination = seq<Option<Hash>>

  // The cartesian product

  function Extend(prefix: Combination, list: Alternatives): (r: seq<Combination>)
    ensures |r| == |list| && forall j :: 0 <= j < |list| ==> r[j] == prefix + [list[j]]
  {
    seq(|list|, j requires 0 <= j < |list| => prefix + [list[j]])
  }

  function ExtendAll(prefixes: seq<Combination>, list: Alternatives): seq<Combination> {
    if prefixes == [] then []
    else ExtendAll(prefixes[..|prefixes| - 1], list) + Extend(prefixes[|prefixes| - 1], list)
  }

  /** All combinations, the last position varying fastest. */
  function Choices(lists: seq<Alternatives>): seq<Combination> {
    if |lists| == 0 then [[]] else ExtendAll(Choices(lists[..|lists| - 1]), lists[|lists| - 1])
  }

  /** The product as the source computes it: no lists give no combination at all. */
  function Product(lists: seq<Alternatives>): seq<Combination> {
    if |lists| == 0 then [] else Choices(lists)
  }

  function SizeProduct(lists: seq<Alternatives>): nat {
    if |lists| == 0 then 1 else SizeProduct(lists[..|lists| - 1]) * |lists[|lists| - 1]|
  }

  lemma ChoicesOfOne(list: Alternatives)
    ensures Choices([list]) == Extend([], list)
  {
    assert [list][..0] == [];
    assert ExtendAll([[]], list) == [] + Extend([], list);
  }

  /** The two inner loops of `cartesian`. */
  method ExtendEach(prefixes: seq<Combination>, list: Alternatives) returns (res: seq<Combination>)
    ensures res == ExtendAll(prefixes, list)
  {
    res := [];
    for i := 0 to |prefixes|
      invariant res == ExtendAll(prefixes[..i], list)
    {
      var before := res;
      for j := 0 to |list|
        invariant res == before + Extend(prefixes[i], list)[..j]
      {
        res := res + [prefixes[i] + [list[j]]];
      }
      assert prefixes[..i + 1][..i] == prefixes[..i];
    }
    assert prefixes[..|prefixes|] == prefixes;
  }

  method Cartesian(lists: seq<Alternatives>) returns (res: seq<Combination>)
    ensures res == Product(lists)
  {
    res := [];
    if |lists| == 0 {
      return;
    }
    for i := 0 to |lists[0]|
      invariant res == Extend([], lists[0])[..i]
    {
      assert Extend([], lists[0])[i] == [lists[0][i]];
      res := res + [[lists[0][i]]];
    }
    ChoicesOfOne(lists[0]);
    assert lists[..1] == [lists[0]];
    for k := 1 to |lists|
      invariant res == Choices(lists[..k])
    {
      assert lists[..k + 1][..k] == lists[..k];
      res := ExtendEach(res, lists[k]);
    }
    assert lists[..|lists|] == lists;
  }

  lemma {:induction false} ExtendAllMember(prefixes: seq<Combination>, list: Alternatives, c: Combination)
    ensures c in ExtendAll(prefixes, list) <==> |c| > 0 && c[..|c| - 1] in prefixes && c[|c| - 1] in list
  {
    if prefixes != [] {
      var n := |prefixes| - 1;
      ExtendAllMember(prefixes[..n], list, c);
      assert prefixes == prefixes[..n] + [prefixes[n]];
      if |c| > 0 && c[..|c| - 1] == prefixes[n] && c[|c| - 1] in list {
        var j :| 0 <= j < |list| && list[j] == c[|c| - 1];
        assert Extend(prefixes[n], list)[j] == c;
      }
    }
  }

  lemma {:induction false} ChoicesMember(lists: seq<Alternatives>, c: Combination)
    ensures c in Choices(lists) <==> |c| == |lists| && forall i :: 0 <= i < |lists| ==> c[i] in lists[i]
  {
    if |lists| > 0 {
      var n := |lists| - 1;
      ExtendAllMember(Choices(lists[..n]), lists[n], c);
      if |c| > 0 {
        var front := c[..|c| - 1];
        ChoicesMember(lists[..n], front);
        assert forall i :: 0 <= i < |front| ==> front[i] == c[i];
      }
    }
  }

  /** The product holds every full-width choice of alternatives, and nothing else. */
  lemma ProductMember(lists: seq<Alternatives>, c: Combination)
    ensures c in Product(lists) <==>
            |lists| > 0 && |c| == |lists| && forall i :: 0 <= i < |lists| ==> c[i] in lists[i]
  {
    ChoicesMember(lists, c);
  }

  lemma {:induction false} ExtendAllCount(prefixes: seq<Combination>, list: Alternatives)
    ensures |ExtendAll(prefixes, list)| == |prefixes| * |list|
  {
    if prefixes != [] {
      var n := |prefixes| - 1;
      ExtendAllCount(prefixes[..n], list);
      assert |prefixes| * |list| == n * |list| + |list|;
    }
  }

  lemma {:induction false} ChoicesCount(lists: seq<Alternatives>)
    ensures |Choices(lists)| == SizeProduct(lists)
  {
    if |lists| > 0 {
      var n := |lists| - 1;
      ChoicesCount(lists[..n]);
      ExtendAllCount(Choices(lists[..n]), lists[n]);
    }
  }

  /** As many combinations as the product of the list sizes, and none at all for no lists. */
  lemma ProductCount(lists: seq<Alternatives>)
    ensures |Product(lists)| == if |lists| == 0 then 0 else SizeProduct(lists)
  {
    ChoicesCount(lists);
  }

  predicate NonEmptyLists(lists: seq<Alternatives>) {
    forall i :: 0 <= i < |lists| ==> |lists[i]| > 0
  }

  function Heads(lists: seq<Alternatives>): (c: Combination)
    requires NonEmptyLists(lists)
    ensures |c| == |lists| && forall i :: 0 <= i < |lists| ==> c[i] == lists[i][0]
  {
    seq(|lists|, i requires 0 <= i < |lists| => lists[i][0])
  }

  lemma {:induction false} ExtendAllFirst(prefixes: seq<Combination>, list: Alternatives)
    requires prefixes != [] && list != []
    ensures ExtendAll(prefixes, list) != [] && ExtendAll(prefixes, list)[0] == prefixes[0] + [list[0]]
  {
    if |prefixes| > 1 {
      ExtendAllFirst(prefixes[..|prefixes| - 1], list);
    }
  }

  lemma HeadsSnoc(lists: seq<Alternatives>)
    requires NonEmptyLists(lists) && |lists| > 0
    ensures var n := |lists| - 1;
            NonEmptyLists(lists[..n]) && Heads(lists) == Heads(lists[..n]) + [lists[n][0]]
  {
  }

  lemma {:induction false} ChoicesFirst(lists: seq<Alternatives>)
    requires NonEmptyLists(lists)
    ensures |Choices(lists)| > 0 && Choices(lists)[0] == Heads(lists)
  {
    if |lists| > 0 {
      var n := |lists| - 1;
      var init := lists[..n];
      ChoicesFirst(init);
      ExtendAllFirst(Choices(init), lists[n]);
      HeadsSnoc(lists);
    }
  }

  /** The first combination takes every list's first alternative. */
  lemma ProductFirst(lists: seq<Alternatives>)
    requires |lists| > 0 && NonEmptyLists(lists)
    ensures |Product(lists)| > 0 && Product(lists)[0] == Heads(lists)
  {
    ChoicesFirst(lists);
  }

  /** `big` begins with the combinations of `small`, each put behind `head`. */
  ghost predicate Begins(big: seq<Combination>, head: Combination, small: seq<Combination>) {
    |small| <= |big| && forall k :: 0 <= k < |small| ==> big[k] == head + small[k]
  }

  lemma {:induction false} ExtendAllBegins(big: seq<Combination>, head: Combination, small: seq<Combination>,
                                           list: Alternatives)
    requires Begins(big, head, small)
    ensures Begins(ExtendAll(big, list), head, ExtendAll(small, list))
    decreases |big|
  {
    if |big| > |small| {
      ExtendAllBegins(big[..|big| - 1], head, small, list);
    } else if |small| > 0 {
      var n := |small| - 1;
      ExtendAllBegins(big[..n], head, small[..n], list);
      ExtendAllCount(big[..n], list);
      ExtendAllCount(small[..n], list);
      ExtendBegins(big[n], head, small[n], list);
      BeginsConcat(ExtendAll(big[..n], list), Extend(big[n], list), head,
                   ExtendAll(small[..n], list), Extend(small[n], list));
    }
  }

  lemma ExtendBegins(big: Combination, head: Combination, small: Combination, list: Alternatives)
    requires big == head + small
    ensures Begins(Extend(big, list), head, Extend(small, list))
  {
    forall j | 0 <= j < |list|
      ensures Extend(big, list)[j] == head + Extend(small, list)[j]
    {
      assert (head + small) + [list[j]] == head + (small + [list[j]]);
    }
  }

  lemma BeginsConcat(a: seq<Combination>, b: seq<Combination>, head: Combination,
                     c: seq<Combination>, d: seq<Combination>)
    requires Begins(a, head, c) && Begins(b, head, d) && |a| == |c|
    ensures Begins(a + b, head, c + d)
  {
  }

  /** The choices from `front + back` start with `front`'s first combination followed by all of `back`'s. */
  lemma {:induction false} ChoicesPrefix(front: seq<Alternatives>, back: seq<Alternatives>)
    requires NonEmptyLists(front)
    ensures Begins(Choices(front + back), Heads(front), Choices(back))
    decreases |back|
  {
    if |back| == 0 {
      assert front + back == front;
      ChoicesFirst(front);
      assert Choices(front)[0] == Heads(front) + [];
    } else {
      var n := |back| - 1;
      assert (front + back)[|front| + n] == back[n];
      assert (front + back)[..|front| + n] == front + back[..n];
      ChoicesPrefix(front, back[..n]);
      ExtendAllBegins(Choices(front + back[..n]), Heads(front), Choices(back[..n]), back[n]);
    }
  }

  // Matching

  /** Drops trailing wildcards: what is left ends in a topic, or is empty. */
  function Trim(c: Combination): (t: Combination)
    ensures |t| <= |c| && t == c[..|t|]
    ensures forall k :: |t| <= k < |c| ==> c[k] == None
    ensures t != [] ==> t[|t| - 1].Some?
  {
    if c != [] && c[|c| - 1].None? then Trim(c[..|c| - 1]) else c
  }

  /** Every chosen topic is the log's topic at that position. */
  predicate Fits(c: Combination, topics: seq<Hash>)
    requires |c| <= |topics|
  {
    forall k :: 0 <= k < |c| ==> c[k].None? || c[k].value == topics[k]
  }

  predicate StartsWith(topics: seq<Hash>, prefix: seq<Hash>) {
    |prefix| <= |topics| && topics[..|prefix|] == prefix
  }

  /** `filter_topics`, from some point in the list with `out` as decided so far. */
  predicate Scan(flat: seq<FlatTopic>, topics: seq<Hash>, out: bool) {
    if flat == [] then out
    else
      match flat[0]
      case Single(None) => Scan(flat[1..], topics, out)
      case Single(Some(topic)) => Scan(flat[1..], topics, out && StartsWith(topics, [topic]))
      case Multiple(multi) =>
        var c := Trim(multi);
        if |c| > |topics| then false
        else if c == [] then Scan(flat[1..], topics, out)
        else if Fits(c, topics) then true
        else Scan(flat[1..], topics, false)
      case Null => Scan(flat[1..], topics, true)
  }

  predicate FilterTopics(flat: seq<FlatTopic>, topics: seq<Hash>) {
    Scan(flat, topics, true)
  }

  /** The list has a wildcard at a position that the log does not have. */
  predicate OutOfRange(topics: seq<Hash>, topic: FlatTopic) {
    topic.Multiple? && exists k :: |topics| <= k < |topic.values| && topic.values[k].None?
  }

  /** `replace`; `Err` is the panic on a wildcard beyond the log's topics. */
  method Replace(topics: seq<Hash>, topic: FlatTopic) returns (r: Result<Option<seq<Hash>>, ()>)
    ensures r.Err? <==> OutOfRange(topics, topic)
    ensures r.Ok? && topic.Multiple? && topic.values != [] ==>
              r.value.Some? && |r.value.value| == |topic.values| &&
              forall k :: 0 <= k < |topic.values| ==>
                if topic.values[k].Some? then r.value.value[k] == topic.values[k].value
                else k < |topics| && r.value.value[k] == topics[k]
    ensures topic.Multiple? && topic.values == [] ==> r == Ok(None)
    ensures topic.Single? ==> r == Ok(if topic.value.Some? then Some([topic.value.value]) else None)
    ensures topic.Null? ==> r == Ok(None)
  {
    var out: seq<Hash> := [];
    match topic {
      case Single(Some(value)) => out := [value];
      case Multiple(values) =>
        for k := 0 to |values|
          invariant |out| == k
          invariant forall i :: 0 <= i < k ==>
            if values[i].Some? then out[i] == values[i].value else i < |topics| && out[i] == topics[i]
        {
          if values[k].None? && k >= |topics| {
            return Err(());
          }
          out := out + [if values[k].Some? then values[k].value else topics[k]];
        }
      case _ =>
    }
    return Ok(if out == [] then None else Some(out));
  }

  method RunFilterTopics(flat: seq<FlatTopic>, topics: seq<Hash>) returns (out: bool)
    ensures out == FilterTopics(flat, topics)
  {
    out := true;
    for i := 0 to |flat|
      invariant FilterTopics(flat, topics) == Scan(flat[i..], topics, out)
    {
      assert flat[i..][0] == flat[i] && flat[i..][1..] == flat[i + 1..];
      match flat[i]
      case Single(single) =>
        if single.Some? && !StartsWith(topics, [single.value]) {
          out := false;
        }
      case Multiple(multi) =>
        var shrunk := multi;
        while shrunk != [] && shrunk[|shrunk| - 1].None?
          invariant Trim(multi) == Trim(shrunk)
        {
          shrunk := shrunk[..|shrunk| - 1];
        }
        if |shrunk| > |topics| {
          return false;
        }
        var replacing := Replace(topics, Multiple(shrunk));
        assert replacing.Ok?; // so the panic is out of reach
        var replaced := replacing.value;
        if replaced.Some? {
          out := false;
          assert StartsWith(topics, replaced.value) <==> Fits(shrunk, topics) by {
            assert forall k :: 0 <= k < |shrunk| ==> topics[..|shrunk|][k] == topics[k];
          }
          if StartsWith(topics, replaced.value) {
            return true;
          }
        }
      case Null =>
        out := true;
    }
  }

  // Flattening

  function ListOf(position: Option<FlatTopic>): Alternatives {
    match position
    case Some(Single(topic)) => [topic]
    case Some(Multiple(topics)) => topics
    case Some(Null) => [None]
    case None => [None]
  }

  function Positions(multi: seq<Option<FlatTopic>>): (r: seq<Alternatives>)
    ensures |r| == |multi| && forall i :: 0 <= i < |multi| ==> r[i] == ListOf(multi[i])
  {
    seq(|multi|, i requires 0 <= i < |multi| => ListOf(multi[i]))
  }

  function Multiples(cs: seq<Combination>): (r: seq<FlatTopic>)
    ensures |r| == |cs| && forall i :: 0 <= i < |cs| ==> r[i] == Multiple(cs[i])
  {
    seq(|cs|, i requires 0 <= i < |cs| => Multiple(cs[i]))
  }

  function Flatten(topic: Topic): seq<FlatTopic> {
    match topic
    case Multiple(multi) => Multiples(Product(Positions(multi)))
    case Single(Some(flat)) => [flat]
    case Single(None) => []
    case Null => [Null]
  }

  method RunFlatten(topic: Topic) returns (out: seq<FlatTopic>)
    ensures out == Flatten(topic)
    ensures topic == Null ==> out == [Null]
    ensures topic == Single(None) ==> out == []
    ensures forall flat :: topic == Single(Some(flat)) ==> out == [flat]
  {
    out := [];
    match topic
    case Multiple(multi) =>
      var values: seq<Alternatives> := [];
      for i := 0 to |multi|
        invariant |values| == i && forall k :: 0 <= k < i ==> values[k] == ListOf(multi[k])
      {
        values := values + [ListOf(multi[i])];
      }
      assert values == Positions(multi);
      var product := Cartesian(values);
      for i := 0 to |product|
        invariant |out| == i && forall k :: 0 <= k < i ==> out[k] == Multiple(product[k])
      {
        out := out + [Multiple(product[i])];
      }
      assert out == Multiples(product);
    case Single(single) =>
      if single.Some? {
        out := [single.value];
      }
    case Null =>
      out := [Null];
  }

  // The reference meaning of a filter

  /** The positions a filter constrains: a list is a list of positions, anything else constrains in order. */
  function TopicPositions(topic: Topic): seq<Alternatives> {
    match topic
    case Multiple(multi) => Positions(multi)
    case Single(Some(Single(t))) => [[t]]
    case Single(Some(Multiple(ts))) => seq(|ts|, i requires 0 <= i < |ts| => [ts[i]])
    case Single(Some(Null)) => []
    case Single(None) => []
    case Null => []
  }

  /** What a filter is meant to accept: each position is a wildcard or lists the log's topic there. */
  predicate Accepts(lists: seq<Alternatives>, topics: seq<Hash>) {
    forall i :: 0 <= i < |lists| ==> None in lists[i] || (i < |topics| && Some(topics[i]) in lists[i])
  }

  /** One position of a filter allows the log's topic there: no constraint, this topic, or one of these. */
  predicate Allows(position: Option<FlatTopic>, topics: seq<Hash>, i: nat) {
    match position
    case None => true
    case Some(Null) => true
    case Some(Single(None)) => true
    case Some(Single(Some(t))) => i < |topics| && topics[i] == t
    case Some(Multiple(ts)) => None in ts || (i < |topics| && Some(topics[i]) in ts)
  }

  /**
   * What a filter means, as written: a list gives one position each; a single topic the first position; a single list
   * of topics the positions in order; anything else no constraint.
   */
  predicate Means(topic: Topic, topics: seq<Hash>) {
    match topic
    case Multiple(multi) => forall i :: 0 <= i < |multi| ==> Allows(multi[i], topics, i)
    case Single(Some(Single(Some(t)))) => |topics| > 0 && topics[0] == t
    case Single(Some(Multiple(ts))) =>
      forall i :: 0 <= i < |ts| && ts[i].Some? ==> i < |topics| && topics[i] == ts[i].value
    case _ => true
  }

  /** The positions that a filter is split into say what it means. */
  lemma PositionsMean(topic: Topic, topics: seq<Hash>)
    ensures Accepts(TopicPositions(topic), topics) <==> Means(topic, topics)
  {
    var lists := TopicPositions(topic);
    match topic {
      case Multiple(multi) =>
        forall i | 0 <= i < |multi|
          ensures (None in lists[i] || (i < |topics| && Some(topics[i]) in lists[i])) <==> Allows(multi[i], topics, i)
        {
        }
      case Single(Some(Single(t))) =>
        assert lists == [[t]] && lists[0] == [t];
        assert None in lists[0] <==> t == None;
        assert |topics| > 0 ==> (Some(topics[0]) in lists[0] <==> t == Some(topics[0]));
      case Single(Some(Multiple(ts))) =>
        forall i | 0 <= i < |ts|
          ensures (None in lists[i] || (i < |topics| && Some(topics[i]) in lists[i])) <==>
                  ts[i].None? || (i < |topics| && topics[i] == ts[i].value)
        {
          assert lists[i] == [ts[i]];
        }
      case _ =>
    }
  }

  predicate Wild(list: Alternatives) {
    forall x :: x in list ==> x == None
  }

  /** `q` is the last position that does not list a wildcard. */
  predicate LastNullFree(lists: seq<Alternatives>, q: nat) {
    q < |lists| && None !in lists[q] && forall i :: q < i < |lists| ==> None in lists[i]
  }

  /** Every list starts with a wildcard or repeats one topic: the first combination covers all others. */
  predicate HeadsCover(lists: seq<Alternatives>) {
    forall i :: 0 <= i < |lists| ==>
      |lists[i]| > 0 && (lists[i][0] == None || forall x :: x in lists[i] ==> x == lists[i][0])
  }

  /**
   * The filters that the matcher gets right: no position at all; or no empty list, and either only wildcards,
   * or some wildcard-free list with nothing but wildcards after the last one, or a covering first combination.
   */
  predicate WellMatched(lists: seq<Alternatives>) {
    || lists == []
    || (NonEmptyLists(lists) &&
        ((forall i :: 0 <= i < |lists| ==> Wild(lists[i])) ||
         exists q :: 0 <= q < |lists| && LastNullFree(lists, q) &&
           ((forall i :: q < i < |lists| ==> Wild(lists[i])) || HeadsCover(lists))))
  }

  // Proof that they are exactly these

  predicate TooLong(c: Combination, topics: seq<Hash>) {
    |Trim(c)| > |topics|
  }

  predicate Hit(c: Combination, topics: seq<Hash>) {
    0 < |Trim(c)| <= |topics| && Fits(Trim(c), topics)
  }

  lemma MultiplesTail(cs: seq<Combination>)
    requires cs != []
    ensures Multiples(cs)[1..] == Multiples(cs[1..])
  {
  }

  lemma {:induction false} ScanHits(cs: seq<Combination>, topics: seq<Hash>, out: bool, i: nat)
    requires i < |cs| && Hit(cs[i], topics)
    requires forall j :: 0 <= j < i ==> !TooLong(cs[j], topics)
    ensures Scan(Multiples(cs), topics, out)
    decreases |cs|
  {
    MultiplesTail(cs);
    if i > 0 {
      ScanHits(cs[1..], topics, out, i - 1);
      ScanHits(cs[1..], topics, false, i - 1);
    }
  }

  lemma {:induction false} ScanGivesUp(cs: seq<Combination>, topics: seq<Hash>, out: bool, i: nat)
    requires i < |cs| && TooLong(cs[i], topics)
    requires forall j :: 0 <= j < i ==> !Hit(cs[j], topics)
    ensures !Scan(Multiples(cs), topics, out)
    decreases |cs|
  {
    MultiplesTail(cs);
    if i > 0 {
      ScanGivesUp(cs[1..], topics, out, i - 1);
      ScanGivesUp(cs[1..], topics, false, i - 1);
    }
  }

  lemma {:induction false} ScanMisses(cs: seq<Combination>, topics: seq<Hash>, out: bool)
    requires forall j :: 0 <= j < |cs| ==> !Hit(cs[j], topics) && !TooLong(cs[j], topics)
    ensures Scan(Multiples(cs), topics, out) == (out && forall j :: 0 <= j < |cs| ==> Trim(cs[j]) == [])
    decreases |cs|
  {
    if cs != [] {
      MultiplesTail(cs);
      var rest := cs[1..];
      ScanMisses(rest, topics, out);
      ScanMisses(rest, topics, false);
      assert forall j :: 1 <= j < |cs| ==> cs[j] == rest[j - 1];
    }
  }

  /** If nothing hits, the scan can only say yes when every combination is all wildcards. */
  lemma {:induction false} ScanNoHit(cs: seq<Combination>, topics: seq<Hash>, out: bool)
    requires forall j :: 0 <= j < |cs| ==> !Hit(cs[j], topics)
    requires exists j :: 0 <= j < |cs| && Trim(cs[j]) != []
    ensures !Scan(Multiples(cs), topics, out)
  {
    if exists j :: 0 <= j < |cs| && TooLong(cs[j], topics) {
      var j :| 0 <= j < |cs| && TooLong(cs[j], topics);
      ScanGivesUp(cs, topics, out, j);
    } else {
      ScanMisses(cs, topics, out);
    }
  }

  predicate Matching(lists: seq<Alternatives>, topics: seq<Hash>) {
    Scan(Multiples(Product(lists)), topics, true)
  }

  lemma TrimLength(c: Combination, n: nat)
    requires n < |c| && c[n].Some? && forall k :: n < k < |c| ==> c[k] == None
    ensures |Trim(c)| == n + 1
  {
  }

  /** A chosen topic is never trimmed away. */
  lemma TrimReaches(c: Combination, k: nat)
    requires k < |c| && c[k].Some?
    ensures k < |Trim(c)| && Trim(c)[k] == c[k]
  {
  }

  lemma AllWildAgrees(lists: seq<Alternatives>, topics: seq<Hash>)
    requires lists != [] && NonEmptyLists(lists)
    requires forall i :: 0 <= i < |lists| ==> Wild(lists[i])
    ensures Matching(lists, topics) && Accepts(lists, topics)
  {
    var cs := Product(lists);
    forall j | 0 <= j < |cs|
      ensures Trim(cs[j]) == []
    {
      ProductMember(lists, cs[j]);
    }
    ScanMisses(cs, topics, true);
    forall i | 0 <= i < |lists|
      ensures None in lists[i]
    {
      assert lists[i][0] in lists[i];
    }
  }

  /** The combination that picks the log's own topic, or a wildcard, at every position. */
  lemma AcceptedCombination(lists: seq<Alternatives>, topics: seq<Hash>) returns (c: Combination)
    requires Accepts(lists, topics)
    ensures |c| == |lists|
    ensures forall i :: 0 <= i < |lists| ==>
              c[i] in lists[i] && (c[i] == None || (i < |topics| && c[i] == Some(topics[i])))
  {
    c := seq(|lists|, i requires 0 <= i < |lists| => if None in lists[i] then None
                                                     else if i < |topics| then Some(topics[i]) else None);
  }

  /** Whatever a combination hits, the filter was meant to accept. */
  lemma HitAccepts(lists: seq<Alternatives>, c: Combination, topics: seq<Hash>)
    requires |c| == |lists| && forall i :: 0 <= i < |lists| ==> c[i] in lists[i]
    requires Hit(c, topics)
    ensures Accepts(lists, topics)
  {
    forall i | 0 <= i < |lists|
      ensures None in lists[i] || (i < |topics| && Some(topics[i]) in lists[i])
    {
      assert c[i] in lists[i];
      if i < |Trim(c)| {
        assert Trim(c)[i] == c[i];
      }
    }
  }

  /** A filter with a wildcard-free list refuses what it is meant to refuse. */
  lemma RefusesRightly(lists: seq<Alternatives>, q: nat, topics: seq<Hash>)
    requires NonEmptyLists(lists) && LastNullFree(lists, q) && !Accepts(lists, topics)
    ensures !Matching(lists, topics)
  {
    var cs := Product(lists);
    ProductFirst(lists);
    forall j | 0 <= j < |cs|
      ensures !Hit(cs[j], topics)
    {
      ProductMember(lists, cs[j]);
      if Hit(cs[j], topics) {
        HitAccepts(lists, cs[j], topics);
      }
    }
    assert lists[q][0] in lists[q];
    TrimReaches(cs[0], q);
    ScanNoHit(cs, topics, true);
  }

  /** Wildcards only after the last wildcard-free list: all combinations have the same length. */
  lemma TailWildLength(lists: seq<Alternatives>, q: nat, c: Combination)
    requires LastNullFree(lists, q) && forall i :: q < i < |lists| ==> Wild(lists[i])
    requires |c| == |lists| && forall i :: 0 <= i < |lists| ==> c[i] in lists[i]
    ensures |Trim(c)| == q + 1
  {
    assert c[q] in lists[q];
    forall k | q < k < |lists|
      ensures c[k] == None
    {
      assert c[k] in lists[k];
    }
    TrimLength(c, q);
  }

  /** With wildcards only behind `q`, no combination is too long for an accepted log. */
  lemma TailWildFits(lists: seq<Alternatives>, q: nat, topics: seq<Hash>, c: Combination)
    requires LastNullFree(lists, q) && (forall i :: q < i < |lists| ==> Wild(lists[i]))
    requires Accepts(lists, topics) && c in Product(lists)
    ensures |Trim(c)| == q + 1 <= |topics| && |c| == |lists|
  {
    ProductMember(lists, c);
    TailWildLength(lists, q, c);
    assert None in lists[q] || (q < |topics| && Some(topics[q]) in lists[q]);
  }

  lemma TailWildHit(lists: seq<Alternatives>, q: nat, topics: seq<Hash>) returns (i: nat)
    requires LastNullFree(lists, q) && (forall i :: q < i < |lists| ==> Wild(lists[i]))
    requires NonEmptyLists(lists) && Accepts(lists, topics)
    ensures i < |Product(lists)| && Hit(Product(lists)[i], topics)
  {
    var c := AcceptedCombination(lists, topics);
    ProductMember(lists, c);
    TailWildFits(lists, q, topics, c);
    i :| 0 <= i < |Product(lists)| && Product(lists)[i] == c;
  }

  lemma TailWildAccepts(lists: seq<Alternatives>, q: nat, topics: seq<Hash>)
    requires NonEmptyLists(lists) && LastNullFree(lists, q)
    requires forall i :: q < i < |lists| ==> Wild(lists[i])
    requires Accepts(lists, topics)
    ensures Matching(lists, topics)
  {
    var cs := Product(lists);
    forall j | 0 <= j < |cs|
      ensures !TooLong(cs[j], topics)
    {
      TailWildFits(lists, q, topics, cs[j]);
    }
    var i := TailWildHit(lists, q, topics);
    ScanHits(cs, topics, true, i);
  }

  /** A covering first combination takes everything that any combination takes. */
  lemma HeadsCoverAccepts(lists: seq<Alternatives>, q: nat, topics: seq<Hash>)
    requires HeadsCover(lists) && LastNullFree(lists, q)
    requires Accepts(lists, topics)
    ensures Matching(lists, topics)
  {
    var first := Heads(lists);
    ProductFirst(lists);
    assert lists[q][0] in lists[q];
    forall k | q < k < |lists|
      ensures first[k] == None
    {
      assert None in lists[k];
    }
    TrimLength(first, q);
    forall k | 0 <= k <= q
      ensures Trim(first)[k].None? || Trim(first)[k].value == topics[k]
    {
      assert Trim(first)[k] == lists[k][0];
      assert None in lists[k] || Some(topics[k]) in lists[k];
    }
    ScanHits(Product(lists), topics, true, 0);
  }

  lemma WellMatchedAgrees(lists: seq<Alternatives>, topics: seq<Hash>)
    requires WellMatched(lists)
    ensures Matching(lists, topics) == Accepts(lists, topics)
  {
    if lists != [] {
      if forall i :: 0 <= i < |lists| ==> Wild(lists[i]) {
        AllWildAgrees(lists, topics);
      } else {
        var q :| 0 <= q < |lists| && LastNullFree(lists, q) &&
                 ((forall i :: q < i < |lists| ==> Wild(lists[i])) || HeadsCover(lists));
        if !Accepts(lists, topics) {
          RefusesRightly(lists, q, topics);
        } else if HeadsCover(lists) {
          HeadsCoverAccepts(lists, q, topics);
        } else {
          TailWildAccepts(lists, q, topics);
        }
      }
    }
  }

  lemma {:induction false} EmptyListEmptiesProduct(lists: seq<Alternatives>, i: nat)
    requires i < |lists| && lists[i] == []
    ensures Choices(lists) == []
  {
    var n := |lists| - 1;
    if i < n {
      EmptyListEmptiesProduct(lists[..n], i);
    } else {
      ExtendAllCount(Choices(lists[..n]), lists[n]);
    }
  }

  /** A log, as long as asked, that every non-empty list up to there accepts. */
  function AcceptedTopics(lists: seq<Alternatives>, n: nat): (topics: seq<Hash>)
    requires n <= |lists| && NonEmptyLists(lists)
    ensures |topics| == n
    ensures forall i :: 0 <= i < n ==> None in lists[i] || Some(topics[i]) in lists[i]
  {
    seq(n, i requires 0 <= i < n =>
      if lists[i][0].Some? then (assert lists[i][0] in lists[i]; lists[i][0].value)
      else (assert lists[i][0] in lists[i]; 0))
  }

  /** Positions that all list a wildcard have a combination with a topic at `p` and wildcards elsewhere. */
  lemma LongTail(back: seq<Alternatives>, p: nat) returns (j: nat)
    requires p < |back| && !Wild(back[p]) && forall i :: 0 <= i < |back| ==> None in back[i]
    ensures j < |Choices(back)| && |Choices(back)[j]| == |back| && Choices(back)[j][p].Some?
  {
    var y :| y in back[p] && y != None;
    var tail: Combination := seq(|back|, i requires 0 <= i < |back| => if i == p then y else None);
    ChoicesMember(back, tail);
    j :| 0 <= j < |Choices(back)| && Choices(back)[j] == tail;
  }

  lemma NothingHitsEmpty(c: Combination)
    ensures !Hit(c, [])
  {
  }

  /** Every list has a wildcard but some list also has a topic: the empty log is wrongly refused. */
  lemma WildcardEverywhereFails(lists: seq<Alternatives>, p: nat)
    requires NonEmptyLists(lists) && forall i :: 0 <= i < |lists| ==> None in lists[i]
    requires p < |lists| && !Wild(lists[p])
    ensures !Matching(lists, []) && Accepts(lists, [])
  {
    var cs := Product(lists);
    var j := LongTail(lists, p);
    TrimReaches(cs[j], p);
    forall i | 0 <= i < j
      ensures !Hit(cs[i], [])
    {
      NothingHitsEmpty(cs[i]);
    }
    ScanGivesUp(cs, [], true, j);
  }

  /** A first combination that is too long hides the log of minimal length. */
  lemma LongFirstFails(lists: seq<Alternatives>, q: nat, p: nat) returns (topics: seq<Hash>)
    requires NonEmptyLists(lists) && LastNullFree(lists, q)
    requires q < p < |lists| && lists[p][0].Some?
    ensures !Matching(lists, topics) && Accepts(lists, topics)
  {
    topics := AcceptedTopics(lists, q + 1);
    ProductFirst(lists);
    TrimReaches(Heads(lists), p);
    ScanGivesUp(Product(lists), topics, true, 0);
  }

  /** If the log misses the first alternative at `k`, no combination that starts with the first ones hits it. */
  lemma MissesFront(c: Combination, topics: seq<Hash>, k: nat)
    requires k < |c| && c[k].Some? && k < |topics| && c[k].value != topics[k]
    ensures !Hit(c, topics)
  {
    TrimReaches(c, k);
  }

  lemma BeginsMisses(cs: seq<Combination>, head: Combination, tails: seq<Combination>, topics: seq<Hash>, k: nat)
    requires Begins(cs, head, tails)
    requires k < |head| && head[k].Some? && k < |topics| && head[k].value != topics[k]
    ensures forall i :: 0 <= i < |tails| ==> !Hit(cs[i], topics)
  {
    forall i | 0 <= i < |tails|
      ensures !Hit(cs[i], topics)
    {
      assert cs[i] == head + tails[i];
      MissesFront(cs[i], topics, k);
    }
  }

  /** The matcher gives up on a log its first combination misses, as long as some combination is too long. */
  lemma GivesUpEarly(lists: seq<Alternatives>, q: nat, p: nat, k: nat, topics: seq<Hash>)
    requires NonEmptyLists(lists) && LastNullFree(lists, q)
    requires q < p < |lists| && !Wild(lists[p])
    requires k <= q && lists[k][0].Some? && |topics| == q + 1 && topics[k] != lists[k][0].value
    ensures !Matching(lists, topics)
  {
    var front, back := lists[..q + 1], lists[q + 1..];
    assert lists == front + back;
    GivesUpSplit(front, back, p - q - 1, k, topics);
  }

  lemma GivesUpSplit(front: seq<Alternatives>, back: seq<Alternatives>, p: nat, k: nat, topics: seq<Hash>)
    requires NonEmptyLists(front) && (forall i :: 0 <= i < |back| ==> None in back[i])
    requires p < |back| && !Wild(back[p])
    requires k < |front| == |topics| && front[k][0].Some? && topics[k] != front[k][0].value
    ensures !Scan(Multiples(Choices(front + back)), topics, true)
  {
    var j := LongTail(back, p);
    var head, tails := Heads(front), Choices(back);
    ChoicesPrefix(front, back);
    assert head[k] == front[k][0];
    GivesUpAt(Choices(front + back), head, tails, topics, k, j, |front| + p);
  }

  lemma GivesUpAt(cs: seq<Combination>, head: Combination, tails: seq<Combination>, topics: seq<Hash>,
                  k: nat, j: nat, p: nat)
    requires Begins(cs, head, tails) && |topics| == |head|
    requires k < |head| && head[k].Some? && head[k].value != topics[k]
    requires j < |tails| && |head| <= p < |head| + |tails[j]| && tails[j][p - |head|].Some?
    ensures !Scan(Multiples(cs), topics, true)
  {
    BeginsMisses(cs, head, tails, topics, k);
    assert cs[j] == head + tails[j];
    TrimReaches(cs[j], p);
    ScanGivesUp(cs, topics, true, j);
  }

  /** A log that the first combination misses is refused before its own combination is reached. */
  lemma HiddenFails(lists: seq<Alternatives>, q: nat, p: nat, k: nat) returns (topics: seq<Hash>)
    requires NonEmptyLists(lists) && LastNullFree(lists, q)
    requires q < p < |lists| && !Wild(lists[p])
    requires k <= q && lists[k][0].Some? && exists x :: x in lists[k] && x != lists[k][0]
    ensures !Matching(lists, topics) && Accepts(lists, topics)
  {
    var x :| x in lists[k] && x != lists[k][0];
    var other := if x.Some? then x.value else lists[k][0].value + 1;
    var base := AcceptedTopics(lists, q + 1);
    topics := base[k := other];
    forall i | 0 <= i < |lists|
      ensures None in lists[i] || (i < |topics| && Some(topics[i]) in lists[i])
    {
      assert i <= q && i != k ==> topics[i] == base[i];
    }
    GivesUpEarly(lists, q, p, k, topics);
  }

  /** Any other filter gets some log wrong. */
  lemma OthersDisagree(lists: seq<Alternatives>) returns (topics: seq<Hash>)
    requires !WellMatched(lists)
    ensures Matching(lists, topics) != Accepts(lists, topics)
  {
    if i :| 0 <= i < |lists| && lists[i] == [] {
      EmptyListEmptiesProduct(lists, i);
      topics := [];
    } else {
      var p :| 0 <= p < |lists| && !Wild(lists[p]);
      if forall i :: 0 <= i < |lists| ==> None in lists[i] {
        WildcardEverywhereFails(lists, p);
        topics := [];
      } else {
        var q := FindLastNullFree(lists, |lists|);
        var p' :| q < p' < |lists| && !Wild(lists[p']);
        var k :| 0 <= k < |lists| && lists[k][0] != None && !forall x :: x in lists[k] ==> x == lists[k][0];
        if k <= q {
          topics := HiddenFails(lists, q, p', k);
        } else {
          topics := LongFirstFails(lists, q, k);
        }
      }
    }
  }

  lemma {:induction false} FindLastNullFree(lists: seq<Alternatives>, n: nat) returns (q: nat)
    requires n <= |lists| && exists i :: 0 <= i < n && None !in lists[i]
    requires forall i :: n <= i < |lists| ==> None in lists[i]
    ensures LastNullFree(lists, q)
  {
    if None !in lists[n - 1] {
      q := n - 1;
    } else {
      q := FindLastNullFree(lists, n - 1);
    }
  }

  /**
   * `filter_topics` over the expanded filter does what the filter means, on every log, exactly for the well-matched
   * filters.
   */
  lemma FilterTopicsExact(topic: Topic)
    ensures (forall topics :: FilterTopics(Flatten(topic), topics) == Means(topic, topics))
            <==> WellMatched(TopicPositions(topic))
  {
    forall topics
      ensures Accepts(TopicPositions(topic), topics) <==> Means(topic, topics)
    {
      PositionsMean(topic, topics);
    }
    MatchingExact(topic);
  }

  lemma MatchingExact(topic: Topic)
    ensures (forall topics :: FilterTopics(Flatten(topic), topics) == Accepts(TopicPositions(topic), topics))
            <==> WellMatched(TopicPositions(topic))
  {
    var lists := TopicPositions(topic);
    if topic.Multiple? {
      forall topics
        ensures FilterTopics(Flatten(topic), topics) == Matching(lists, topics)
      {
      }
      if WellMatched(lists) {
        forall topics
          ensures Matching(lists, topics) == Accepts(lists, topics)
        {
          WellMatchedAgrees(lists, topics);
        }
      } else {
        var topics := OthersDisagree(lists);
        assert FilterTopics(Flatten(topic), topics) != Accepts(lists, topics);
      }
    } else {
      SingletonsWellMatched(lists);
      forall topics
        ensures FilterTopics(Flatten(topic), topics) == Accepts(lists, topics)
      {
        SingleTopicAgrees(topic, topics);
      }
    }
  }

  lemma SingletonsWellMatched(lists: seq<Alternatives>)
    requires forall i :: 0 <= i < |lists| ==> |lists[i]| == 1
    ensures WellMatched(lists)
  {
    if exists i :: 0 <= i < |lists| && None !in lists[i] {
      var q := FindLastNullFree(lists, |lists|);
      assert HeadsCover(lists);
    }
  }

  /** One flat topic alone: its trimmed form must fit the log. */
  lemma ScanOne(flat: FlatTopic, topics: seq<Hash>)
    ensures flat.Single? && flat.value.Some? ==>
              (Scan([flat], topics, true) <==> |topics| > 0 && topics[0] == flat.value.value)
    ensures flat.Multiple? ==>
              (Scan([flat], topics, true) <==> |Trim(flat.values)| <= |topics| && Fits(Trim(flat.values), topics))
    ensures flat.Null? || flat == Single(None) ==> Scan([flat], topics, true)
  {
    assert [flat][0] == flat && [flat][1..] == [];
    if flat.Single? && flat.value.Some? && |topics| > 0 {
      assert topics[..1] == [topics[0]];
    }
  }

  lemma SingletonsAccept(ts: Combination, lists: seq<Alternatives>, topics: seq<Hash>)
    requires |lists| == |ts| && forall i :: 0 <= i < |ts| ==> lists[i] == [ts[i]]
    ensures Accepts(lists, topics) <==> |Trim(ts)| <= |topics| && Fits(Trim(ts), topics)
  {
    var c := Trim(ts);
    if |c| <= |topics| && Fits(c, topics) {
      forall i | 0 <= i < |lists|
        ensures None in lists[i] || (i < |topics| && Some(topics[i]) in lists[i])
      {
        assert ts[i] in lists[i];
        assert i < |c| ==> c[i] == ts[i];
      }
    }
    if Accepts(lists, topics) && |c| > 0 {
      assert ts[|c| - 1] == c[|c| - 1];
      assert None !in lists[|c| - 1];
      forall k | 0 <= k < |c|
        ensures c[k].None? || c[k].value == topics[k]
      {
        assert c[k] == ts[k];
        assert None in lists[k] || Some(topics[k]) in lists[k];
      }
    }
  }

  lemma SingleTopicAgrees(topic: Topic, topics: seq<Hash>)
    requires !topic.Multiple?
    ensures FilterTopics(Flatten(topic), topics) == Accepts(TopicPositions(topic), topics)
  {
    match topic {
      case Single(Some(flat)) =>
        ScanOne(flat, topics);
        if flat.Multiple? {
          SingletonsAccept(flat.values, TopicPositions(topic), topics);
        } else if flat.Single? {
          SingletonsAccept([flat.value], TopicPositions(topic), topics);
          if flat.value.Some? {
            TrimLength([flat.value], 0);
          }
        }
      case Single(None) =>
      case Null =>
        ScanOne(Null, topics);
    }
  }

  /** Every position a plain wildcard or a non-empty list of topics: the ordinary filters are well matched. */
  lemma PlainFiltersWellMatched(lists: seq<Alternatives>)
    requires NonEmptyLists(lists)
    requires forall i :: 0 <= i < |lists| ==> Wild(lists[i]) || None !in lists[i]
    ensures WellMatched(lists)
  {
    if exists i :: 0 <= i < |lists| && None !in lists[i] {
      var q := FindLastNullFree(lists, |lists|);
    }
  }

  /** The documented form with a nested null refuses logs it should accept: `[[a, null]]` and topic `b`. */
  lemma NestedNullRefused(a: Hash, b: Hash)
    requires a != b
    ensures var topic := Multiple([Some(Multiple([Some(a), None]))]);
            !FilterTopics(Flatten(topic), [b]) && Means(topic, [b])
  {
    var topic: Topic := Multiple([Some(Multiple([Some(a), None]))]);
    var lists := Positions(topic.values);
    var cs := Product(lists);
    forall j | 0 <= j < |cs|
      ensures !Hit(cs[j], [b])
    {
      ProductMember(lists, cs[j]);
      assert cs[j][0] in lists[0];
      if cs[j][0].Some? {
        MissesFront(cs[j], [b], 0);
      }
    }
    ProductFirst(lists);
    TrimReaches(cs[0], 0);
    ScanNoHit(cs, [b], true);
  }
}
