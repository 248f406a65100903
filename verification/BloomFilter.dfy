/** The bloom prefilter of log queries, and why it never hides a log that the exact filter accepts. */
module BloomFilter {
  import opened Basics
  import opened Blooms
  import opened TopicFilter
  import BlockAssembly
  import Consensus

  datatype BlockRef = Num(number: nat) | Earliest | OtherRef

  datatype Filter = Filter(
    fromBlock: Option<BlockRef>, toBlock: Option<BlockRef>, blockHash: Option<Hash>,
    address: Option<Variadic<Hash>>, topics: Option<Topic>)

  datatype FilteredParams = FilteredParams(filter: Option<Filter>, flatTopics: seq<FlatTopic>)

  function NewParams(f: Option<Filter>): FilteredParams {
    FilteredParams(f, if f.Some? && f.value.topics.Some? then Flatten(f.value.topics.value) else [])
  }

  // The exact filter

  predicate FilterBlockRange(filter: Filter, number: nat) {
    && !(filter.fromBlock.Some? && filter.fromBlock.value.Num? && filter.fromBlock.value.number > number)
    && (filter.toBlock.Some? ==>
        && !(filter.toBlock.value.Num? && filter.toBlock.value.number < number)
        && !filter.toBlock.value.Earliest?)
  }

  predicate FilterBlockHash(filter: Filter, hash: Hash) {
    filter.blockHash.Some? ==> filter.blockHash.value == hash
  }

  predicate FilterAddress(filter: Filter, address: Hash) {
    match filter.address
    case Some(Single(x)) => address == x
    case Some(Multiple(xs)) => address in xs
    case Some(Null) => true
    case None => true
  }

  /** `is_not_filtered` */
  predicate IsNotFiltered(params: FilteredParams, number: nat, hash: Hash, log: EthLog) {
    params.filter.Some? ==>
      && FilterBlockRange(params.filter.value, number)
      && FilterBlockHash(params.filter.value, hash)
      && FilterAddress(params.filter.value, log.address)
      && FilterTopics(params.flatTopics, log.topics)
  }

  /** The blocks that a filter's range takes: from its lower number to its upper one; up to "earliest" means none. */
  lemma BlockRangeExact(f: Filter, n: nat)
    ensures FilterBlockRange(f, n) <==>
            && (forall lo: nat :: f.fromBlock == Some(Num(lo)) ==> lo <= n)
            && (forall hi: nat :: f.toBlock == Some(Num(hi)) ==> n <= hi)
            && f.toBlock != Some(Earliest)
  {
  }

  /** The addresses that a filter takes: any, this one, or one of these. */
  predicate TakesAddress(filter: Option<Variadic<Hash>>, address: Hash) {
    || filter == None || filter == Some(Null) || filter == Some(Single(address))
    || (filter.value.Multiple? && address in filter.value.values)
  }

  lemma FilterAddressExact(f: Filter, address: Hash)
    ensures FilterAddress(f, address) <==> TakesAddress(f.address, address)
  {
  }

  lemma FilterTopicsOf(f: Filter, topics: seq<Hash>)
    requires f.topics.Some? ==> WellMatched(TopicPositions(f.topics.value))
    ensures FilterTopics(NewParams(Some(f)).flatTopics, topics) <==>
            f.topics == None || Means(f.topics.value, topics)
  {
    if f.topics.Some? {
      FilterTopicsExact(f.topics.value);
    }
  }

  /** A well-matched filter accepts a log exactly when number, hash, address and every topic position agree. */
  lemma NotFilteredExact(f: Filter, number: nat, hash: Hash, log: EthLog)
    requires f.topics.Some? ==> WellMatched(TopicPositions(f.topics.value))
    ensures IsNotFiltered(NewParams(Some(f)), number, hash, log) <==>
            && (forall lo: nat :: f.fromBlock == Some(Num(lo)) ==> lo <= number)
            && (forall hi: nat :: f.toBlock == Some(Num(hi)) ==> number <= hi) && f.toBlock != Some(Earliest)
            && (f.blockHash == None || f.blockHash == Some(hash))
            && TakesAddress(f.address, log.address)
            && (f.topics == None || Means(f.topics.value, log.topics))
  {
    BlockRangeExact(f, number);
    FilterAddressExact(f, log.address);
    FilterTopicsOf(f, log.topics);
  }

  // The prefilter

  /** `None` stands for a wildcard. */
  type BloomSet = seq<Option<Bloom>>

  function AddressBlooms(bits: Bits, address: Option<Variadic<Hash>>): BloomSet {
    match address
    case None => []
    case Some(Single(a)) => [Some(bits(AddressBytes(a)))]
    case Some(Multiple(xs)) =>
      if xs == [] then [None]
      else seq(|xs|, i requires 0 <= i < |xs| => Some(bits(AddressBytes(xs[i]))))
    case Some(Null) => [None]
  }

  function TopicBloom(bits: Bits, topic: Option<Hash>): Option<Bloom> {
    match topic
    case Some(t) => Some(bits(TopicBytes(t)))
    case None => None
  }

  function FlatTopicBlooms(bits: Bits, flat: FlatTopic): BloomSet {
    match flat
    case Single(t) => [TopicBloom(bits, t)]
    case Multiple(ts) =>
      if ts == [] then [None] else seq(|ts|, i requires 0 <= i < |ts| => TopicBloom(bits, ts[i]))
    case Null => [None]
  }

  function TopicsBlooms(bits: Bits, flat: seq<FlatTopic>): seq<BloomSet> {
    seq(|flat|, i requires 0 <= i < |flat| => FlatTopicBlooms(bits, flat[i]))
  }

  predicate Contains(bloom: Bloom, el: Option<Bloom>) {
    el.Some? ==> el.value <= bloom
  }

  /** Some filter set is contained as a whole; an empty filter set never is. */
  method TopicsInBloom(bloom: Bloom, filters: seq<BloomSet>) returns (r: bool)
    ensures r <==> filters == [] ||
                   exists i :: 0 <= i < |filters| && |filters[i]| > 0 &&
                               forall k :: 0 <= k < |filters[i]| ==> Contains(bloom, filters[i][k])
  {
    if filters == [] {
      return true;
    }
    for i := 0 to |filters|
      invariant forall j :: 0 <= j < i ==>
        |filters[j]| == 0 || exists k :: 0 <= k < |filters[j]| && !Contains(bloom, filters[j][k])
    {
      var subset := filters[i];
      var matches := false;
      for k := 0 to |subset|
        invariant matches <==> k > 0
        invariant forall l :: 0 <= l < k ==> Contains(bloom, subset[l])
      {
        matches := Contains(bloom, subset[k]);
        if !matches {
          break;
        }
      }
      if matches {
        return true;
      }
    }
    return false;
  }

  method AddressInBloom(bloom: Bloom, filter: BloomSet) returns (r: bool)
    ensures r <==> filter == [] || exists i :: 0 <= i < |filter| && Contains(bloom, filter[i])
  {
    if filter == [] {
      return true;
    }
    for i := 0 to |filter|
      invariant forall j :: 0 <= j < i ==> !Contains(bloom, filter[j])
    {
      if Contains(bloom, filter[i]) {
        return true;
      }
    }
    return false;
  }

  // No false negatives

  predicate FlatInBloom(bits: Bits, bloom: Bloom, flat: FlatTopic) {
    var blooms := FlatTopicBlooms(bits, flat);
    |blooms| > 0 && forall k :: 0 <= k < |blooms| ==> Contains(bloom, blooms[k])
  }

  /** A yes from the exact matcher comes from some flat topic whose own blooms are all contained. */
  lemma {:induction false} ScanInBloom(bits: Bits, bloom: Bloom, flat: seq<FlatTopic>, topics: seq<Hash>, out: bool)
    requires forall t :: t in topics ==> bits(TopicBytes(t)) <= bloom
    requires Scan(flat, topics, out) && (flat == [] ==> !out)
    requires out ==> |flat| > 0
    ensures exists i :: 0 <= i < |flat| && FlatInBloom(bits, bloom, flat[i])
    decreases |flat|
  {
    var head, rest := flat[0], flat[1..];
    if FlatInBloom(bits, bloom, head) {
      assert FlatInBloom(bits, bloom, flat[0]);
    } else {
      var out' := NotInBloomStep(bits, bloom, flat, topics, out);
      ScanInBloom(bits, bloom, rest, topics, out');
      var i :| 0 <= i < |rest| && FlatInBloom(bits, bloom, rest[i]);
      assert FlatInBloom(bits, bloom, flat[i + 1]);
    }
  }

  /** A flat topic outside the bloom neither ends the scan with a yes nor leaves the verdict at yes. */
  lemma NotInBloomStep(bits: Bits, bloom: Bloom, flat: seq<FlatTopic>, topics: seq<Hash>, out: bool)
    returns (out': bool)
    requires forall t :: t in topics ==> bits(TopicBytes(t)) <= bloom
    requires |flat| > 0 && Scan(flat, topics, out) && !FlatInBloom(bits, bloom, flat[0])
    ensures out' == false && Scan(flat[1..], topics, out')
  {
    out' := false;
    match flat[0] {
      case Single(t) =>
        if t.Some? && StartsWith(topics, [t.value]) {
          assert topics[0] == topics[..1][0] == t.value;
        }
      case Multiple(ts) =>
        var c := Trim(ts);
        if ts != [] && |c| <= |topics| && Fits(c, topics) {
          forall k | 0 <= k < |ts|
            ensures Contains(bloom, TopicBloom(bits, ts[k]))
          {
            if k < |c| && ts[k].Some? {
              assert c[k] == ts[k] && topics[k] in topics;
            }
          }
        }
      case Null =>
    }
  }

  lemma AddressCovered(bits: Bits, bloom: Bloom, filter: Filter, address: Hash)
    requires FilterAddress(filter, address) && bits(AddressBytes(address)) <= bloom
    ensures var blooms := AddressBlooms(bits, filter.address);
            blooms == [] || exists i :: 0 <= i < |blooms| && Contains(bloom, blooms[i])
  {
    var blooms := AddressBlooms(bits, filter.address);
    match filter.address {
      case Some(Single(x)) => assert Contains(bloom, blooms[0]);
      case Some(Multiple(xs)) =>
        var i :| 0 <= i < |xs| && xs[i] == address;
        assert Contains(bloom, blooms[i]);
      case Some(Null) => assert Contains(bloom, blooms[0]);
      case None =>
    }
  }

  /** What the two prefilter checks ask of a block bloom, for any filter. */
  ghost predicate PassesPrefilter(bits: Bits, f: Option<Filter>, bloom: Bloom) {
    var blooms := AddressBlooms(bits, if f.Some? then f.value.address else None);
    var filters := TopicsBlooms(bits, NewParams(f).flatTopics);
    (blooms == [] || SomeContained(bloom, blooms)) && (filters == [] || SomeSetContained(bloom, filters))
  }

  ghost predicate SomeContained(bloom: Bloom, blooms: BloomSet) {
    exists i :: 0 <= i < |blooms| && Contains(bloom, blooms[i])
  }

  /** Some filter set is not empty and contained as a whole. */
  ghost predicate SomeSetContained(bloom: Bloom, filters: seq<BloomSet>) {
    exists i :: 0 <= i < |filters| && |filters[i]| > 0 &&
                forall k :: 0 <= k < |filters[i]| ==> Contains(bloom, filters[i][k])
  }

  /**
   * For any filter at all, nested nulls and empty lists included: a block whose bloom was accrued from logs that
   * include an accepted one passes both bloom checks.
   */
  lemma NoFalseNegatives(bits: Bits, f: Option<Filter>, number: nat, hash: Hash, logs: seq<EthLog>, log: EthLog)
    requires log in logs && IsNotFiltered(NewParams(f), number, hash, log)
    ensures PassesPrefilter(bits, f, LogsBloom(bits, logs))
  {
    var bloom := LogsBloom(bits, logs);
    LogsBloomCovers(bits, logs, log);
    if f.Some? {
      AddressCovered(bits, bloom, f.value, log.address);
      var flat := NewParams(f).flatTopics;
      if flat != [] {
        ScanInBloom(bits, bloom, flat, log.topics, true);
        var i :| 0 <= i < |flat| && FlatInBloom(bits, bloom, flat[i]);
        assert TopicsBlooms(bits, flat)[i] == FlatTopicBlooms(bits, flat[i]);
      }
    }
  }

  /** What the two methods compute, together. */
  method InBloom(bits: Bits, f: Option<Filter>, bloom: Bloom) returns (r: bool)
    ensures r <==> PassesPrefilter(bits, f, bloom)
  {
    r := AddressInBloom(bloom, AddressBlooms(bits, if f.Some? then f.value.address else None));
    if r {
      r := TopicsInBloom(bloom, TopicsBlooms(bits, NewParams(f).flatTopics));
    }
  }

  /** What the address check asks of a bloom: the bits of a listed address, unless the filter names none. */
  predicate AddressAllowed(bits: Bits, address: Option<Variadic<Hash>>, bloom: Bloom) {
    match address
    case None => true
    case Some(Null) => true
    case Some(Single(a)) => bits(AddressBytes(a)) <= bloom
    case Some(Multiple(xs)) => xs == [] || exists i :: 0 <= i < |xs| && bits(AddressBytes(xs[i])) <= bloom
  }

  /** What the topic check asks for one flat topic: the bits of every topic that it names. */
  predicate TopicAllowed(bits: Bits, flat: FlatTopic, bloom: Bloom) {
    match flat
    case Null => true
    case Single(t) => t.Some? ==> bits(TopicBytes(t.value)) <= bloom
    case Multiple(ts) => forall k :: 0 <= k < |ts| && ts[k].Some? ==> bits(TopicBytes(ts[k].value)) <= bloom
  }

  lemma FlatInBloomExact(bits: Bits, bloom: Bloom, flat: FlatTopic)
    ensures FlatInBloom(bits, bloom, flat) <==> TopicAllowed(bits, flat, bloom)
  {
    var blooms := FlatTopicBlooms(bits, flat);
    match flat {
      case Multiple(ts) =>
        if ts != [] {
          forall k | 0 <= k < |ts|
            ensures Contains(bloom, blooms[k]) <==> ts[k].None? || bits(TopicBytes(ts[k].value)) <= bloom
          {
          }
        }
      case Single(t) =>
        assert blooms == [TopicBloom(bits, t)] && FlatInBloom(bits, bloom, flat) == Contains(bloom, blooms[0]);
      case Null =>
    }
  }

  lemma AddressBloomsExact(bits: Bits, address: Option<Variadic<Hash>>, bloom: Bloom)
    ensures var blooms := AddressBlooms(bits, address);
            (blooms == [] || SomeContained(bloom, blooms)) <==> AddressAllowed(bits, address, bloom)
  {
    var blooms := AddressBlooms(bits, address);
    match address {
      case None =>
      case Some(Multiple(xs)) =>
        if xs == [] {
          assert Contains(bloom, blooms[0]);
        } else {
          assert forall i :: 0 <= i < |xs| ==> (Contains(bloom, blooms[i]) <==> bits(AddressBytes(xs[i])) <= bloom);
        }
      case Some(Single(a)) =>
        assert Contains(bloom, blooms[0]) <==> bits(AddressBytes(a)) <= bloom;
      case Some(Null) =>
        assert Contains(bloom, blooms[0]);
    }
  }

  /** The prefilter passes a block exactly when its bloom has the bits that the filter's addresses and topics need. */
  lemma PrefilterExact(bits: Bits, f: Option<Filter>, bloom: Bloom)
    ensures PassesPrefilter(bits, f, bloom) <==>
            && (f.Some? ==> AddressAllowed(bits, f.value.address, bloom))
            && var flat := NewParams(f).flatTopics;
               flat == [] || exists i :: 0 <= i < |flat| && TopicAllowed(bits, flat[i], bloom)
  {
    var flat := NewParams(f).flatTopics;
    AddressBloomsExact(bits, if f.Some? then f.value.address else None, bloom);
    TopicsBloomsExact(bits, flat, bloom);
    assert TopicsBlooms(bits, flat) == [] <==> flat == [];
  }

  lemma TopicsBloomsExact(bits: Bits, flat: seq<FlatTopic>, bloom: Bloom)
    ensures var filters := TopicsBlooms(bits, flat);
            SomeSetContained(bloom, filters) <==>
            exists i :: 0 <= i < |flat| && TopicAllowed(bits, flat[i], bloom)
  {
    var filters := TopicsBlooms(bits, flat);
    forall i | 0 <= i < |flat|
      ensures filters[i] == FlatTopicBlooms(bits, flat[i])
      ensures FlatInBloom(bits, bloom, flat[i]) <==> TopicAllowed(bits, flat[i], bloom)
    {
      FlatInBloomExact(bits, bloom, flat[i]);
    }
    if i :| 0 <= i < |filters| && |filters[i]| > 0 &&
            forall k :: 0 <= k < |filters[i]| ==> Contains(bloom, filters[i][k]) {
      assert FlatInBloom(bits, bloom, flat[i]);
    }
    if i :| 0 <= i < |flat| && TopicAllowed(bits, flat[i], bloom) {
      assert FlatInBloom(bits, bloom, flat[i]);
    }
  }

  /** From execution to query: a log of any execution in an assembled block is never hidden by the header's bloom. */
  lemma AssembledBlockNotHidden(hasher: Consensus.Hasher, bits: Bits, executions: seq<BlockAssembly.Execution>,
                                block: Consensus.EthBlock, receipts: seq<BlockAssembly.Receipt>,
                                statuses: seq<BlockAssembly.TransactionStatus>,
                                f: Option<Filter>, number: nat, hash: Hash, i: nat, log: EthLog)
    requires BlockAssembly.Assembled(hasher, bits, executions, block, receipts, statuses)
    requires i < |receipts| && log in receipts[i].logs && IsNotFiltered(NewParams(f), number, hash, log)
    ensures PassesPrefilter(bits, f, block.header.logsBloom)
  {
    assert receipts[i] == BlockAssembly.EntryFor(hasher, bits, executions, i).receipt;
    BlockAssembly.LogInAll(executions, i, log);
    NoFalseNegatives(bits, f, number, hash, BlockAssembly.AllLogs(executions), log);
  }
}
