/** Ethereum logs and the bloom that a block accrues from them (Yellow Paper, section 4.4.1). */
module Blooms {
  import opened Basics

  datatype EthLog = EthLog(address: Hash, topics: seq<Hash>, data: nat)

  /** What is hashed into a bloom: the raw bytes of an address or of a topic. */
  datatype BloomInput = AddressBytes(address: Hash) | TopicBytes(topic: Hash)

  /** A bloom is the set of its one bits; `Bits` is the (arbitrary) choice of bits for an input. */
  type Bloom = set<nat>
  type Bits = BloomInput -> set<nat>

  function TopicsBloom(bits: Bits, topics: seq<Hash>): Bloom {
    if topics == [] then {}
    else TopicsBloom(bits, topics[..|topics| - 1]) + bits(TopicBytes(topics[|topics| - 1]))
  }

  function LogBloom(bits: Bits, log: EthLog): Bloom {
    bits(AddressBytes(log.address)) + TopicsBloom(bits, log.topics)
  }

  function LogsBloom(bits: Bits, logs: seq<EthLog>): Bloom {
    if logs == [] then {} else LogsBloom(bits, logs[..|logs| - 1]) + LogBloom(bits, logs[|logs| - 1])
  }

  /** `logs_bloom`: accrues every address and topic into `bloom`. */
  method AccrueLogs(bits: Bits, logs: seq<EthLog>, bloom: Bloom) returns (accrued: Bloom)
    ensures accrued == bloom + LogsBloom(bits, logs)
  {
    accrued := bloom;
    for i := 0 to |logs|
      invariant accrued == bloom + LogsBloom(bits, logs[..i])
    {
      var topics := logs[i].topics;
      accrued := accrued + bits(AddressBytes(logs[i].address));
      for j := 0 to |topics|
        invariant accrued ==
          bloom + LogsBloom(bits, logs[..i]) + bits(AddressBytes(logs[i].address)) + TopicsBloom(bits, topics[..j])
      {
        assert topics[..j + 1][..j] == topics[..j];
        accrued := accrued + bits(TopicBytes(topics[j]));
      }
      assert topics[..|topics|] == topics;
      assert logs[..i + 1][..i] == logs[..i];
    }
    assert logs[..|logs|] == logs;
  }

  lemma {:induction false} TopicsBloomExact(bits: Bits, topics: seq<Hash>, b: nat)
    ensures b in TopicsBloom(bits, topics) <==> exists t :: t in topics && b in bits(TopicBytes(t))
  {
    if topics != [] {
      var n := |topics| - 1;
      TopicsBloomExact(bits, topics[..n], b);
      assert forall t :: t in topics <==> t in topics[..n] || t == topics[n];
    }
  }

  lemma {:induction false} LogsBloomMember(bits: Bits, logs: seq<EthLog>, b: nat)
    ensures b in LogsBloom(bits, logs) <==> exists log :: log in logs && b in LogBloom(bits, log)
  {
    if logs != [] {
      var n := |logs| - 1;
      LogsBloomMember(bits, logs[..n], b);
      assert forall log :: log in logs <==> log in logs[..n] || log == logs[n];
    }
  }

  /** The address or a topic of the log sets bit `b`. */
  ghost predicate SetsBit(bits: Bits, log: EthLog, b: nat) {
    b in bits(AddressBytes(log.address)) || exists t :: t in log.topics && b in bits(TopicBytes(t))
  }

  /** A bit is set exactly when some log's address or topic sets it: nothing is lost and nothing is added. */
  lemma LogsBloomExact(bits: Bits, logs: seq<EthLog>, b: nat)
    ensures b in LogsBloom(bits, logs) <==> exists log :: log in logs && SetsBit(bits, log, b)
  {
    LogsBloomMember(bits, logs, b);
    forall log: EthLog
      ensures b in LogBloom(bits, log) <==> SetsBit(bits, log, b)
    {
      TopicsBloomExact(bits, log.topics, b);
    }
  }

  lemma LogsBloomCovers(bits: Bits, logs: seq<EthLog>, log: EthLog)
    requires log in logs
    ensures bits(AddressBytes(log.address)) <= LogsBloom(bits, logs)
    ensures forall t :: t in log.topics ==> bits(TopicBytes(t)) <= LogsBloom(bits, logs)
  {
    forall b | SetsBit(bits, log, b)
      ensures b in LogsBloom(bits, logs)
    {
      LogsBloomExact(bits, logs, b);
    }
    forall b | b in bits(AddressBytes(log.address))
      ensures b in LogsBloom(bits, logs)
    {
      assert SetsBit(bits, log, b);
    }
    forall t, b | t in log.topics && b in bits(TopicBytes(t))
      ensures b in LogsBloom(bits, logs)
    {
      assert SetsBit(bits, log, b);
    }
  }

  lemma {:induction false} LogsBloomConcat(bits: Bits, a: seq<EthLog>, b: seq<EthLog>)
    ensures LogsBloom(bits, a + b) == LogsBloom(bits, a) + LogsBloom(bits, b)
  {
    if b == [] {
      assert a + b == a;
    } else {
      var n := |b| - 1;
      assert (a + b)[..|a + b| - 1] == a + b[..n];
      LogsBloomConcat(bits, a, b[..n]);
    }
  }
}
