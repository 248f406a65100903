/** The nesting guard of precompiles: recursion counters over arbitrary trees of nested calls. */
module PrecompileGuard {
  import opened Basics

  /** A call and the subcalls it would make; `checksPass` is the outcome of the common checks on its caller. */
  datatype Call = Call(address: Hash, checksPass: bool, succeeds: bool, subcalls: seq<Call>)

  /** Which addresses a fragment serves, its nesting limit (`None`: unlimited), and whether subcalls are allowed. */
  datatype Config = Config(covers: Hash -> bool, limit: Option<U16>, allowSubcalls: bool)

  datatype Verdict = NotServed | CheckFailed | TooDeep | CounterMissing | Ran(success: bool)

  /** A precompile frame starts or ends, or the guard turns a call away. */
  datatype Event = Enter(address: Hash) | Exit(address: Hash) | Refuse(address: Hash)

  type U16 = n: nat | n <= U16_MAX

  /** `+= 1` and `-= 1` on a `u16` counter, which wrap in a release build. */
  function Up(level: U16): U16 {
    (level + 1) % 0x1_0000
  }

  function Down(level: U16): U16 {
    (level + U16_MAX) % 0x1_0000
  }

  type Levels = map<Hash, U16>

  datatype Outcome = Outcome(levels: Levels, trace: seq<Event>, verdict: Verdict)

  function Level(levels: Levels, a: Hash): U16 {
    if a in levels then levels[a] else 0
  }

  /** One call, served by the fragment or passed on to other code that makes the same subcalls. */
  function Exec(cfg: Config, levels: Levels, call: Call): Outcome
    decreases call, 1
  {
    var a := call.address;
    if !cfg.covers(a) then
      var r := ExecAll(cfg, levels, call.subcalls);
      Outcome(r.0, r.1, NotServed)
    else if !call.checksPass then Outcome(levels, [], CheckFailed)
    else if cfg.limit.Some? && Level(levels, a) > cfg.limit.value then
      Outcome(levels[a := Level(levels, a)], [Refuse(a)], TooDeep)
    else
      var entered := if cfg.limit.Some? then levels[a := Up(Level(levels, a))] else levels;
      var r := if cfg.allowSubcalls then ExecAll(cfg, entered, call.subcalls) else (entered, []);
      var trace := [Enter(a)] + r.1 + [Exit(a)];
      if cfg.limit.None? then Outcome(r.0, trace, Ran(call.succeeds))
      else if a !in r.0 then Outcome(r.0, trace, CounterMissing)
      else Outcome(r.0[a := Down(r.0[a])], trace, Ran(call.succeeds))
  }

  function ExecAll(cfg: Config, levels: Levels, calls: seq<Call>): (Levels, seq<Event>)
    decreases calls, 0
  {
    if calls == [] then (levels, [])
    else
      var first := Exec(cfg, levels, calls[0]);
      var rest := ExecAll(cfg, first.levels, calls[1..]);
      (rest.0, first.trace + rest.1)
  }

  // The two fragments

  /** `PrecompileSetStartingWith`: one counter per address, created on first use. */
  class PrecompileSetStartingWith {
    const cfg: Config
    var levels: Levels

    constructor (cfg: Config)
      ensures this.cfg == cfg && levels == map[]
    {
      this.cfg, levels := cfg, map[];
    }

    method Execute(call: Call) returns (verdict: Verdict, ghost trace: seq<Event>)
      modifies this
      ensures Outcome(levels, trace, verdict) == Exec(cfg, old(levels), call)
      decreases call, 1
    {
      var a := call.address;
      if !cfg.covers(a) {
        trace := ExecuteAll(call.subcalls);
        return NotServed, trace;
      }
      if !call.checksPass {
        return CheckFailed, [];
      }
      if cfg.limit.Some? {
        var level := Level(levels, a);
        levels := levels[a := level];
        if level > cfg.limit.value {
          return TooDeep, [Refuse(a)];
        }
        levels := levels[a := Up(level)];
        assert levels == old(levels)[a := Up(level)];
      }
      ghost var inner := [];
      if cfg.allowSubcalls {
        inner := ExecuteAll(call.subcalls);
      }
      trace := [Enter(a)] + inner + [Exit(a)];
      if cfg.limit.Some? {
        if a !in levels {
          return CounterMissing, trace;
        }
        levels := levels[a := Down(levels[a])];
      }
      return Ran(call.succeeds), trace;
    }

    /** The subcalls of one frame, in order. */
    method ExecuteAll(calls: seq<Call>) returns (ghost trace: seq<Event>)
      modifies this
      ensures (levels, trace) == ExecAll(cfg, old(levels), calls)
      decreases calls, 0
    {
      trace := [];
      if calls != [] {
        var verdict, first := Execute(calls[0]);
        ghost var rest := ExecuteAll(calls[1..]);
        trace := first + rest;
      }
    }
  }

  function OneLevel(a: Hash, level: U16): Levels {
    map[a := level]
  }

  /** `PrecompileAt`: a single address and a single counter. */
  class PrecompileAt {
    const address: Hash
    const limit: Option<U16>
    const allowSubcalls: bool
    var level: U16

    constructor (address: Hash, limit: Option<U16>, allowSubcalls: bool)
      ensures this.address == address && this.limit == limit && this.allowSubcalls == allowSubcalls && level == 0
    {
      this.address, this.limit, this.allowSubcalls, level := address, limit, allowSubcalls, 0;
    }

    function Cfg(): (cfg: Config)
      ensures cfg.limit == limit && cfg.allowSubcalls == allowSubcalls
      ensures forall x: Hash :: cfg.covers(x) <==> x == address
    {
      var here := address;
      Config((x: Hash) => x == here, limit, allowSubcalls)
    }

    method Execute(call: Call) returns (verdict: Verdict, ghost trace: seq<Event>)
      modifies this
      ensures Outcome(OneLevel(address, level), trace, verdict) == Exec(Cfg(), OneLevel(address, old(level)), call)
      decreases call, 1
    {
      if call.address != address {
        trace := ExecuteAll(call.subcalls);
        return NotServed, trace;
      }
      if !call.checksPass {
        return CheckFailed, [];
      }
      if limit.Some? {
        if level > limit.value {
          assert OneLevel(address, level)[address := level] == OneLevel(address, level);
          return TooDeep, [Refuse(address)];
        }
        level := Up(level);
        assert OneLevel(address, old(level))[address := level] == OneLevel(address, level);
      }
      ghost var inner := [];
      if allowSubcalls {
        inner := ExecuteAll(call.subcalls);
      }
      trace := [Enter(address)] + inner + [Exit(address)];
      if limit.Some? {
        ghost var deep := OneLevel(address, level);
        level := Down(level);
        assert deep[address := level] == OneLevel(address, level);
      }
      return Ran(call.succeeds), trace;
    }

    method ExecuteAll(calls: seq<Call>) returns (ghost trace: seq<Event>)
      modifies this
      ensures (OneLevel(address, level), trace) == ExecAll(Cfg(), OneLevel(address, old(level)), calls)
      decreases calls, 0
    {
      trace := [];
      if calls != [] {
        var verdict, first := Execute(calls[0]);
        ghost var rest := ExecuteAll(calls[1..]);
        trace := first + rest;
      }
    }
  }

  // What the guard guarantees

  /** Frames of `a` that a trace has entered and not left. */
  function Active(trace: seq<Event>, a: Hash): int {
    if |trace| == 0 then 0
    else
      var last := trace[|trace| - 1];
      Active(trace[..|trace| - 1], a) + if last == Enter(a) then 1 else if last == Exit(a) then -1 else 0
  }

  lemma {:induction false} ActiveConcat(s: seq<Event>, t: seq<Event>, a: Hash)
    ensures Active(s + t, a) == Active(s, a) + Active(t, a)
  {
    if |t| == 0 {
      assert s + t == s;
    } else {
      var n := |t| - 1;
      assert (s + t)[..|s + t| - 1] == s + t[..n];
      ActiveConcat(s, t[..n], a);
    }
  }

  lemma ActiveOne(e: Event, a: Hash)
    ensures Active([e], a) == if e == Enter(a) then 1 else if e == Exit(a) then -1 else 0
  {
    assert [e][..0] == [];
  }

  ghost predicate SameLevels(before: Levels, after: Levels) {
    forall a {:trigger Level(after, a)} :: Level(after, a) == Level(before, a)
  }

  ghost predicate AllLeft(trace: seq<Event>) {
    forall a {:trigger Active(trace, a)} :: Active(trace, a) == 0
  }

  /** Every call, accepted or refused, returns with the counters it found, its frames left and its counter there. */
  lemma {:induction false} CountersRestored(cfg: Config, levels: Levels, call: Call)
    ensures var r := Exec(cfg, levels, call);
            && SameLevels(levels, r.levels) && levels.Keys <= r.levels.Keys
            && AllLeft(r.trace)
            && r.verdict != CounterMissing
    decreases call, 1
  {
    var a := call.address;
    var r := Exec(cfg, levels, call);
    if !cfg.covers(a) {
      CountersRestoredAll(cfg, levels, call.subcalls);
    } else if !call.checksPass {
    } else if cfg.limit.Some? && Level(levels, a) > cfg.limit.value {
      forall b
        ensures Active(r.trace, b) == 0
      {
        ActiveOne(Refuse(a), b);
      }
    } else {
      var entered := if cfg.limit.Some? then levels[a := Up(Level(levels, a))] else levels;
      CountersRestoredAll(cfg, entered, call.subcalls);
      var inner := if cfg.allowSubcalls then ExecAll(cfg, entered, call.subcalls) else (entered, []);
      NestLeft(a, inner.1);
      assert cfg.limit.Some? ==> a in inner.0 && Level(inner.0, a) == Up(Level(levels, a));
      forall b
        ensures Level(r.levels, b) == Level(levels, b)
      {
        assert Level(inner.0, b) == Level(entered, b);
      }
    }
  }

  lemma NestLeft(a: Hash, inner: seq<Event>)
    requires AllLeft(inner)
    ensures AllLeft([Enter(a)] + inner + [Exit(a)])
  {
    forall b
      ensures Active([Enter(a)] + inner + [Exit(a)], b) == 0
    {
      ActiveConcat([Enter(a)] + inner, [Exit(a)], b);
      ActiveConcat([Enter(a)], inner, b);
      ActiveOne(Enter(a), b);
      ActiveOne(Exit(a), b);
    }
  }

  lemma {:induction false} CountersRestoredAll(cfg: Config, levels: Levels, calls: seq<Call>)
    ensures var r := ExecAll(cfg, levels, calls);
            SameLevels(levels, r.0) && levels.Keys <= r.0.Keys && AllLeft(r.1)
    decreases calls, 0
  {
    if calls != [] {
      var first := Exec(cfg, levels, calls[0]);
      CountersRestored(cfg, levels, calls[0]);
      CountersRestoredAll(cfg, first.levels, calls[1..]);
      var rest := ExecAll(cfg, first.levels, calls[1..]);
      forall b
        ensures Level(rest.0, b) == Level(levels, b)
        ensures Active(first.trace + rest.1, b) == 0
      {
        assert Level(first.levels, b) == Level(levels, b);
        ActiveConcat(first.trace, rest.1, b);
      }
    }
  }

  /** A counter is raised from at most the limit, so below the largest limit it never wraps. */
  predicate NoWrap(cfg: Config) {
    cfg.limit.Some? ==> cfg.limit.value < U16_MAX
  }

  /**
   * The guard decides on true nesting: a frame of `a` is entered with at most `limit` frames of `a` active, and a
   * call to `a` is refused only with more than that; no other address plays a part.
   */
  ghost predicate DecidedAt(cfg: Config, levels: Levels, trace: seq<Event>, i: nat)
    requires i < |trace|
  {
    var active := Level(levels, trace[i].address) + Active(trace[..i], trace[i].address);
    && cfg.covers(trace[i].address)
    && (trace[i].Enter? && cfg.limit.Some? ==> active <= cfg.limit.value)
    && (trace[i].Refuse? ==> cfg.limit.Some? && active > cfg.limit.value)
    && (trace[i].Exit? ==> Active(trace[..i], trace[i].address) > 0)
  }

  ghost predicate Decided(cfg: Config, levels: Levels, trace: seq<Event>) {
    forall i {:trigger DecidedAt(cfg, levels, trace, i)} :: 0 <= i < |trace| ==> DecidedAt(cfg, levels, trace, i)
  }

  lemma DecidedConcat(cfg: Config, levels: Levels, later: Levels, s: seq<Event>, t: seq<Event>)
    requires Decided(cfg, levels, s) && AllLeft(s) && SameLevels(levels, later) && Decided(cfg, later, t)
    ensures Decided(cfg, levels, s + t)
  {
    var u := s + t;
    forall i | 0 <= i < |u|
      ensures DecidedAt(cfg, levels, u, i)
    {
      if i < |s| {
        assert DecidedAt(cfg, levels, s, i);
        assert u[..i] == s[..i];
      } else {
        var j := i - |s|;
        assert DecidedAt(cfg, later, t, j);
        assert u[..i] == s + t[..j];
        ActiveConcat(s, t[..j], t[j].address);
        assert Active(s, t[j].address) == 0;
        assert Level(later, t[j].address) == Level(levels, t[j].address);
      }
    }
  }

  /** A frame around decided subcalls is decided, its own counter having been one higher inside. */
  lemma DecidedNest(cfg: Config, levels: Levels, entered: Levels, a: Hash, inner: seq<Event>)
    requires cfg.covers(a) && NoWrap(cfg) && (cfg.limit.Some? ==> Level(levels, a) <= cfg.limit.value)
    requires entered == if cfg.limit.Some? then levels[a := Up(Level(levels, a))] else levels
    requires Decided(cfg, entered, inner) && AllLeft(inner)
    ensures Decided(cfg, levels, [Enter(a)] + inner + [Exit(a)])
  {
    var u := [Enter(a)] + inner + [Exit(a)];
    forall i | 0 <= i < |u|
      ensures DecidedAt(cfg, levels, u, i)
    {
      if i == 0 {
        assert u[..0] == [];
      } else if i <= |inner| {
        InnerDecided(cfg, levels, entered, a, inner, i - 1);
        assert u[..i] == [Enter(a)] + inner[..i - 1];
      } else {
        assert u[..i] == [Enter(a)] + inner;
        ActiveConcat([Enter(a)], inner, a);
        ActiveOne(Enter(a), a);
        assert Active(inner, a) == 0;
      }
    }
  }

  lemma InnerDecided(cfg: Config, levels: Levels, entered: Levels, a: Hash, inner: seq<Event>, j: nat)
    requires j < |inner| && Decided(cfg, entered, inner) && NoWrap(cfg)
    requires cfg.limit.Some? ==> Level(levels, a) <= cfg.limit.value
    requires entered == if cfg.limit.Some? then levels[a := Up(Level(levels, a))] else levels
    ensures var b := inner[j].address;
            var active := Level(levels, b) + Active([Enter(a)] + inner[..j], b);
            && cfg.covers(b)
            && (inner[j].Enter? && cfg.limit.Some? ==> active <= cfg.limit.value)
            && (inner[j].Refuse? ==> cfg.limit.Some? && active > cfg.limit.value)
            && (inner[j].Exit? ==> Active([Enter(a)] + inner[..j], b) > 0)
  {
    assert DecidedAt(cfg, entered, inner, j);
    ActiveConcat([Enter(a)], inner[..j], inner[j].address);
    ActiveOne(Enter(a), inner[j].address);
  }

  /** Over every finite tree of nested calls, each decision of the guard is right. */
  lemma {:induction false} GuardDecides(cfg: Config, levels: Levels, call: Call)
    requires NoWrap(cfg)
    ensures Decided(cfg, levels, Exec(cfg, levels, call).trace)
    decreases call, 1
  {
    var a := call.address;
    if !cfg.covers(a) {
      GuardDecidesAll(cfg, levels, call.subcalls);
    } else if !call.checksPass {
    } else if cfg.limit.Some? && Level(levels, a) > cfg.limit.value {
      assert [Refuse(a)][..0] == [];
    } else {
      var entered := if cfg.limit.Some? then levels[a := Up(Level(levels, a))] else levels;
      GuardDecidesAll(cfg, entered, call.subcalls);
      CountersRestoredAll(cfg, entered, call.subcalls);
      var inner := if cfg.allowSubcalls then ExecAll(cfg, entered, call.subcalls) else (entered, []);
      DecidedNest(cfg, levels, entered, a, inner.1);
    }
  }

  lemma {:induction false} GuardDecidesAll(cfg: Config, levels: Levels, calls: seq<Call>)
    requires NoWrap(cfg)
    ensures Decided(cfg, levels, ExecAll(cfg, levels, calls).1)
    decreases calls, 0
  {
    if calls != [] {
      var first := Exec(cfg, levels, calls[0]);
      GuardDecides(cfg, levels, calls[0]);
      CountersRestored(cfg, levels, calls[0]);
      GuardDecidesAll(cfg, first.levels, calls[1..]);
      DecidedConcat(cfg, levels, first.levels, first.trace, ExecAll(cfg, first.levels, calls[1..]).1);
    }
  }

  lemma {:induction false} ActiveBounded(cfg: Config, levels: Levels, trace: seq<Event>, a: Hash, k: nat)
    requires Decided(cfg, levels, trace) && k <= |trace| && cfg.limit.Some? && Level(levels, a) <= cfg.limit.value + 1
    ensures 0 <= Active(trace[..k], a)
    ensures Level(levels, a) + Active(trace[..k], a) <= cfg.limit.value + 1
  {
    if k > 0 {
      ActiveBounded(cfg, levels, trace, a, k - 1);
      assert trace[..k][..k - 1] == trace[..k - 1];
      assert DecidedAt(cfg, levels, trace, k - 1);
    }
  }

  /** From fresh counters, at no moment of any call are more than `limit + 1` frames of an address active. */
  lemma NestingBounded(cfg: Config, call: Call, a: Hash, k: nat)
    requires NoWrap(cfg) && cfg.limit.Some? && k <= |Exec(cfg, map[], call).trace|
    ensures 0 <= Active(Exec(cfg, map[], call).trace[..k], a) <= cfg.limit.value + 1
  {
    GuardDecides(cfg, map[], call);
    ActiveBounded(cfg, map[], Exec(cfg, map[], call).trace, a, k);
  }

  // Checks and verdicts

  /**
   * The verdict of a call: passed on if the address is not the fragment's; an error before anything else if its
   * checks fail; refused if too many frames of its address are counted; and otherwise the precompile's own result.
   */
  lemma VerdictExact(cfg: Config, levels: Levels, call: Call)
    ensures var r := Exec(cfg, levels, call);
            && (r.verdict == NotServed <==> !cfg.covers(call.address))
            && (r.verdict == CheckFailed <==> cfg.covers(call.address) && !call.checksPass)
            && (r.verdict == CheckFailed ==> r.trace == [] && r.levels == levels)
            && (r.verdict == TooDeep <==>
                cfg.covers(call.address) && call.checksPass &&
                exists limit :: cfg.limit == Some(limit) && Level(levels, call.address) > limit)
            && (r.verdict == TooDeep ==> r.trace == [Refuse(call.address)])
            && (forall b :: r.verdict == Ran(b) ==> b == call.succeeds)
            && (r.verdict.Ran? ==> |r.trace| >= 2 && r.trace[0] == Enter(call.address) &&
                                   r.trace[|r.trace| - 1] == Exit(call.address))
  {
    CountersRestored(cfg, levels, call);
  }

  /** How often an event occurs. */
  function Count(trace: seq<Event>, e: Event): nat {
    if |trace| == 0 then 0
    else Count(trace[..|trace| - 1], e) + if trace[|trace| - 1] == e then 1 else 0
  }

  lemma {:induction false} CountConcat(s: seq<Event>, t: seq<Event>, e: Event)
    ensures Count(s + t, e) == Count(s, e) + Count(t, e)
  {
    if |t| == 0 {
      assert s + t == s;
    } else {
      var n := |t| - 1;
      assert (s + t)[..|s + t| - 1] == s + t[..n];
      CountConcat(s, t[..n], e);
    }
  }

  lemma CountOne(x: Event, e: Event)
    ensures Count([x], e) == if x == e then 1 else 0
  {
    assert [x][..0] == [];
  }

  /**
   * The calls to `a` in a tree that their checks let through and that are made at all: those inside a served call
   * whose checks fail, or whose subcalls are disabled, are not.
   */
  function Admitted(cfg: Config, call: Call, a: Hash): nat
    decreases call, 1
  {
    if !cfg.covers(call.address) then AdmittedAll(cfg, call.subcalls, a)
    else if !call.checksPass then 0
    else (if call.address == a then 1 else 0) + if cfg.allowSubcalls then AdmittedAll(cfg, call.subcalls, a) else 0
  }

  function AdmittedAll(cfg: Config, calls: seq<Call>, a: Hash): nat
    decreases calls, 0
  {
    if calls == [] then 0 else Admitted(cfg, calls[0], a) + AdmittedAll(cfg, calls[1..], a)
  }

  /** The trace has at most `n` frames and refusals of `a`, and exactly `n` frames if there is no limit. */
  ghost predicate RunsOf(cfg: Config, trace: seq<Event>, a: Hash, n: nat) {
    && Count(trace, Enter(a)) + Count(trace, Refuse(a)) <= n
    && (cfg.limit.None? && cfg.covers(a) ==> Count(trace, Enter(a)) == n)
  }

  lemma FrameRuns(cfg: Config, b: Hash, inner: seq<Event>, a: Hash, n: nat)
    requires RunsOf(cfg, inner, a, n)
    ensures RunsOf(cfg, [Enter(b)] + inner + [Exit(b)], a, n + if b == a then 1 else 0)
  {
    NestCounts(b, inner, Enter(a));
    NestCounts(b, inner, Refuse(a));
  }

  lemma RunsConcat(cfg: Config, s: seq<Event>, t: seq<Event>, a: Hash, m: nat, n: nat)
    requires RunsOf(cfg, s, a, m) && RunsOf(cfg, t, a, n)
    ensures RunsOf(cfg, s + t, a, m + n)
  {
    CountConcat(s, t, Enter(a));
    CountConcat(s, t, Refuse(a));
  }

  lemma RefusalRuns(cfg: Config, b: Hash, a: Hash)
    requires cfg.limit.Some?
    ensures RunsOf(cfg, [Refuse(b)], a, if b == a then 1 else 0)
  {
    CountOne(Refuse(b), Enter(a));
    CountOne(Refuse(b), Refuse(a));
  }

  lemma NestCounts(b: Hash, inner: seq<Event>, e: Event)
    requires !e.Exit?
    ensures Count([Enter(b)] + inner + [Exit(b)], e) == Count(inner, e) + if e == Enter(b) then 1 else 0
  {
    CountConcat([Enter(b)] + inner, [Exit(b)], e);
    CountConcat([Enter(b)], inner, e);
    CountOne(Enter(b), e);
    CountOne(Exit(b), e);
  }

  /**
   * Over every tree: the frames of an address and the refusals are never more than the calls to it that their checks
   * let through, and without a limit every such call gets its frame.
   */
  lemma {:induction false} OnlyCheckedCallsRun(cfg: Config, levels: Levels, call: Call, a: Hash)
    ensures RunsOf(cfg, Exec(cfg, levels, call).trace, a, Admitted(cfg, call, a))
    decreases call, 1
  {
    var b := call.address;
    if !cfg.covers(b) {
      OnlyCheckedCallsRunAll(cfg, levels, call.subcalls, a);
    } else if !call.checksPass {
    } else if cfg.limit.Some? && Level(levels, b) > cfg.limit.value {
      RefusalRuns(cfg, b, a);
    } else {
      var entered := if cfg.limit.Some? then levels[b := Up(Level(levels, b))] else levels;
      if cfg.allowSubcalls {
        OnlyCheckedCallsRunAll(cfg, entered, call.subcalls, a);
        FrameRuns(cfg, b, ExecAll(cfg, entered, call.subcalls).1, a, AdmittedAll(cfg, call.subcalls, a));
      } else {
        FrameRuns(cfg, b, [], a, 0);
      }
    }
  }

  lemma {:induction false} OnlyCheckedCallsRunAll(cfg: Config, levels: Levels, calls: seq<Call>, a: Hash)
    ensures RunsOf(cfg, ExecAll(cfg, levels, calls).1, a, AdmittedAll(cfg, calls, a))
    decreases calls, 0
  {
    if calls != [] {
      var first := Exec(cfg, levels, calls[0]);
      OnlyCheckedCallsRun(cfg, levels, calls[0], a);
      OnlyCheckedCallsRunAll(cfg, first.levels, calls[1..], a);
      RunsConcat(cfg, first.trace, ExecAll(cfg, first.levels, calls[1..]).1, a,
                 Admitted(cfg, calls[0], a), AdmittedAll(cfg, calls[1..], a));
    }
  }

  // With subcalls disabled

  /** Frames of any address that a trace has entered and not left. */
  function AllActive(trace: seq<Event>): int {
    if |trace| == 0 then 0
    else
      var last := trace[|trace| - 1];
      AllActive(trace[..|trace| - 1]) + if last.Enter? then 1 else if last.Exit? then -1 else 0
  }

  lemma {:induction false} AllActiveConcat(s: seq<Event>, t: seq<Event>)
    ensures AllActive(s + t) == AllActive(s) + AllActive(t)
  {
    if |t| == 0 {
      assert s + t == s;
    } else {
      var n := |t| - 1;
      assert (s + t)[..|s + t| - 1] == s + t[..n];
      AllActiveConcat(s, t[..n]);
    }
  }

  /** At every moment at most one frame is active, and at the end none. */
  ghost predicate OneAtATime(trace: seq<Event>) {
    && AllActive(trace) == 0
    && forall k {:trigger trace[..k]} :: 0 <= k <= |trace| ==> 0 <= AllActive(trace[..k]) <= 1
  }

  lemma OneAtATimeConcat(s: seq<Event>, t: seq<Event>)
    requires OneAtATime(s) && OneAtATime(t)
    ensures OneAtATime(s + t)
  {
    AllActiveConcat(s, t);
    forall k | 0 <= k <= |s + t|
      ensures 0 <= AllActive((s + t)[..k]) <= 1
    {
      if k <= |s| {
        assert (s + t)[..k] == s[..k];
      } else {
        assert (s + t)[..k] == s + t[..k - |s|];
        AllActiveConcat(s, t[..k - |s|]);
      }
    }
  }

  lemma ShortTraces(a: Hash)
    ensures OneAtATime([]) && OneAtATime([Refuse(a)]) && OneAtATime([Enter(a)] + [] + [Exit(a)])
  {
    var refused, ran := [Refuse(a)], [Enter(a)] + [] + [Exit(a)];
    assert refused[..0] == [] && refused[..1] == refused;
    assert ran[..0] == [] && ran[..1] == [Enter(a)] && ran[..2] == ran && [Enter(a)][..0] == [];
  }

  /** With subcalls disabled, over every tree of calls, no two frames of any addresses are ever active together. */
  lemma {:induction false} NoSubcallsNoNesting(cfg: Config, levels: Levels, call: Call)
    requires !cfg.allowSubcalls
    ensures OneAtATime(Exec(cfg, levels, call).trace)
    decreases call, 1
  {
    ShortTraces(call.address);
    if !cfg.covers(call.address) {
      NoSubcallsNoNestingAll(cfg, levels, call.subcalls);
    }
  }

  lemma {:induction false} NoSubcallsNoNestingAll(cfg: Config, levels: Levels, calls: seq<Call>)
    requires !cfg.allowSubcalls
    ensures OneAtATime(ExecAll(cfg, levels, calls).1)
    decreases calls, 0
  {
    if calls == [] {
      ShortTraces(0);
    } else {
      var first := Exec(cfg, levels, calls[0]);
      NoSubcallsNoNesting(cfg, levels, calls[0]);
      NoSubcallsNoNestingAll(cfg, first.levels, calls[1..]);
      OneAtATimeConcat(first.trace, ExecAll(cfg, first.levels, calls[1..]).1);
    }
  }

  // The bound is exact

  /** A chain of `n` calls of `a`, each inside the one before. */
  function SelfNested(a: Hash, n: nat): Call {
    Call(a, true, true, if n == 0 then [] else [SelfNested(a, n - 1)])
  }

  /** A self-call that the guard lets in runs the rest of the chain inside its frame. */
  lemma SelfNestedTrace(cfg: Config, levels: Levels, a: Hash, n: nat)
    requires cfg.covers(a) && cfg.allowSubcalls && cfg.limit.Some? && Level(levels, a) <= cfg.limit.value && n > 0
    ensures var entered := levels[a := Up(Level(levels, a))];
            Exec(cfg, levels, SelfNested(a, n)).trace ==
            [Enter(a)] + Exec(cfg, entered, SelfNested(a, n - 1)).trace + [Exit(a)]
  {
    var entered := levels[a := Up(Level(levels, a))];
    var sub := SelfNested(a, n - 1);
    assert [sub][1..] == [];
    assert ExecAll(cfg, entered, [sub]).1 == Exec(cfg, entered, sub).trace + [];
  }

  /** The first `m + 1` frames of `a` are all active at once. */
  ghost predicate Deep(trace: seq<Event>, a: Hash, m: nat) {
    |trace| > m && Active(trace[..m + 1], a) == m + 1
  }

  lemma FirstFrame(cfg: Config, levels: Levels, a: Hash, n: nat)
    requires cfg.covers(a) && cfg.limit.Some? && Level(levels, a) <= cfg.limit.value
    ensures Deep(Exec(cfg, levels, SelfNested(a, n)).trace, a, 0)
  {
    var trace := Exec(cfg, levels, SelfNested(a, n)).trace;
    assert trace[..1] == [Enter(a)];
    ActiveOne(Enter(a), a);
  }

  lemma Deeper(inner: seq<Event>, a: Hash, m: nat)
    requires Deep(inner, a, m)
    ensures Deep([Enter(a)] + inner + [Exit(a)], a, m + 1)
  {
    assert ([Enter(a)] + inner + [Exit(a)])[..m + 2] == [Enter(a)] + inner[..m + 1];
    ActiveConcat([Enter(a)], inner[..m + 1], a);
    ActiveOne(Enter(a), a);
  }

  /** The first `m + 1` frames of a chain get in if the counter stays within the limit, or the limit is the largest. */
  lemma {:induction false} ChainRuns(cfg: Config, levels: Levels, a: Hash, n: nat, m: nat)
    requires cfg.covers(a) && cfg.allowSubcalls && cfg.limit.Some? && m <= n
    requires cfg.limit.value == U16_MAX || Level(levels, a) + m <= cfg.limit.value
    ensures Deep(Exec(cfg, levels, SelfNested(a, n)).trace, a, m)
    decreases m
  {
    if m == 0 {
      FirstFrame(cfg, levels, a, n);
    } else {
      var entered := levels[a := Up(Level(levels, a))];
      ChainRuns(cfg, entered, a, n - 1, m - 1);
      SelfNestedTrace(cfg, levels, a, n);
      Deeper(Exec(cfg, entered, SelfNested(a, n - 1)).trace, a, m - 1);
    }
  }

  /** The bound is reached: a deep enough chain of self-calls has exactly `limit + 1` frames active at once. */
  lemma BoundReached(cfg: Config, a: Hash, n: nat)
    requires cfg.covers(a) && cfg.allowSubcalls && cfg.limit.Some? && n >= cfg.limit.value
    ensures Deep(Exec(cfg, map[], SelfNested(a, n)).trace, a, cfg.limit.value)
  {
    ChainRuns(cfg, map[], a, n, cfg.limit.value);
  }

  /** The guard bounds nesting by `limit + 1` over every tree of calls exactly when the limit is below `u16::MAX`. */
  lemma NestingBoundedExactly(cfg: Config, a: Hash)
    requires cfg.covers(a) && cfg.allowSubcalls && cfg.limit.Some?
    ensures (forall call, k {:trigger Exec(cfg, map[], call).trace[..k]} ::
               0 <= k <= |Exec(cfg, map[], call).trace| ==>
                 Active(Exec(cfg, map[], call).trace[..k], a) <= cfg.limit.value + 1)
            <==> NoWrap(cfg)
  {
    if NoWrap(cfg) {
      forall call, k | 0 <= k <= |Exec(cfg, map[], call).trace|
        ensures Active(Exec(cfg, map[], call).trace[..k], a) <= cfg.limit.value + 1
      {
        NestingBounded(cfg, call, a, k);
      }
    } else {
      var n := U16_MAX + 1;
      ChainRuns(cfg, map[], a, n, n);
      assert Active(Exec(cfg, map[], SelfNested(a, n)).trace[..n + 1], a) == n + 1;
    }
  }

  // Trees of limited depth

  function Depth(call: Call): nat
    decreases call, 1
  {
    1 + DepthAll(call.subcalls)
  }

  function DepthAll(calls: seq<Call>): nat
    decreases calls, 0
  {
    if calls == [] then 0
    else
      var first, rest := Depth(calls[0]), DepthAll(calls[1..]);
      if first >= rest then first else rest
  }

  /** At no moment are more than `d` frames of an address active. */
  ghost predicate Within(trace: seq<Event>, d: nat) {
    forall k, a {:trigger Active(trace[..k], a)} :: 0 <= k <= |trace| ==> Active(trace[..k], a) <= d
  }

  lemma WithinConcat(s: seq<Event>, t: seq<Event>, d: nat)
    requires Within(s, d) && Within(t, d) && AllLeft(s)
    ensures Within(s + t, d)
  {
    forall k, a | 0 <= k <= |s + t|
      ensures Active((s + t)[..k], a) <= d
    {
      if k <= |s| {
        assert (s + t)[..k] == s[..k];
      } else {
        assert (s + t)[..k] == s + t[..k - |s|];
        ActiveConcat(s, t[..k - |s|], a);
        assert Active(s, a) == 0;
      }
    }
  }

  lemma WithinNest(a: Hash, inner: seq<Event>, d: nat)
    requires Within(inner, d) && AllLeft(inner)
    ensures Within([Enter(a)] + inner + [Exit(a)], d + 1)
  {
    var u := [Enter(a)] + inner + [Exit(a)];
    NestLeft(a, inner);
    forall k, b | 0 <= k <= |u|
      ensures Active(u[..k], b) <= d + 1
    {
      if k == 0 {
        assert u[..0] == [];
      } else if k <= |inner| + 1 {
        assert u[..k] == [Enter(a)] + inner[..k - 1];
        ActiveConcat([Enter(a)], inner[..k - 1], b);
        ActiveOne(Enter(a), b);
      } else {
        assert u[..k] == u;
        assert Active(u, b) == 0;
      }
    }
  }

  lemma ShortWithin(a: Hash, d: nat)
    ensures Within([], d) && Within([Refuse(a)], d)
  {
    assert [Refuse(a)][..0] == [] && [Refuse(a)][..1] == [Refuse(a)];
    forall b
      ensures Active([Refuse(a)], b) == 0
    {
      ActiveOne(Refuse(a), b);
    }
  }

  lemma WithinMore(trace: seq<Event>, d: nat, d': nat)
    requires Within(trace, d) && d <= d'
    ensures Within(trace, d')
  {
  }

  /** Frames never nest deeper than the calls do. */
  lemma {:induction false} DepthBoundsNesting(cfg: Config, levels: Levels, call: Call)
    ensures Within(Exec(cfg, levels, call).trace, Depth(call))
    decreases call, 1
  {
    var a := call.address;
    ShortWithin(a, Depth(call));
    if !cfg.covers(a) {
      DepthBoundsNestingAll(cfg, levels, call.subcalls);
      WithinMore(ExecAll(cfg, levels, call.subcalls).1, DepthAll(call.subcalls), Depth(call));
    } else if call.checksPass && !(cfg.limit.Some? && Level(levels, a) > cfg.limit.value) {
      var entered := if cfg.limit.Some? then levels[a := Up(Level(levels, a))] else levels;
      DepthBoundsNestingAll(cfg, entered, call.subcalls);
      CountersRestoredAll(cfg, entered, call.subcalls);
      ShortWithin(a, DepthAll(call.subcalls));
      var inner := if cfg.allowSubcalls then ExecAll(cfg, entered, call.subcalls).1 else [];
      WithinNest(a, inner, DepthAll(call.subcalls));
    }
  }

  lemma {:induction false} DepthBoundsNestingAll(cfg: Config, levels: Levels, calls: seq<Call>)
    ensures Within(ExecAll(cfg, levels, calls).1, DepthAll(calls))
    decreases calls, 0
  {
    if calls == [] {
      ShortWithin(0, 0);
    } else {
      var first := Exec(cfg, levels, calls[0]);
      var rest := ExecAll(cfg, first.levels, calls[1..]).1;
      DepthBoundsNesting(cfg, levels, calls[0]);
      DepthBoundsNestingAll(cfg, first.levels, calls[1..]);
      CountersRestored(cfg, levels, calls[0]);
      WithinMore(first.trace, Depth(calls[0]), DepthAll(calls));
      WithinMore(rest, DepthAll(calls[1..]), DepthAll(calls));
      WithinConcat(first.trace, rest, DepthAll(calls));
    }
  }

  /** For trees that are at most 65536 calls deep (an EVM stops at 1024), every limit bounds nesting. */
  lemma ShallowTreesBounded(cfg: Config, call: Call, a: Hash, k: nat)
    requires cfg.limit.Some? && Depth(call) <= U16_MAX + 1 && k <= |Exec(cfg, map[], call).trace|
    ensures Active(Exec(cfg, map[], call).trace[..k], a) <= Min(cfg.limit.value + 1, Depth(call))
  {
    DepthBoundsNesting(cfg, map[], call);
    if NoWrap(cfg) {
      NestingBounded(cfg, call, a, k);
    }
  }
}
