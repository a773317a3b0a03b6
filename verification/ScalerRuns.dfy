/** A scaling policy over time (src/constellation/autoscale/scaler.c). */
module ScalerRuns {
  // The clock is a function of how often it has been read; whether a rule's metric fires is an
  // input.

  datatype Direction = Up | Down | NoDirection

  datatype Rule = Rule(direction: Direction, adjustment: int, enabled: bool)

  datatype Event = Event(direction: Direction, adjustment: int, before: int, after: int, timestamp: int)

  datatype Policy = Policy(
    min: int, max: int, current: int,
    rules: seq<Rule>,
    upCooldown: int, downCooldown: int,
    lastUp: int, lastDown: int,
    upCount: nat, downCount: nat, evaluations: nat,
    enabled: bool)

  /** The outside world: clock readings, and whether a rule fires when so many were made. */
  datatype World = World(clock: nat -> int, fires: (nat, nat) -> bool)

  /** `log` holds every scaling event since the start, oldest first. */
  datatype State = State(policy: Policy, log: seq<Event>, ticks: nat)

  function Cooldown(p: Policy, d: Direction): int {
    if d == Up then p.upCooldown else p.downCooldown
  }

  function Last(p: Policy, d: Direction): int {
    if d == Up then p.lastUp else p.lastDown
  }

  predicate InCooldown(p: Policy, d: Direction, now: int) {
    Last(p, d) != 0 && now - Last(p, d) < Cooldown(p, d)
  }

  function Clamp(p: Policy, n: int): int {
    var atLeast := if n < p.min then p.min else n;
    if atLeast > p.max then p.max else atLeast
  }

  function Target(p: Policy, d: Direction, adjustment: int): int {
    Clamp(p, if d == Up then p.current + adjustment else p.current - adjustment)
  }

  function Moved(p: Policy, d: Direction, count: int, now: int): Policy {
    if d == Up then p.(current := count, lastUp := now, upCount := p.upCount + 1)
    else p.(current := count, lastDown := now, downCount := p.downCount + 1)
  }

  /** The event is stamped with one reading of the clock and the policy with the next. */
  function Scale(w: World, s: State, d: Direction, adjustment: int): State {
    var count := Target(s.policy, d, adjustment);
    if d == NoDirection || count == s.policy.current then s
    else
      State(Moved(s.policy, d, count, w.clock(s.ticks + 1)),
            s.log + [Event(d, adjustment, s.policy.current, count, w.clock(s.ticks))], s.ticks + 2)
  }

  function CheckRule(w: World, s: State, i: nat): State
    requires i < |s.policy.rules|
  {
    var rule := s.policy.rules[i];
    if !rule.enabled then s
    else
      var read := s.(ticks := s.ticks + 1);
      if InCooldown(s.policy, rule.direction, w.clock(s.ticks)) || !w.fires(i, read.ticks) then read
      else Scale(w, read, rule.direction, rule.adjustment)
  }

  function CheckFrom(w: World, s: State, i: nat): State
    decreases |s.policy.rules| - i
  {
    if i >= |s.policy.rules| then s else CheckFrom(w, CheckRule(w, s, i), i + 1)
  }

  function Evaluate(w: World, s: State): State {
    if !s.policy.enabled then s
    else CheckFrom(w, Counted(s), 0)
  }

  function Counted(s: State): State {
    s.(policy := s.policy.(evaluations := s.policy.evaluations + 1))
  }

  function Run(w: World, s: State, evaluations: nat): State {
    if evaluations == 0 then s else Evaluate(w, Run(w, s, evaluations - 1))
  }

  // ---------- What every step keeps ----------

  /** Readings are positive and never go back. */
  ghost predicate GoodClock(w: World) {
    (forall i :: w.clock(i) > 0) && forall i, j :: i <= j ==> w.clock(i) <= w.clock(j)
  }

  /** The times of the events in one direction, oldest first. */
  function Times(log: seq<Event>, d: Direction): seq<int> {
    if log == [] then []
    else
      var earlier := Times(log[..|log| - 1], d);
      if log[|log| - 1].direction == d then earlier + [log[|log| - 1].timestamp] else earlier
  }

  /** Neighbouring times are at least `gap` apart. */
  predicate Spaced(times: seq<int>, gap: int) {
    forall i :: 0 < i < |times| ==> times[i] - times[i - 1] >= gap
  }

  /** The last event of a direction is no later than the time the policy remembers, which has
      already passed. */
  ghost predicate Remembers(w: World, s: State, d: Direction) {
    var times := Times(s.log, d);
    && Spaced(times, Cooldown(s.policy, d))
    && (times != [] ==>
         s.ticks > 0 && 0 < times[|times| - 1] <= Last(s.policy, d) <= w.clock(s.ticks - 1))
  }

  predicate InRange(p: Policy) {
    p.min <= p.current <= p.max
  }

  /** Every event starts where the one before it ended and changes the count within the limits. */
  predicate Chained(p: Policy, log: seq<Event>) {
    && (log != [] ==> log[|log| - 1].after == p.current)
    && (forall i :: 0 < i < |log| ==> log[i].before == log[i - 1].after)
    && (forall e :: e in log ==> e.direction != NoDirection && e.before != e.after && p.min <= e.after <= p.max)
  }

  ghost predicate Inv(w: World, s: State) {
    InRange(s.policy) && Chained(s.policy, s.log) && Remembers(w, s, Up) && Remembers(w, s, Down)
  }

  lemma {:induction false} TimesGrow(log: seq<Event>, e: Event, d: Direction)
    ensures Times(log + [e], d) == Times(log, d) + (if e.direction == d then [e.timestamp] else [])
  {
    assert (log + [e])[..|log|] == log;
  }

  lemma {:induction false} ReadKeeps(w: World, s: State, d: Direction)
    requires GoodClock(w) && Remembers(w, s, d)
    ensures Remembers(w, s.(ticks := s.ticks + 1), d)
  {
    if s.ticks > 0 { assert w.clock(s.ticks - 1) <= w.clock(s.ticks); }
  }

  /** Scaling in a direction whose cooldown is over keeps its events spaced. */
  lemma {:induction false} ScaleSpaces(w: World, s: State, d: Direction, adjustment: int)
    requires GoodClock(w) && Remembers(w, s, d) && s.ticks > 0 && d != NoDirection
    requires !InCooldown(s.policy, d, w.clock(s.ticks - 1))
    ensures Remembers(w, Scale(w, s, d, adjustment), d)
  {
    var r := Scale(w, s, d, adjustment);
    if r != s {
      var e := r.log[|s.log|];
      TimesGrow(s.log, e, d);
      assert w.clock(s.ticks - 1) <= w.clock(s.ticks) <= w.clock(s.ticks + 1);
      assert w.clock(s.ticks) > 0;
      hide Times;
      var times := Times(s.log, d);
      assert Times(r.log, d) == times + [e.timestamp];
    }
  }

  /** It does not touch the other direction. */
  lemma {:induction false} ScaleKeepsOther(w: World, s: State, d: Direction, adjustment: int, other: Direction)
    requires GoodClock(w) && Remembers(w, s, other) && d != other && other != NoDirection
    ensures Remembers(w, Scale(w, s, d, adjustment), other)
  {
    var r := Scale(w, s, d, adjustment);
    if r != s {
      TimesGrow(s.log, r.log[|s.log|], other);
      if s.ticks > 0 { assert w.clock(s.ticks - 1) <= w.clock(s.ticks + 1); }
    }
  }

  lemma {:induction false} ScaleStaysInRange(w: World, s: State, d: Direction, adjustment: int)
    requires InRange(s.policy) && Chained(s.policy, s.log)
    ensures var r := Scale(w, s, d, adjustment); InRange(r.policy) && Chained(r.policy, r.log)
  {
    var r := Scale(w, s, d, adjustment);
    if r != s {
      forall i | 0 < i < |r.log| ensures r.log[i].before == r.log[i - 1].after {
        if i < |s.log| { assert r.log[i] == s.log[i] && r.log[i - 1] == s.log[i - 1]; }
      }
    }
  }

  lemma {:induction false} RuleKeepsInv(w: World, s: State, i: nat)
    requires GoodClock(w) && Inv(w, s) && i < |s.policy.rules|
    ensures Inv(w, CheckRule(w, s, i))
  {
    var rule := s.policy.rules[i];
    var read := s.(ticks := s.ticks + 1);
    ReadKeeps(w, s, Up);
    ReadKeeps(w, s, Down);
    if rule.enabled && !InCooldown(s.policy, rule.direction, w.clock(s.ticks)) && w.fires(i, read.ticks) {
      hide Remembers, Chained;
      ScaleStaysInRange(w, read, rule.direction, rule.adjustment);
      if rule.direction == Up {
        ScaleSpaces(w, read, Up, rule.adjustment);
        ScaleKeepsOther(w, read, Up, rule.adjustment, Down);
      } else if rule.direction == Down {
        ScaleSpaces(w, read, Down, rule.adjustment);
        ScaleKeepsOther(w, read, Down, rule.adjustment, Up);
      }
    }
  }

  /** Limits, rules and cooldowns are never changed by an evaluation. */
  predicate SameLimits(p: Policy, q: Policy) {
    p.min == q.min && p.max == q.max && p.rules == q.rules
    && p.upCooldown == q.upCooldown && p.downCooldown == q.downCooldown && p.enabled == q.enabled
  }

  lemma {:induction false} RuleKeepsRules(w: World, s: State, i: nat)
    requires i < |s.policy.rules|
    ensures SameLimits(CheckRule(w, s, i).policy, s.policy)
  {
  }

  lemma {:induction false} RulesKeepInv(w: World, s: State, i: nat)
    requires GoodClock(w) && Inv(w, s)
    ensures Inv(w, CheckFrom(w, s, i))
    decreases |s.policy.rules| - i
  {
    if i < |s.policy.rules| {
      hide Inv, CheckRule, GoodClock;
      RuleKeepsInv(w, s, i);
      RuleKeepsRules(w, s, i);
      RulesKeepInv(w, CheckRule(w, s, i), i + 1);
    }
  }

  lemma {:induction false} RulesKeepLimits(w: World, s: State, i: nat)
    ensures SameLimits(CheckFrom(w, s, i).policy, s.policy)
    decreases |s.policy.rules| - i
  {
    if i < |s.policy.rules| {
      hide CheckRule;
      RuleKeepsRules(w, s, i);
      RulesKeepLimits(w, CheckRule(w, s, i), i + 1);
    }
  }

  lemma {:induction false} CountKeepsInv(w: World, s: State)
    requires Inv(w, s)
    ensures Inv(w, Counted(s))
  {
  }

  lemma {:induction false} EvaluateKeepsInv(w: World, s: State)
    requires GoodClock(w) && Inv(w, s)
    ensures Inv(w, Evaluate(w, s)) && SameLimits(Evaluate(w, s).policy, s.policy)
  {
    if s.policy.enabled {
      var s' := Counted(s);
      CountKeepsInv(w, s);
      hide Inv, CheckFrom, GoodClock;
      RulesKeepInv(w, s', 0);
      RulesKeepLimits(w, s', 0);
    }
  }

  /** In every run the count stays within the limits, the events chain up, and events of one
      direction are a cooldown apart. */
  lemma {:induction false} RunKeepsInv(w: World, s: State, n: nat)
    requires GoodClock(w) && Inv(w, s)
    ensures Inv(w, Run(w, s, n)) && SameLimits(Run(w, s, n).policy, s.policy)
  {
    if n > 0 {
      RunKeepsInv(w, s, n - 1);
      EvaluateKeepsInv(w, Run(w, s, n - 1));
    }
  }

  // ---------- Windows ----------

  lemma {:induction false} SpacedApart(times: seq<int>, gap: int, i: nat, j: nat)
    requires Spaced(times, gap) && i <= j < |times|
    ensures times[j] - times[i] >= (j - i) * gap
    decreases j
  {
    if i < j {
      SpacedApart(times, gap, i, j - 1);
      assert (j - i) * gap == (j - 1 - i) * gap + gap;
    }
  }

  /** The places of the times from `start` to `start + width`. */
  function InWindow(times: seq<int>, start: int, width: nat): set<int> {
    set i | 0 <= i < |times| && start <= times[i] <= start + width
  }

  function Interval(low: int, n: nat): set<int> {
    if n == 0 then {} else Interval(low, n - 1) + {low + n - 1}
  }

  lemma {:induction false} IntervalMembers(low: int, n: nat, i: int)
    ensures i in Interval(low, n) <==> low <= i < low + n
  {
    if n > 0 { IntervalMembers(low, n - 1, i); }
  }

  lemma {:induction false} IntervalSize(low: int, n: nat)
    ensures |Interval(low, n)| == n
  {
    if n > 0 {
      IntervalSize(low, n - 1);
      IntervalMembers(low, n - 1, low + n - 1);
    }
  }

  lemma {:induction false} SubsetSize(a: set<int>, b: set<int>)
    requires a <= b
    ensures |a| <= |b|
  {
    assert b == a + (b - a);
  }

  lemma {:induction false} DivBound(k: nat, gap: int, width: nat)
    requires gap > 0 && k * gap <= width
    ensures k <= width / gap
  {
    assert width == gap * (width / gap) + width % gap;
    Quotients(k, width / gap, gap, width % gap);
  }

  lemma {:induction false} Quotients(k: nat, q: nat, gap: int, r: nat)
    requires gap > 0 && r < gap && k * gap <= gap * q + r
    ensures k <= q
  {
    assert (k - q) * gap == k * gap - gap * q;
    MultipleIsFar(k - q, gap);
  }

  lemma {:induction false} MultipleIsFar(d: int, gap: int)
    requires gap > 0
    ensures d >= 1 ==> d * gap >= gap
  {
    if d >= 1 { assert (d - 1) * gap >= 0; }
  }

  lemma {:induction false} Near(times: seq<int>, gap: int, width: nat, p: nat, i: nat)
    requires gap > 0 && Spaced(times, gap) && p <= i < |times| && times[i] - times[p] <= width
    ensures i - p <= width / gap
  {
    SpacedApart(times, gap, p, i);
    DivBound(i - p, gap, width);
  }

  /** Times a gap apart: at most `width / gap + 1` of them lie in any window that wide. */
  lemma {:induction false} WindowBound(times: seq<int>, gap: int, start: int, width: nat)
    requires gap > 0 && Spaced(times, gap)
    ensures |InWindow(times, start, width)| <= width / gap + 1
  {
    hide InWindow, Interval, Spaced;
    var inside := InWindow(times, start, width);
    if inside != {} {
      var p := LeastOf(times, start, width);
      InsideFits(times, gap, start, width, p);
      SubsetSize(inside, Interval(p, width / gap + 1));
      IntervalSize(p, width / gap + 1);
    }
  }

  lemma {:induction false} InsideFits(times: seq<int>, gap: int, start: int, width: nat, p: int)
    requires gap > 0 && Spaced(times, gap) && p in InWindow(times, start, width)
    requires forall i :: i in InWindow(times, start, width) ==> p <= i
    ensures InWindow(times, start, width) <= Interval(p, width / gap + 1)
  {
    forall i | i in InWindow(times, start, width) ensures i in Interval(p, width / gap + 1) {
      Near(times, gap, width, p, i);
      IntervalMembers(p, width / gap + 1, i);
    }
  }

  lemma {:induction false} LeastOf(times: seq<int>, start: int, width: nat) returns (p: int)
    requires InWindow(times, start, width) != {}
    ensures p in InWindow(times, start, width)
    ensures forall i :: i in InWindow(times, start, width) ==> p <= i
  {
    p := 0;
    while p !in InWindow(times, start, width)
      invariant 0 <= p <= |times|
      invariant forall i :: i in InWindow(times, start, width) ==> p <= i
      decreases |times| - p
    {
      var i :| i in InWindow(times, start, width);
      p := p + 1;
    }
  }

  /** Any window of `width` seconds contains at most `width / cooldown + 1` scalings in one
      direction, over runs of any length from a policy that has not scaled yet. */
  lemma {:induction false} ScalingsInWindow(w: World, p: Policy, n: nat, d: Direction, start: int, width: nat)
    requires GoodClock(w) && InRange(p) && d != NoDirection && Cooldown(p, d) > 0
    ensures var r := Run(w, State(p, [], 0), n);
      && InRange(r.policy)
      && |InWindow(Times(r.log, d), start, width)| <= width / Cooldown(p, d) + 1
  {
    var s := State(p, [], 0);
    RunKeepsInv(w, s, n);
    WindowBound(Times(Run(w, s, n).log, d), Cooldown(p, d), start, width);
  }

  // ---------- Where it fails ----------

  /** One rule that adds an instance and always fires, with room for `most` of them. */
  function Growing(most: nat, cooldown: int, current: nat): Policy {
    Policy(0, most, current, [Rule(Up, 1, true)], cooldown, cooldown, 0, 0, current, 0, current, true)
  }

  const ZERO_WORLD := World(i => 0, (i, ticks) => true)

  /** A clock that reads 0 never starts a cooldown: any number of scalings can come at once. */
  lemma {:induction false} ClockAtZero(most: nat, cooldown: int, n: nat)
    requires n <= most
    ensures var r := Run(ZERO_WORLD, State(Growing(most, cooldown, 0), [], 0), n);
      && r.policy == Growing(most, cooldown, n)
      && Times(r.log, Up) == seq(n, _ => 0)
      && |InWindow(Times(r.log, Up), 0, 0)| == n
  {
    hide Times, InWindow;
    ZeroRuns(most, cooldown, n);
    AllInWindow(n);
  }

  lemma {:induction false} ZeroRuns(most: nat, cooldown: int, n: nat)
    requires n <= most
    ensures var r := Run(ZERO_WORLD, State(Growing(most, cooldown, 0), [], 0), n);
      r.policy == Growing(most, cooldown, n) && Times(r.log, Up) == seq(n, _ => 0)
  {
    var s := State(Growing(most, cooldown, 0), [], 0);
    if n == 0 {
      assert Times([], Up) == seq(0, _ => 0);
    } else {
      hide Times, Evaluate;
      ZeroRuns(most, cooldown, n - 1);
      ZeroStep(most, cooldown, n - 1, Run(ZERO_WORLD, s, n - 1));
    }
  }

  lemma {:induction false} ZeroStep(most: nat, cooldown: int, n: nat, s: State)
    requires n < most && s.policy == Growing(most, cooldown, n) && Times(s.log, Up) == seq(n, _ => 0)
    ensures var r := Evaluate(ZERO_WORLD, s);
      r.policy == Growing(most, cooldown, n + 1) && Times(r.log, Up) == seq(n + 1, _ => 0)
  {
    hide Times;
    OneRule(ZERO_WORLD, s);
    var e := Event(Up, 1, n, n + 1, 0);
    assert Evaluate(ZERO_WORLD, s).log == s.log + [e];
    TimesGrow(s.log, e, Up);
    assert seq(n, _ => 0) + [0] == seq(n + 1, _ => 0);
  }

  lemma {:induction false} AllInWindow(n: nat)
    ensures |InWindow(seq(n, _ => 0), 0, 0)| == n
  {
    forall i ensures i in InWindow(seq(n, _ => 0), 0, 0) <==> i in Interval(0, n) {
      IntervalMembers(0, n, i);
    }
    assert InWindow(seq(n, _ => 0), 0, 0) == Interval(0, n);
    IntervalSize(0, n);
  }

  lemma {:induction false} OneRule(w: World, s: State)
    requires |s.policy.rules| == 1 && s.policy.enabled
    ensures Evaluate(w, s) == CheckRule(w, Counted(s), 0)
  {
    hide CheckRule;
    var r := CheckRule(w, Counted(s), 0);
    RuleKeepsRules(w, Counted(s), 0);
    assert CheckFrom(w, r, 1) == r;
    assert CheckFrom(w, Counted(s), 0) == CheckFrom(w, r, 1);
  }

  /** `s` has come from policy `p`, whose limits are the wrong way round. */
  predicate Crossed(p: Policy, s: State) {
    && SameLimits(s.policy, p)
    && if s.log == [] then s.policy.current == p.current else |s.log| == 1 && s.policy.current == p.max
  }

  lemma {:induction false} RuleKeepsCrossed(w: World, p: Policy, s: State, i: nat)
    requires p.min > p.max && Crossed(p, s) && i < |s.policy.rules|
    ensures Crossed(p, CheckRule(w, s, i))
  {
    RuleKeepsRules(w, s, i);
  }

  lemma {:induction false} RulesKeepCrossed(w: World, p: Policy, s: State, i: nat)
    requires p.min > p.max && Crossed(p, s)
    ensures Crossed(p, CheckFrom(w, s, i))
    decreases |s.policy.rules| - i
  {
    if i < |s.policy.rules| {
      hide CheckRule;
      RuleKeepsCrossed(w, p, s, i);
      RuleKeepsRules(w, s, i);
      RulesKeepCrossed(w, p, CheckRule(w, s, i), i + 1);
    }
  }

  /** With limits the wrong way round a policy scales at most once in any run, whatever its
      rules, and then stays at its upper limit, below the lower one. */
  lemma {:induction false} CrossedLimits(w: World, p: Policy, n: nat)
    requires p.min > p.max
    ensures var r := Run(w, State(p, [], 0), n);
      && !InRange(r.policy) && |r.log| <= 1
      && r.policy.current == if r.log == [] then p.current else p.max
  {
    CrossedRun(w, p, n);
  }

  lemma {:induction false} CrossedRun(w: World, p: Policy, n: nat)
    requires p.min > p.max
    ensures Crossed(p, Run(w, State(p, [], 0), n))
  {
    if n > 0 {
      CrossedRun(w, p, n - 1);
      var s := Run(w, State(p, [], 0), n - 1);
      if s.policy.enabled {
        assert Crossed(p, Counted(s));
        RulesKeepCrossed(w, p, Counted(s), 0);
      }
    }
  }
}
