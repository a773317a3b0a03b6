/** The evaluation of a scaling policy, step by step (src/constellation/autoscale/scaler.c),
    agreeing with module ScalerRuns. The event list keeps only the latest events. */
module Autoscaler {
  import opened ScalerRuns

  /** The newest `n` events. */
  function Newest(log: seq<Event>, n: nat): seq<Event> {
    if |log| > n then log[|log| - n..] else log
  }

  class Scaler {
    const w: World
    const maxEvents: nat
    const min: int
    const max: int
    const rules: seq<Rule>
    const upCooldown: int
    const downCooldown: int
    const enabled: bool
    var current: int
    var lastUp: int
    var lastDown: int
    var upCount: nat
    var downCount: nat
    var evaluations: nat
    var events: seq<Event>
    var ticks: nat
    ghost var log: seq<Event>

    ghost predicate Valid()
      reads this
    {
      maxEvents > 0 && events == Newest(log, maxEvents)
    }

    ghost function S(): State
      reads this
    {
      State(Policy(min, max, current, rules, upCooldown, downCooldown, lastUp, lastDown,
                   upCount, downCount, evaluations, enabled), log, ticks)
    }

    constructor (w: World, p: Policy, maxEvents: nat)
      requires maxEvents > 0
      ensures Valid() && this.w == w && S() == State(p, [], 0)
    {
      this.w, this.maxEvents := w, maxEvents;
      min, max, current, rules := p.min, p.max, p.current, p.rules;
      upCooldown, downCooldown, lastUp, lastDown := p.upCooldown, p.downCooldown, p.lastUp, p.lastDown;
      upCount, downCount, evaluations, enabled := p.upCount, p.downCount, p.evaluations, p.enabled;
      events, ticks, log := [], 0, [];
    }

    method Now() returns (t: int)
      modifies this`ticks
      ensures t == w.clock(old(ticks)) && ticks == old(ticks) + 1
    {
      t := w.clock(ticks);
      ticks := ticks + 1;
    }

    method CheckCooldown(d: Direction) returns (cooling: bool)
      modifies this`ticks
      ensures ticks == old(ticks) + 1
      ensures cooling == InCooldown(S().policy, d, w.clock(old(ticks)))
    {
      var now := Now();
      var last := if d == Up then lastUp else lastDown;
      var cooldown := if d == Up then upCooldown else downCooldown;
      if last == 0 { return false; }
      cooling := now - last < cooldown;
    }

    /** Appends an event, dropping the oldest when the list is full. */
    method Record(e: Event)
      requires Valid()
      modifies this`events, this`log
      ensures Valid() && log == old(log) + [e]
    {
      ghost var was := events;
      if |events| >= maxEvents {
        var i := 0;
        while i < |events| - 1
          invariant 0 <= i <= |events| - 1 && |events| == |was| && log == old(log)
          invariant forall j :: 0 <= j < i ==> events[j] == was[j + 1]
          invariant forall j :: i <= j < |events| ==> events[j] == was[j]
        {
          events := events[i := events[i + 1]];
          i := i + 1;
        }
        events := events[..|events| - 1];
        assert events == was[1..];
      }
      events := events + [e];
      log := log + [e];
      NewestGrows(old(log), e, maxEvents);
    }

    method Scale(d: Direction, adjustment: int) returns (status: int)
      requires Valid()
      modifies this
      ensures Valid() && S() == ScalerRuns.Scale(w, old(S()), d, adjustment)
      ensures status == if d == NoDirection then -1 else 0
    {
      if d == NoDirection { return -1; }
      var count := current;
      if d == Up {
        count := count + adjustment;
      } else {
        count := count - adjustment;
      }
      if count < min { count := min; }
      if count > max { count := max; }
      if count == current { return 0; }
      var stamp := Now();
      Record(Event(d, adjustment, current, count, stamp));
      current := count;
      var now := Now();
      if d == Up {
        lastUp := now;
        upCount := upCount + 1;
      } else {
        lastDown := now;
        downCount := downCount + 1;
      }
      status := 0;
    }

    method Check(i: nat)
      requires Valid() && i < |rules|
      modifies this
      ensures Valid() && S() == CheckRule(w, old(S()), i)
    {
      hide ScalerRuns.Scale;
      if !rules[i].enabled { return; }
      var cooling := CheckCooldown(rules[i].direction);
      if cooling { return; }
      if w.fires(i, ticks) {
        var _ := Scale(rules[i].direction, rules[i].adjustment);
      }
    }

    method EvaluatePolicy() returns (status: int)
      requires Valid()
      modifies this
      ensures Valid() && S() == Evaluate(w, old(S()))
      ensures status == if enabled then 0 else -1
    {
      hide CheckRule;
      if !enabled { return -1; }
      evaluations := evaluations + 1;
      ghost var start := S();
      for i := 0 to |rules|
        invariant Valid() && CheckFrom(w, start, 0) == CheckFrom(w, S(), i)
      {
        Check(i);
      }
      status := 0;
    }
  }

  lemma {:induction false} NewestGrows(log: seq<Event>, e: Event, n: nat)
    requires n > 0
    ensures var kept := Newest(log, n);
      Newest(log + [e], n) == (if |kept| >= n then kept[1..] else kept) + [e]
  {
    if |log| > n {
      assert (log + [e])[|log| + 1 - n..] == log[|log| - n..][1..] + [e];
    }
  }
}
