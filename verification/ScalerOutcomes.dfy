/** What a scaling policy does when (src/constellation/autoscale/scaler.c): which rule scales, by how
    much, and what it costs in clock readings. */
module ScalerOutcomes {
  import opened ScalerRuns
  import opened Autoscaler

  /** `n` held within the limits; the upper one wins where they cross. */
  function Bounded(min: int, max: int, n: int): int {
    if max < min || max < n then max else if n < min then min else n
  }

  /** The rule's cooldown has passed at `now`, or there was no scaling in its direction yet. */
  predicate Ready(p: Policy, d: Direction, now: int) {
    match d
    case Up => p.lastUp == 0 || now >= p.lastUp + p.upCooldown
    case _ => p.lastDown == 0 || now >= p.lastDown + p.downCooldown
  }

  /** How far a rule moves the count. */
  function Signed(d: Direction, adjustment: int): int {
    match d case Up => adjustment case Down => -adjustment case NoDirection => 0
  }

  /** A rule scales exactly when it is enabled, its cooldown has passed, its metric fires and the
      limits leave something of its adjustment. Then the count, the event, the remembered time and
      the counter change as they should, and otherwise nothing does but the clock. */
  lemma {:induction false} RuleScalesIff(w: World, s: State, i: nat)
    requires i < |s.policy.rules|
    ensures var (p, r, t, now) := (s.policy, s.policy.rules[i], CheckRule(w, s, i), w.clock(s.ticks));
      var count := Bounded(p.min, p.max, p.current + Signed(r.direction, r.adjustment));
      if r.enabled && r.direction != NoDirection && Ready(p, r.direction, now) && w.fires(i, s.ticks + 1)
         && count != p.current then
        && t.log == s.log + [Event(r.direction, r.adjustment, p.current, count, w.clock(s.ticks + 1))]
        && t.ticks == s.ticks + 3
        && t.policy == (if r.direction == Up
                        then p.(current := count, upCount := p.upCount + 1, lastUp := w.clock(s.ticks + 2))
                        else p.(current := count, downCount := p.downCount + 1, lastDown := w.clock(s.ticks + 2)))
      else t == s.(ticks := s.ticks + if r.enabled then 1 else 0)
  {
  }

  /** A clock that stands still is good, and so is one that goes on by a second at every reading. */
  lemma {:induction false} ClocksAreGood(fires: (nat, nat) -> bool)
    ensures GoodClock(World(n => 1, fires)) && GoodClock(World(n => n + 1, fires))
  {
  }

  // ---------- Whole runs ----------

  /** The event is one of an enabled rule of `p`, and moves the count as the rule says. */
  predicate Explained(p: Policy, e: Event) {
    && e.direction != NoDirection && e.after != e.before
    && e.after == Bounded(p.min, p.max, e.before + Signed(e.direction, e.adjustment))
    && Rule(e.direction, e.adjustment, true) in p.rules
  }

  function EnabledRules(rules: seq<Rule>): nat {
    if rules == [] then 0
    else EnabledRules(rules[..|rules| - 1]) + (if rules[|rules| - 1].enabled then 1 else 0)
  }

  /** `s` is what `p` becomes by the events of its log, after this many evaluations and checks of
      enabled rules. */
  predicate Accounted(p: Policy, s: State, evaluations: nat, checks: nat) {
    && s.policy == p.(current := s.policy.current, lastUp := s.policy.lastUp, lastDown := s.policy.lastDown,
                      upCount := p.upCount + |Times(s.log, Up)|, downCount := p.downCount + |Times(s.log, Down)|,
                      evaluations := p.evaluations + evaluations)
    && s.ticks == checks + 2 * |s.log|
    && forall e :: e in s.log ==> Explained(p, e)
  }

  lemma {:induction false} RuleAccounts(w: World, p: Policy, s: State, i: nat, evaluations: nat, checks: nat)
    requires Accounted(p, s, evaluations, checks) && i < |p.rules|
    ensures Accounted(p, CheckRule(w, s, i), evaluations, checks + if p.rules[i].enabled then 1 else 0)
  {
    var (r, t) := (p.rules[i], CheckRule(w, s, i));
    hide CheckRule;
    RuleScalesIff(w, s, i);
    if t.log != s.log {
      var e := t.log[|s.log|];
      TimesGrow(s.log, e, Up);
      TimesGrow(s.log, e, Down);
      assert Explained(p, e) by { assert p.rules[i] == Rule(e.direction, e.adjustment, true); }
    }
  }

  lemma {:induction false} RulesAccount(w: World, p: Policy, s: State, i: nat, evaluations: nat, checks: nat)
    requires i <= |p.rules| && Accounted(p, s, evaluations, checks + EnabledRules(p.rules[..i]))
    ensures Accounted(p, CheckFrom(w, s, i), evaluations, checks + EnabledRules(p.rules))
    decreases |p.rules| - i
  {
    hide Accounted, CheckRule;
    AccountedRules(p, s, evaluations, checks + EnabledRules(p.rules[..i]));
    if i < |p.rules| {
      RuleAccounts(w, p, s, i, evaluations, checks + EnabledRules(p.rules[..i]));
      assert p.rules[..i + 1][..i] == p.rules[..i];
      RulesAccount(w, p, CheckRule(w, s, i), i + 1, evaluations, checks);
    } else {
      assert p.rules[..i] == p.rules;
    }
  }

  lemma {:induction false} AccountedRules(p: Policy, s: State, evaluations: nat, checks: nat)
    requires Accounted(p, s, evaluations, checks)
    ensures s.policy.rules == p.rules && s.policy.enabled == p.enabled
    ensures Accounted(p, Counted(s), evaluations + 1, checks)
  {
  }

  lemma {:induction false} EvaluationAccounts(w: World, p: Policy, s: State, evaluations: nat, checks: nat)
    requires p.enabled && Accounted(p, s, evaluations, checks)
    ensures Accounted(p, Evaluate(w, s), evaluations + 1, checks + EnabledRules(p.rules))
  {
    hide Accounted, CheckFrom, EnabledRules;
    AccountedRules(p, s, evaluations, checks);
    NoRules(p.rules);
    RulesAccount(w, p, Counted(s), 0, evaluations + 1, checks);
  }

  lemma {:induction false} NothingYet(p: Policy)
    ensures Accounted(p, State(p, [], 0), 0, 0)
  {
  }

  /** After any number of evaluations each event is explained by a rule, the counters count the
      events and the evaluations, and the clock was read once for every enabled rule of every
      evaluation and twice for every event. A policy that is not enabled does nothing. */
  lemma {:induction false} RunAccounts(w: World, p: Policy, n: nat)
    ensures var s := Run(w, State(p, [], 0), n);
      && (p.enabled ==> Accounted(p, s, n, n * EnabledRules(p.rules)))
      && (!p.enabled ==> s == State(p, [], 0))
    decreases n
  {
    hide Accounted, CheckFrom, EnabledRules;
    var k := EnabledRules(p.rules);
    if n == 0 {
      NothingYet(p);
      assert n * k == 0;
    } else {
      RunAccounts(w, p, n - 1);
      if p.enabled {
        EvaluationAccounts(w, p, Run(w, State(p, [], 0), n - 1), n - 1, (n - 1) * k);
        OneMore(n, k);
      }
    }
  }

  lemma {:induction false} OneMore(n: int, k: int)
    ensures (n - 1) * k + k == n * k
  {
  }

  lemma {:induction false} NoRules(rules: seq<Rule>)
    ensures EnabledRules(rules[..0]) == 0
  {
  }

  /** The event list holds the latest events of the run, as many as it has room for, in order. */
  lemma {:induction false} NewestAreLast(log: seq<Event>, n: nat, i: nat)
    requires i < n && i < |log|
    ensures var kept := Newest(log, n);
      && |kept| == (if |log| < n then |log| else n)
      && kept[|kept| - 1 - i] == log[|log| - 1 - i]
  {
  }
}
