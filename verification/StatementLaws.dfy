/** Laws of statements (src/core/interpreter.c, exec_statement) for every machine: which branch
    runs, which iterations a loop makes and where it stops. */
module StatementLaws {
  import opened Options
  import opened Syntax
  import opened Statements
  import opened CruiseLoops

  // ---------- Conditionals ----------

  /** A truthy condition selects the first branch and any other the second, or nothing. */
  lemma {:induction false} ConditionSelects<S, V>(m: Machine<S, V>, cond: Expr, s: S, fuel: nat)
    ensures var (v, s1) := m.eval(cond, s);
      && Exec(m, If(cond, BreakStmt, Some(ContinueStmt)), s, fuel) == Done(if m.truthy(v) then Break else Continue, s1)
      && Exec(m, If(cond, BreakStmt, None), s, fuel) == Done(if m.truthy(v) then Break else Ok, s1)
  {
  }

  /** `not` does to the machine what it does to truth: the same effect and the opposite answer. */
  ghost predicate Negates<S, V>(m: Machine<S, V>, cond: Expr, not: Expr, s: S) {
    var ((v, s1), (w, s2)) := (m.eval(cond, s), m.eval(not, s));
    s1 == s2 && (m.truthy(w) <==> !m.truthy(v))
  }

  /** The negated condition exchanges the branches. */
  lemma {:induction false} NegationExchanges<S, V>(m: Machine<S, V>, cond: Expr, not: Expr, a: Stmt, b: Stmt, s: S,
          fuel: nat)
    requires Negates(m, cond, not, s)
    ensures Exec(m, If(not, a, Some(b)), s, fuel) == Exec(m, If(cond, b, Some(a)), s, fuel)
  {
  }

  // ---------- Blocks ----------

  /** A block is the sequence of its statements: nothing for none, the statement itself for one,
      and two parts one after the other unless the first ends abruptly. */
  lemma {:induction false} BlocksAppend<S, V>(m: Machine<S, V>, xs: seq<Stmt>, ys: seq<Stmt>, s: S, fuel: nat)
    ensures var r := Exec(m, Block(xs), s, fuel);
      Exec(m, Block(xs + ys), s, fuel) == if Ends(r, Ok) then Exec(m, Block(ys), r.state, fuel) else r
  {
    if xs == [] {
      assert xs + ys == ys;
    } else {
      assert (xs + ys)[1..] == xs[1..] + ys;
      var r := Exec(m, xs[0], s, fuel);
      if Ends(r, Ok) { BlocksAppend(m, xs[1..], ys, r.state, fuel); }
    }
  }

  lemma {:induction false} SmallBlocks<S, V>(m: Machine<S, V>, x: Stmt, s: S, fuel: nat)
    ensures Exec(m, Block([]), s, fuel) == Done(Ok, s)
    ensures Exec(m, Block([x]), s, fuel) == Exec(m, x, s, fuel)
  {
    assert [x][1..] == [];
    var r := Exec(m, x, s, fuel);
    if Ends(r, Ok) { assert ExecBlock(m, [], r.state, fuel) == Done(Ok, r.state); }
  }

  // ---------- Loops ----------

  /** The conditional that runs the body once and then the whole loop again. */
  function Unfolded(cond: Expr, body: Stmt): Stmt {
    If(cond, Block([body, Loop(cond, body)]), None)
  }

  /** A loop is its own unfolding, one unit of fuel apart, exactly in the runs whose first
      iteration ends neither in `break` nor in `continue`. */
  lemma {:induction false} LoopUnfolds<S, V>(m: Machine<S, V>, cond: Expr, body: Stmt, s: S, fuel: nat)
    ensures var ((v, s1), loop) := (m.eval(cond, s), Loop(cond, body));
      && Exec(m, loop, s, 0) == OutOfFuel
      && (Exec(m, loop, s, fuel + 1) == Exec(m, Unfolded(cond, body), s, fuel)
          <==> (m.truthy(v)
                ==> !Ends(Exec(m, body, s1, fuel), Break) && !Ends(Exec(m, body, s1, fuel), Continue)))
  {
    var ((v, s1), loop) := (m.eval(cond, s), Loop(cond, body));
    if m.truthy(v) {
      var r := Exec(m, body, s1, fuel);
      assert [body, loop] == [body] + [loop];
      BlocksAppend(m, [body], [loop], s1, fuel);
      SmallBlocks(m, body, s1, fuel);
      if r.Done? {
        SmallBlocks(m, loop, r.state, fuel);
        LoopsAbsorb(m, cond, body, r.state, fuel);
      }
      assert Exec(m, Unfolded(cond, body), s, fuel) == Exec(m, Block([body, loop]), s1, fuel);
    }
  }

  /** Two statements mean the same in a state: one diverges when the other does, and otherwise
      they end alike. */
  ghost predicate SameMeaning<S(!new), V>(m: Machine<S, V>, a: Stmt, b: Stmt, s: S) {
    && (Diverges(m, a, s) <==> Diverges(m, b, s))
    && forall r: Run<S> :: SettlesOn(m, a, s, r) <==> SettlesOn(m, b, s, r)
  }

  ghost predicate SettlesOn<S, V>(m: Machine<S, V>, stmt: Stmt, s: S, r: Run<S>) {
    exists least: nat :: Settles(m, stmt, s, r, least)
  }

  /** Every run of `b` is one of `a` with one more unit of fuel. */
  ghost predicate OneApart<S(!new), V>(m: Machine<S, V>, a: Stmt, b: Stmt, s: S) {
    && Exec(m, a, s, 0).OutOfFuel?
    && forall fuel: nat :: fuel > 0 ==> Exec(m, a, s, fuel) == Exec(m, b, s, fuel - 1)
  }

  lemma {:induction false} ShiftedUp<S(!new), V>(m: Machine<S, V>, a: Stmt, b: Stmt, s: S, r: Run<S>, least: nat)
    requires OneApart(m, a, b, s) && Settles(m, b, s, r, least)
    ensures Settles(m, a, s, r, least + 1)
  {
    hide Exec;
    forall fuel: nat | Exec(m, a, s, fuel).Done? || fuel >= least + 1 ensures Exec(m, a, s, fuel) == r {
      if fuel > 0 { assert Exec(m, a, s, fuel) == Exec(m, b, s, fuel - 1); }
    }
  }

  lemma {:induction false} ShiftedDown<S(!new), V>(m: Machine<S, V>, a: Stmt, b: Stmt, s: S, r: Run<S>, least: nat)
    requires OneApart(m, a, b, s) && Settles(m, a, s, r, least)
    ensures Settles(m, b, s, r, least)
  {
    hide Exec;
    forall fuel: nat | Exec(m, b, s, fuel).Done? || fuel >= least ensures Exec(m, b, s, fuel) == r {
      var next: nat := fuel + 1;
      assert Exec(m, a, s, next) == Exec(m, b, s, next - 1);
    }
  }

  lemma {:induction false} ShiftedFuel<S(!new), V>(m: Machine<S, V>, a: Stmt, b: Stmt, s: S)
    requires OneApart(m, a, b, s)
    ensures SameMeaning(m, a, b, s)
  {
    hide Exec, Settles;
    if Diverges(m, b, s) {
      forall fuel: nat ensures Exec(m, a, s, fuel).OutOfFuel? {
        if fuel > 0 { assert Exec(m, b, s, fuel - 1).OutOfFuel?; }
      }
    }
    if Diverges(m, a, s) {
      forall fuel: nat ensures Exec(m, b, s, fuel).OutOfFuel? {
        var next: nat := fuel + 1;
        assert Exec(m, a, s, next) == Exec(m, b, s, next - 1);
      }
    }
    forall r ensures SettlesOn(m, a, s, r) <==> SettlesOn(m, b, s, r) {
      if SettlesOn(m, a, s, r) {
        var least: nat :| Settles(m, a, s, r, least);
        ShiftedDown(m, a, b, s, r, least);
      }
      if SettlesOn(m, b, s, r) {
        var least: nat :| Settles(m, b, s, r, least);
        ShiftedUp(m, a, b, s, r, least);
      }
    }
  }

  /** So a loop whose body leaves no such way out means what its unfolding means, in outcome, in
      final state and in whether it ends at all. */
  lemma {:induction false} UnfoldingPreservesMeaning<S(!new), V>(m: Machine<S, V>, cond: Expr, body: Stmt, s: S)
    requires var s1 := m.eval(cond, s).1;
      forall fuel: nat :: var r := Exec(m, body, s1, fuel); !Ends(r, Break) && !Ends(r, Continue)
    ensures SameMeaning(m, Loop(cond, body), Unfolded(cond, body), s)
  {
    var (loop, unfolded, s1) := (Loop(cond, body), Unfolded(cond, body), m.eval(cond, s).1);
    forall fuel: nat | fuel > 0 ensures Exec(m, loop, s, fuel) == Exec(m, unfolded, s, fuel - 1) {
      var less: nat := fuel - 1;
      var r := Exec(m, body, s1, less);
      assert !Ends(r, Break) && !Ends(r, Continue);
      LoopUnfolds(m, cond, body, s, less);
      assert less + 1 == fuel;
    }
    assert Exec(m, loop, s, 0).OutOfFuel?;
    assert OneApart(m, loop, unfolded, s);
    ShiftedFuel(m, loop, unfolded, s);
  }

  /** How an iteration that ends in `r` ends the loop around it: `break` ends it normally, a
      return or throw goes through it. */
  predicate LeavesLoop<S(==)>(r: Run<S>, end: Run<S>) {
    || (Ends(r, Break) && end == Done(Ok, r.state))
    || ((Ends(r, Return) || Ends(r, Throw)) && end == r)
  }

  predicate GoesOn<S(==)>(r: Run<S>, next: S) {
    r == Done(Ok, next) || r == Done(Continue, next)
  }

  /** One iteration of a loop takes `s` to `next`. */
  predicate LoopGoesOn<S(==), V>(m: Machine<S, V>, cond: Expr, body: Stmt, s: S, next: S, fuel: nat) {
    var (v, s1) := m.eval(cond, s);
    m.truthy(v) && GoesOn(Exec(m, body, s1, fuel), next)
  }

  /** A loop goes through the states before each test of its condition until the condition fails or
      an iteration leaves it. */
  lemma {:induction false} LoopVisits<S, V>(m: Machine<S, V>, cond: Expr, body: Stmt, states: seq<S>, end: Run<S>,
          fuel: nat)
    requires 0 < |states| <= fuel
    requires forall k :: 0 <= k < |states| - 1 ==>
      LoopGoesOn(m, cond, body, states[k], states[k + 1], fuel - (k + 1))
    requires var (v, s1) := m.eval(cond, states[|states| - 1]);
      if m.truthy(v) then LeavesLoop(Exec(m, body, s1, fuel - |states|), end) else end == Done(Ok, s1)
    ensures Exec(m, Loop(cond, body), states[0], fuel) == end
    decreases |states|
  {
    if |states| > 1 {
      assert LoopGoesOn(m, cond, body, states[0], states[0 + 1], fuel - (0 + 1));
      var rest := states[1..];
      forall k | 0 <= k < |rest| - 1
        ensures LoopGoesOn(m, cond, body, rest[k], rest[k + 1], fuel - 1 - (k + 1))
      {
        assert LoopGoesOn(m, cond, body, states[k + 1], states[k + 1 + 1], fuel - (k + 1 + 1));
      }
      LoopVisits(m, cond, body, rest, end, fuel - 1);
    }
  }

  /** The iteration of a cruise with its name set to `i` takes `s` to `next`. */
  predicate CruiseGoesOn<S(==), V>(m: Machine<S, V>, name: string, i: int, body: Stmt, s: S, next: S, fuel: nat) {
    GoesOn(Exec(m, body, m.setVar(name, i, s), fuel), next)
  }

  lemma {:induction false} CruiseLoopVisits<S, V>(m: Machine<S, V>, name: string, i: int, last: int, body: Stmt,
          states: seq<S>, end: Run<S>, fuel: nat)
    requires 0 < |states| <= (if i <= last then last - i else 0) + 1
    requires forall k :: 0 <= k < |states| - 1 ==>
      CruiseGoesOn(m, name, i + k, body, states[k], states[k + 1], fuel)
    requires var (j, s) := (i + |states| - 1, states[|states| - 1]);
      if j < last then LeavesLoop(Exec(m, body, m.setVar(name, j, s), fuel), end) else end == Done(Ok, s)
    ensures ExecCruise(m, name, i, last, body, states[0], fuel) == end
    decreases |states|
  {
    if |states| > 1 {
      assert CruiseGoesOn(m, name, i + 0, body, states[0], states[0 + 1], fuel);
      var rest := states[1..];
      forall k | 0 <= k < |rest| - 1
        ensures CruiseGoesOn(m, name, i + 1 + k, body, rest[k], rest[k + 1], fuel)
      {
        assert CruiseGoesOn(m, name, i + (k + 1), body, states[k + 1], states[k + 1 + 1], fuel);
        assert i + 1 + k == i + (k + 1);
      }
      CruiseLoopVisits(m, name, i + 1, last, body, rest, end, fuel);
    }
  }

  /** A cruise evaluates its two limits in order and then sets its name to each number from the
      first up to the last, the last excluded, unless the body leaves the cruise early. */
  lemma {:induction false} CruiseVisits<S, V>(m: Machine<S, V>, name: string, first: Expr, last: Expr, body: Stmt,
          s: S, states: seq<S>, end: Run<S>, fuel: nat)
    requires var ((a, s1), n) := (m.eval(first, s), |states| - 1);
      var (b, s2) := m.eval(last, s1);
      var (from, to) := (m.asInt(a), m.asInt(b));
      && 0 <= n <= (if from <= to then to - from else 0) && states[0] == s2
      && (forall k :: 0 <= k < n ==> CruiseGoesOn(m, name, from + k, body, states[k], states[k + 1], fuel))
      && (if from + n < to then LeavesLoop(Exec(m, body, m.setVar(name, from + n, states[n]), fuel), end)
          else end == Done(Ok, states[n]))
    ensures Exec(m, Cruise(name, first, last, body), s, fuel) == end
  {
    var (a, s1) := m.eval(first, s);
    var (b, _) := m.eval(last, s1);
    CruiseLoopVisits(m, name, m.asInt(a), m.asInt(b), body, states, end, fuel);
  }

  // ---------- Values and exceptions ----------

  /** A return and a throw keep the value of their expression, or the value that stands for none,
      in the state that evaluating it leaves. */
  lemma {:induction false} JumpsKeepValues<S, V>(m: Machine<S, V>, e: Expr, s: S, fuel: nat)
    ensures var (v, s1) := m.eval(e, s);
      && Exec(m, ReturnStmt(Some(e)), s, fuel) == Done(Return, m.setReturn(v, s1))
      && Exec(m, ReturnStmt(None), s, fuel) == Done(Return, m.setReturn(m.nothing, s))
      && Exec(m, ThrowStmt(Some(e)), s, fuel) == Done(Throw, m.setThrown(v, s1))
      && Exec(m, ThrowStmt(None), s, fuel) == Done(Throw, m.setThrown(m.nothing, s))
  {
  }

  /** A throw in the body goes to the catch block, which starts where the body stopped with the
      thrown value bound. */
  lemma {:induction false} ThrowIsCaught<S, V>(m: Machine<S, V>, before: seq<Stmt>, e: Expr, after: seq<Stmt>,
          name: Option<string>, catchBlock: Stmt, s: S, s1: S, fuel: nat)
    requires Exec(m, Block(before), s, fuel) == Done(Ok, s1)
    ensures var (v, s2) := m.eval(e, s1);
      Exec(m, Try(Block(before + [ThrowStmt(Some(e))] + after), name, Some(catchBlock), None), s, fuel)
        == Exec(m, catchBlock, m.catching(name, m.setThrown(v, s2)), fuel)
  {
    var throwing := ThrowStmt(Some(e));
    BlocksAppend(m, before, [throwing], s, fuel);
    SmallBlocks(m, throwing, s1, fuel);
    BlocksAppend(m, before + [throwing], after, s, fuel);
  }

  /** Without a throw, or without a catch block, a try statement is its body. */
  lemma {:induction false} TryIsTransparent<S, V>(m: Machine<S, V>, body: Stmt, name: Option<string>,
          catchBlock: Option<Stmt>, s: S, fuel: nat)
    requires catchBlock.None? || !Ends(Exec(m, body, s, fuel), Throw)
    ensures Exec(m, Try(body, name, catchBlock, None), s, fuel) == Exec(m, body, s, fuel)
  {
  }

  /** The finally block runs after everything else that ends, however it ends. It hands the
      earlier outcome on, its own `break` or `continue` included, unless it returns or throws. */
  lemma {:induction false} FinallyComesLast<S, V>(m: Machine<S, V>, body: Stmt, name: Option<string>,
          catchBlock: Option<Stmt>, last: Stmt, s: S, fuel: nat)
    ensures var r := Exec(m, Try(body, name, catchBlock, None), s, fuel);
      var all := Try(body, name, catchBlock, Some(last));
      if r.OutOfFuel? then Exec(m, all, s, fuel).OutOfFuel?
      else
        var f := Exec(m, last, r.state, fuel);
        if f.OutOfFuel? || Ends(f, Return) || Ends(f, Throw) then Exec(m, all, s, fuel) == f
        else Exec(m, all, s, fuel) == Done(r.outcome, f.state)
  {
  }
}
