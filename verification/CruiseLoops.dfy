/** C-style cruise loops and what they are parsed into (src/core/parser.c). */
module CruiseLoops {
  import opened Options
  import opened Syntax
  import opened Statements

  // parse_cruise_statement makes them into a block with a plain loop. Here is that rewriting against
  // the usual meaning of such a loop.

  /** The loop body with the update after it: inside the block when the body is one. */
  function WithUpdate(body: Stmt, update: Expr): Stmt {
    if body.Block? then Block(body.stmts + [Simple(update)]) else Block([body, Simple(update)])
  }

  /** What the parser builds for `cruise (init; cond; update) body`. */
  function Desugar(init: Expr, cond: Expr, update: Expr, body: Stmt): Stmt {
    Block([Simple(init), Loop(cond, WithUpdate(body, update))])
  }

  /** What a C-style loop means: the update follows every iteration that does not leave the
      loop, one ended by `continue` included. */
  function ExecFor<S, V>(m: Machine<S, V>, init: Expr, cond: Expr, update: Expr, body: Stmt, s: S,
          fuel: nat): Run<S> {
    ForLoop(m, cond, update, body, m.eval(init, s).1, fuel)
  }

  function ForLoop<S, V>(m: Machine<S, V>, cond: Expr, update: Expr, body: Stmt, s: S, fuel: nat): Run<S> {
    if fuel == 0 then OutOfFuel
    else
      var (v, s1) := m.eval(cond, s);
      if !m.truthy(v) then Done(Ok, s1)
      else
        var r := ForIteration(m, update, body, s1, fuel - 1);
        if r.OutOfFuel? then OutOfFuel
        else if r.outcome == Break then Done(Ok, r.state)
        else if r.outcome == Return || r.outcome == Throw then r
        else ForLoop(m, cond, update, body, r.state, fuel - 1)
  }

  /** The body and, unless it leaves the loop, the update. */
  function ForIteration<S, V>(m: Machine<S, V>, update: Expr, body: Stmt, s: S, fuel: nat): Run<S> {
    var r := Exec(m, body, s, fuel);
    if r.Done? && (r.outcome == Ok || r.outcome == Continue) then Done(Ok, m.eval(update, r.state).1) else r
  }

  /** One iteration of the loop that the parser builds; `continue` only goes on to the next. */
  function LoopIteration<S, V>(m: Machine<S, V>, update: Expr, body: Stmt, s: S, fuel: nat): Run<S> {
    var r := Exec(m, WithUpdate(body, update), s, fuel);
    if r.Done? && r.outcome == Continue then Done(Ok, r.state) else r
  }

  // ---------- Which statements end in `continue` ----------

  /** A `continue` in `stmt` can end the statement itself: one inside an inner loop or a
      finally block cannot. */
  predicate MayContinue(stmt: Stmt) {
    match stmt
    case ContinueStmt => true
    case Block(stmts) => exists i :: 0 <= i < |stmts| && MayContinue(stmts[i])
    case If(_, thenBranch, elseBranch) =>
      MayContinue(thenBranch) || (elseBranch.Some? && MayContinue(elseBranch.value))
    case Try(body, _, catchBlock, _) =>
      MayContinue(body) || (catchBlock.Some? && MayContinue(catchBlock.value))
    case _ => false
  }

  predicate Ends<S(==)>(r: Run<S>, outcome: Outcome) {
    r.Done? && r.outcome == outcome
  }

  lemma {:induction false} LoopsAbsorb<S, V>(m: Machine<S, V>, cond: Expr, body: Stmt, s: S, fuel: nat)
    ensures var r := ExecLoop(m, cond, body, s, fuel); !Ends(r, Continue) && !Ends(r, Break)
  {
    if fuel > 0 {
      var (v, s1) := m.eval(cond, s);
      var r := Exec(m, body, s1, fuel - 1);
      if m.truthy(v) && r.Done? { LoopsAbsorb(m, cond, body, r.state, fuel - 1); }
    }
  }

  lemma {:induction false} CruisesAbsorb<S, V>(m: Machine<S, V>, name: string, i: int, end: int, body: Stmt,
          s: S, fuel: nat)
    ensures var r := ExecCruise(m, name, i, end, body, s, fuel); !Ends(r, Continue) && !Ends(r, Break)
    decreases end - i
  {
    if i < end {
      var r := Exec(m, body, m.setVar(name, i, s), fuel);
      if r.Done? { CruisesAbsorb(m, name, i + 1, end, body, r.state, fuel); }
    }
  }

  lemma {:induction false} NeverContinues<S, V>(m: Machine<S, V>, stmt: Stmt, s: S, fuel: nat)
    requires !MayContinue(stmt)
    ensures !Ends(Exec(m, stmt, s, fuel), Continue)
    decreases stmt, 1
  {
    match stmt
    case Block(stmts) => BlockNeverContinues(m, stmts, s, fuel);
    case If(cond, thenBranch, elseBranch) =>
      var s1 := m.eval(cond, s).1;
      NeverContinues(m, thenBranch, s1, fuel);
      if elseBranch.Some? { NeverContinues(m, elseBranch.value, s1, fuel); }
    case Loop(cond, body) => LoopsAbsorb(m, cond, body, s, fuel);
    case Cruise(name, first, last, body) =>
      var (a, s1) := m.eval(first, s);
      var (b, s2) := m.eval(last, s1);
      CruisesAbsorb(m, name, m.asInt(a), m.asInt(b), body, s2, fuel);
    case Try(body, catchVar, catchBlock, finallyBlock) =>
      NeverContinues(m, body, s, fuel);
      var r := Exec(m, body, s, fuel);
      if r.Done? && catchBlock.Some? {
        NeverContinues(m, catchBlock.value, m.catching(catchVar, r.state), fuel);
      }
    case _ =>
  }

  lemma {:induction false} BlockNeverContinues<S, V>(m: Machine<S, V>, stmts: seq<Stmt>, s: S, fuel: nat)
    requires forall i :: 0 <= i < |stmts| ==> !MayContinue(stmts[i])
    ensures !Ends(ExecBlock(m, stmts, s, fuel), Continue)
    decreases stmts, 0
  {
    if stmts != [] {
      NeverContinues(m, stmts[0], s, fuel);
      var r := Exec(m, stmts[0], s, fuel);
      if r.Done? { BlockNeverContinues(m, stmts[1..], r.state, fuel); }
    }
  }

  // ---------- The rewriting ----------

  lemma {:induction false} BlockThenUpdate<S, V>(m: Machine<S, V>, stmts: seq<Stmt>, update: Expr, s: S, fuel: nat)
    ensures var r := ExecBlock(m, stmts, s, fuel);
      ExecBlock(m, stmts + [Simple(update)], s, fuel)
        == if Ends(r, Ok) then Done(Ok, m.eval(update, r.state).1) else r
  {
    if stmts == [] {
      assert stmts + [Simple(update)] == [Simple(update)];
    } else {
      assert (stmts + [Simple(update)])[1..] == stmts[1..] + [Simple(update)];
      var r := Exec(m, stmts[0], s, fuel);
      if r.Done? { BlockThenUpdate(m, stmts[1..], update, r.state, fuel); }
    }
  }

  lemma {:induction false} BodyThenUpdate<S, V>(m: Machine<S, V>, body: Stmt, update: Expr, s: S, fuel: nat)
    ensures var r := Exec(m, body, s, fuel);
      Exec(m, WithUpdate(body, update), s, fuel)
        == if Ends(r, Ok) then Done(Ok, m.eval(update, r.state).1) else r
  {
    if body.Block? {
      BlockThenUpdate(m, body.stmts, update, s, fuel);
    } else {
      assert [body, Simple(update)] == [body] + [Simple(update)];
      BlockThenUpdate(m, [body], update, s, fuel);
    }
  }

  /** An iteration in which skipping the update after `continue` makes no difference. */
  ghost predicate Harmless<S, V>(m: Machine<S, V>, update: Expr, body: Stmt, s: S, fuel: nat) {
    var r := Exec(m, body, s, fuel);
    Ends(r, Continue) ==> m.eval(update, r.state).1 == r.state
  }

  /** Exactly in those iterations the rewritten loop does what a C-style loop does. */
  lemma {:induction false} IterationsAgree<S, V>(m: Machine<S, V>, update: Expr, body: Stmt, s: S, fuel: nat)
    ensures LoopIteration(m, update, body, s, fuel) == ForIteration(m, update, body, s, fuel)
      <==> Harmless(m, update, body, s, fuel)
  {
    BodyThenUpdate(m, body, update, s, fuel);
  }

  lemma {:induction false} LoopsAgree<S(!new), V>(m: Machine<S, V>, cond: Expr, update: Expr, body: Stmt, s: S,
          fuel: nat)
    requires forall s', f :: Harmless(m, update, body, s', f)
    ensures ExecLoop(m, cond, WithUpdate(body, update), s, fuel) == ForLoop(m, cond, update, body, s, fuel)
  {
    if fuel > 0 {
      var (v, s1) := m.eval(cond, s);
      assert Harmless(m, update, body, s1, fuel - 1);
      IterationsAgree(m, update, body, s1, fuel - 1);
      var r := ForIteration(m, update, body, s1, fuel - 1);
      if m.truthy(v) && r.Done? { LoopsAgree(m, cond, update, body, r.state, fuel - 1); }
    }
  }

  /** When no iteration is harmed the block that the parser builds runs exactly like the C-style
      loop: same outcome, same final state, and out of fuel for the same amounts of fuel, so one
      diverges exactly when the other does. */
  lemma {:induction false} RewritingPreservesRuns<S(!new), V>(m: Machine<S, V>, init: Expr, cond: Expr,
          update: Expr, body: Stmt, s: S, fuel: nat)
    requires forall s', f :: Harmless(m, update, body, s', f)
    ensures Exec(m, Desugar(init, cond, update, body), s, fuel) == ExecFor(m, init, cond, update, body, s, fuel)
  {
    var s1 := m.eval(init, s).1;
    var loop := Loop(cond, WithUpdate(body, update));
    LoopsAgree(m, cond, update, body, s1, fuel);
    BlockOfTwo(m, init, loop, s, fuel);
    LoopsAbsorb(m, cond, WithUpdate(body, update), s1, fuel);
  }

  lemma {:induction false} BlockOfTwo<S, V>(m: Machine<S, V>, init: Expr, loop: Stmt, s: S, fuel: nat)
    ensures Exec(m, Block([Simple(init), loop]), s, fuel) == Exec(m, loop, m.eval(init, s).1, fuel)
  {
    var s1 := m.eval(init, s).1;
    var r := Exec(m, loop, s1, fuel);
    assert [loop][1..] == [];
    assert ExecBlock(m, [loop], s1, fuel) == r;
    assert [Simple(init), loop][1..] == [loop];
    assert Exec(m, Simple(init), s, fuel) == Done(Ok, s1);
    assert ExecBlock(m, [Simple(init), loop], s, fuel) == ExecBlock(m, [loop], s1, fuel);
  }

  /** In particular whenever no `continue` escapes the body. */
  lemma {:induction false} DesugaringPreservesMeaning<S(!new), V>(m: Machine<S, V>, init: Expr, cond: Expr,
          update: Expr, body: Stmt, s: S, fuel: nat)
    requires !MayContinue(body)
    ensures Exec(m, Desugar(init, cond, update, body), s, fuel) == ExecFor(m, init, cond, update, body, s, fuel)
  {
    forall s', f ensures Harmless(m, update, body, s', f) {
      NeverContinues(m, body, s', f);
    }
    RewritingPreservesRuns(m, init, cond, update, body, s, fuel);
  }

  // ---------- Fuel does not matter once a run ends ----------

  lemma {:induction false} MoreFuel<S, V>(m: Machine<S, V>, stmt: Stmt, s: S, fuel: nat, more: nat)
    requires fuel <= more && Exec(m, stmt, s, fuel).Done?
    ensures Exec(m, stmt, s, more) == Exec(m, stmt, s, fuel)
    decreases fuel, stmt, 2
  {
    match stmt
    case Block(stmts) => MoreBlockFuel(m, stmts, s, fuel, more);
    case If(cond, thenBranch, elseBranch) =>
      var (v, s1) := m.eval(cond, s);
      if m.truthy(v) {
        MoreFuel(m, thenBranch, s1, fuel, more);
      } else if elseBranch.Some? {
        MoreFuel(m, elseBranch.value, s1, fuel, more);
      }
    case Loop(cond, body) => MoreLoopFuel(m, cond, body, s, fuel, more);
    case Cruise(name, first, last, body) =>
      var (a, s1) := m.eval(first, s);
      var (b, s2) := m.eval(last, s1);
      MoreCruiseFuel(m, name, m.asInt(a), m.asInt(b), body, s2, fuel, more);
    case Try(_, _, _, _) => MoreTryFuel(m, stmt, s, fuel, more);
    case _ =>
  }

  lemma {:induction false} MoreTryFuel<S, V>(m: Machine<S, V>, stmt: Stmt, s: S, fuel: nat, more: nat)
    requires stmt.Try? && fuel <= more && Exec(m, stmt, s, fuel).Done?
    ensures Exec(m, stmt, s, more) == Exec(m, stmt, s, fuel)
    decreases fuel, stmt, 1
  {
    var r := Exec(m, stmt.body, s, fuel);
    MoreFuel(m, stmt.body, s, fuel, more);
    var r1 := r;
    if r.outcome == Throw && stmt.catchBlock.Some? {
      var caught := m.catching(stmt.catchVar, r.state);
      MoreFuel(m, stmt.catchBlock.value, caught, fuel, more);
      r1 := Exec(m, stmt.catchBlock.value, caught, fuel);
    }
    if stmt.finallyBlock.Some? {
      MoreFuel(m, stmt.finallyBlock.value, r1.state, fuel, more);
    }
  }

  lemma {:induction false} MoreBlockFuel<S, V>(m: Machine<S, V>, stmts: seq<Stmt>, s: S, fuel: nat, more: nat)
    requires fuel <= more && ExecBlock(m, stmts, s, fuel).Done?
    ensures ExecBlock(m, stmts, s, more) == ExecBlock(m, stmts, s, fuel)
    decreases fuel, stmts, 1
  {
    if stmts != [] {
      MoreFuel(m, stmts[0], s, fuel, more);
      var r := Exec(m, stmts[0], s, fuel);
      if r.outcome == Ok { MoreBlockFuel(m, stmts[1..], r.state, fuel, more); }
    }
  }

  lemma {:induction false} MoreLoopFuel<S, V>(m: Machine<S, V>, cond: Expr, body: Stmt, s: S, fuel: nat, more: nat)
    requires fuel <= more && ExecLoop(m, cond, body, s, fuel).Done?
    ensures ExecLoop(m, cond, body, s, more) == ExecLoop(m, cond, body, s, fuel)
    decreases fuel, body, 3
  {
    var (v, s1) := m.eval(cond, s);
    if m.truthy(v) {
      MoreFuel(m, body, s1, fuel - 1, more - 1);
      var r := Exec(m, body, s1, fuel - 1);
      if r.outcome == Ok || r.outcome == Continue {
        MoreLoopFuel(m, cond, body, r.state, fuel - 1, more - 1);
      }
    }
  }

  lemma {:induction false} MoreCruiseFuel<S, V>(m: Machine<S, V>, name: string, i: int, end: int, body: Stmt,
          s: S, fuel: nat, more: nat)
    requires fuel <= more && ExecCruise(m, name, i, end, body, s, fuel).Done?
    ensures ExecCruise(m, name, i, end, body, s, more) == ExecCruise(m, name, i, end, body, s, fuel)
    decreases fuel, body, 3, end - i
  {
    if i < end {
      var s1 := m.setVar(name, i, s);
      MoreFuel(m, body, s1, fuel, more);
      var r := Exec(m, body, s1, fuel);
      if r.outcome == Ok || r.outcome == Continue {
        MoreCruiseFuel(m, name, i + 1, end, body, r.state, fuel, more);
      }
    }
  }

  ghost predicate Diverges<S, V>(m: Machine<S, V>, stmt: Stmt, s: S) {
    forall fuel: nat :: Exec(m, stmt, s, fuel).OutOfFuel?
  }

  /** With `least` fuel or more every run of `stmt` ends as `r`, and no run ends otherwise. */
  ghost predicate Settles<S, V>(m: Machine<S, V>, stmt: Stmt, s: S, r: Run<S>, least: nat) {
    r.Done? && forall fuel: nat :: Exec(m, stmt, s, fuel).Done? || fuel >= least ==> Exec(m, stmt, s, fuel) == r
  }

  /** A statement either diverges or has one outcome and one final state. */
  lemma {:induction false} RunsAreUnique<S, V>(m: Machine<S, V>, stmt: Stmt, s: S)
    ensures Diverges(m, stmt, s) || exists r, least :: Settles(m, stmt, s, r, least)
  {
    if !Diverges(m, stmt, s) {
      var least: nat :| Exec(m, stmt, s, least).Done?;
      var r := Exec(m, stmt, s, least);
      forall fuel: nat | Exec(m, stmt, s, fuel).Done? || fuel >= least ensures Exec(m, stmt, s, fuel) == r {
        if fuel >= least {
          MoreFuel(m, stmt, s, least, fuel);
        } else {
          MoreFuel(m, stmt, s, fuel, least);
        }
      }
      assert Settles(m, stmt, s, r, least);
    }
  }

  // ---------- A body that continues ----------

  /** One counter, a condition that wants it below 1 and an update that adds 1. */
  function Counter(): Machine<int, bool> {
    Machine(
      (e: Expr, s: int) =>
        if e == Ident("cond") then (s < 1, s) else if e == Ident("update") then (true, s + 1) else (true, 0),
      v => v, v => 0, false, (name, i, s) => s, (v, s) => s, (v, s) => s, (name, s) => s)
  }

  lemma {:induction false} SpinsForever(fuel: nat)
    ensures ExecLoop(Counter(), Ident("cond"), WithUpdate(ContinueStmt, Ident("update")), 0, fuel).OutOfFuel?
  {
    if fuel > 0 {
      BodyThenUpdate(Counter(), ContinueStmt, Ident("update"), 0, fuel - 1);
      SpinsForever(fuel - 1);
    }
  }

  /** With `continue` as the body the rewritten loop never updates the counter and diverges,
      while the C-style loop ends after one iteration. */
  lemma {:induction false} ContinueSkipsTheUpdate()
    ensures ExecFor(Counter(), Ident("init"), Ident("cond"), Ident("update"), ContinueStmt, 5, 2) == Done(Ok, 1)
    ensures Diverges(Counter(), Desugar(Ident("init"), Ident("cond"), Ident("update"), ContinueStmt), 5)
  {
    var m := Counter();
    assert Ident("init") != Ident("cond") && Ident("init") != Ident("update") && Ident("cond") != Ident("update") by {
      assert "init"[0] == 'i' && "cond"[0] == 'c' && "update"[0] == 'u';
    }
    assert m.eval(Ident("init"), 5).1 == 0;
    assert ForIteration(m, Ident("update"), ContinueStmt, 0, 1) == Done(Ok, 1);
    assert ForLoop(m, Ident("cond"), Ident("update"), ContinueStmt, 1, 1) == Done(Ok, 1);
    forall fuel: nat
      ensures Exec(m, Desugar(Ident("init"), Ident("cond"), Ident("update"), ContinueStmt), 5, fuel).OutOfFuel?
    {
      BlockOfTwo(m, Ident("init"), Loop(Ident("cond"), WithUpdate(ContinueStmt, Ident("update"))), 5, fuel);
      SpinsForever(fuel);
    }
  }
}
