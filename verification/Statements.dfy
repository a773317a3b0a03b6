/** Statement execution (src/core/interpreter.c, exec_statement) and the rewriting of C-style
    cruise loops (src/core/parser.c, parse_cruise_statement). */
module Statements {
  import opened Options
  import opened Syntax

  datatype Outcome = Ok | Break | Continue | Return | Throw

  datatype Stmt =
    | Simple(e: Expr)                        // evaluated for its effect only
    | Block(stmts: seq<Stmt>)
    | If(cond: Expr, thenBranch: Stmt, elseBranch: Option<Stmt>)
    | Loop(cond: Expr, body: Stmt)
    | Cruise(name: string, first: Expr, last: Expr, body: Stmt)
    | BreakStmt
    | ContinueStmt
    | ReturnStmt(value: Option<Expr>)
    | ThrowStmt(value: Option<Expr>)
    | Try(body: Stmt, catchVar: Option<string>, catchBlock: Option<Stmt>, finallyBlock: Option<Stmt>)

  /** The interpreter around the statements: how expressions are evaluated in a state and how
      the environment and the pending return and thrown values are updated. */
  datatype Machine<!S, !V> = Machine(
    eval: (Expr, S) -> (V, S),
    truthy: V -> bool,
    asInt: V -> int,
    nothing: V,
    setVar: (string, int, S) -> S,
    setReturn: (V, S) -> S,
    setThrown: (V, S) -> S,
    catching: (Option<string>, S) -> S)      // binds the thrown value and clears it

  /** A run either ends or uses up its fuel, one unit an iteration of `loop`. */
  datatype Run<S> = OutOfFuel | Done(outcome: Outcome, state: S)

  function EvalOpt<S, V>(m: Machine<S, V>, e: Option<Expr>, s: S): (V, S) {
    if e.None? then (m.nothing, s) else m.eval(e.value, s)
  }

  function Exec<S, V>(m: Machine<S, V>, stmt: Stmt, s: S, fuel: nat): Run<S>
    decreases fuel, stmt, 0
  {
    match stmt
    case Simple(e) => Done(Ok, m.eval(e, s).1)
    case Block(stmts) => ExecBlock(m, stmts, s, fuel)
    case If(cond, thenBranch, elseBranch) =>
      var (v, s1) := m.eval(cond, s);
      if m.truthy(v) then Exec(m, thenBranch, s1, fuel)
      else if elseBranch.Some? then Exec(m, elseBranch.value, s1, fuel)
      else Done(Ok, s1)
    case Loop(cond, body) => ExecLoop(m, cond, body, s, fuel)
    case Cruise(name, first, last, body) =>
      var (a, s1) := m.eval(first, s);
      var (b, s2) := m.eval(last, s1);
      ExecCruise(m, name, m.asInt(a), m.asInt(b), body, s2, fuel)
    case BreakStmt => Done(Break, s)
    case ContinueStmt => Done(Continue, s)
    case ReturnStmt(value) =>
      var (v, s1) := EvalOpt(m, value, s);
      Done(Return, m.setReturn(v, s1))
    case ThrowStmt(value) =>
      var (v, s1) := EvalOpt(m, value, s);
      Done(Throw, m.setThrown(v, s1))
    case Try(body, catchVar, catchBlock, finallyBlock) =>
      var r := Exec(m, body, s, fuel);
      var r1 :=
        if r.Done? && r.outcome == Throw && catchBlock.Some?
        then Exec(m, catchBlock.value, m.catching(catchVar, r.state), fuel) else r;
      if r1.Done? && finallyBlock.Some? then
        Finally(r1.outcome, Exec(m, finallyBlock.value, r1.state, fuel))
      else r1
  }

  /** After a finally block only its own return or throw replaces the earlier outcome. */
  function Finally<S>(outcome: Outcome, f: Run<S>): Run<S> {
    if f.Done? && f.outcome != Return && f.outcome != Throw then Done(outcome, f.state) else f
  }

  function ExecBlock<S, V>(m: Machine<S, V>, stmts: seq<Stmt>, s: S, fuel: nat): Run<S>
    decreases fuel, stmts, 0
  {
    if stmts == [] then Done(Ok, s)
    else
      var r := Exec(m, stmts[0], s, fuel);
      if r.Done? && r.outcome == Ok then ExecBlock(m, stmts[1..], r.state, fuel) else r
  }

  function ExecLoop<S, V>(m: Machine<S, V>, cond: Expr, body: Stmt, s: S, fuel: nat): Run<S>
    decreases fuel, body, 1
  {
    if fuel == 0 then OutOfFuel
    else
      var (v, s1) := m.eval(cond, s);
      if !m.truthy(v) then Done(Ok, s1)
      else
        var r := Exec(m, body, s1, fuel - 1);
        if r.OutOfFuel? then OutOfFuel
        else if r.outcome == Break then Done(Ok, r.state)
        else if r.outcome == Return || r.outcome == Throw then r
        else ExecLoop(m, cond, body, r.state, fuel - 1)
  }

  function ExecCruise<S, V>(m: Machine<S, V>, name: string, i: int, end: int, body: Stmt, s: S, fuel: nat): Run<S>
    decreases fuel, body, 1, end - i
  {
    if i >= end then Done(Ok, s)
    else
      var r := Exec(m, body, m.setVar(name, i, s), fuel);
      if r.OutOfFuel? then OutOfFuel
      else if r.outcome == Break then Done(Ok, r.state)
      else if r.outcome == Return || r.outcome == Throw then r
      else ExecCruise(m, name, i + 1, end, body, r.state, fuel)
  }

  // ---------- The statement executor ----------

  class Executor<S, V> {
    const m: Machine<S, V>
    var state: S

    constructor (m: Machine<S, V>, state: S)
      ensures this.m == m && this.state == state
    {
      this.m := m;
      this.state := state;
    }

    /** Nothing stands for a run that has used up its fuel. */
    ghost predicate Agrees(spec: Run<S>, outcome: Option<Outcome>)
      reads this
    {
      if spec.OutOfFuel? then outcome.None? else spec == Done(spec.outcome, state) && outcome == Some(spec.outcome)
    }

    method Evaluate(e: Expr) returns (v: V)
      modifies this
      ensures (v, state) == m.eval(e, old(state))
    {
      var (v', s') := m.eval(e, state);
      v := v';
      state := s';
    }

    method ExecStatement(stmt: Stmt, fuel: nat) returns (outcome: Option<Outcome>)
      modifies this
      ensures Agrees(Exec(m, stmt, old(state), fuel), outcome)
      decreases fuel, stmt, 2
    {
      match stmt
      case Simple(e) =>
        var _ := Evaluate(e);
        outcome := Some(Ok);
      case Block(stmts) => outcome := ExecStatements(stmts, fuel);
      case If(cond, thenBranch, elseBranch) =>
        var v := Evaluate(cond);
        if m.truthy(v) {
          outcome := ExecStatement(thenBranch, fuel);
        } else if elseBranch.Some? {
          outcome := ExecStatement(elseBranch.value, fuel);
        } else {
          outcome := Some(Ok);
        }
      case Loop(cond, body) => outcome := RunLoop(cond, body, fuel);
      case Cruise(name, first, last, body) =>
        var a := Evaluate(first);
        var b := Evaluate(last);
        outcome := RunCruise(name, m.asInt(a), m.asInt(b), body, fuel);
      case BreakStmt => outcome := Some(Break);
      case ContinueStmt => outcome := Some(Continue);
      case ReturnStmt(value) =>
        var v := m.nothing;
        if value.Some? { v := Evaluate(value.value); }
        state := m.setReturn(v, state);
        outcome := Some(Return);
      case ThrowStmt(value) =>
        var v := m.nothing;
        if value.Some? { v := Evaluate(value.value); }
        state := m.setThrown(v, state);
        outcome := Some(Throw);
      case Try(body, catchVar, catchBlock, finallyBlock) =>
        outcome := ExecStatement(body, fuel);
        if outcome == Some(Throw) && catchBlock.Some? {
          state := m.catching(catchVar, state);
          outcome := ExecStatement(catchBlock.value, fuel);
        }
        if outcome.Some? && finallyBlock.Some? {
          var last := ExecStatement(finallyBlock.value, fuel);
          if last == Some(Return) || last == Some(Throw) || last.None? { return last; }
        }
    }

    method ExecStatements(stmts: seq<Stmt>, fuel: nat) returns (outcome: Option<Outcome>)
      modifies this
      ensures Agrees(ExecBlock(m, stmts, old(state), fuel), outcome)
      decreases fuel, stmts, 1
    {
      var i := 0;
      while i < |stmts|
        invariant i <= |stmts|
        invariant ExecBlock(m, stmts, old(state), fuel) == ExecBlock(m, stmts[i..], state, fuel)
      {
        assert stmts[i..][1..] == stmts[i + 1..];
        outcome := ExecStatement(stmts[i], fuel);
        if outcome != Some(Ok) { return; }
        i := i + 1;
      }
      outcome := Some(Ok);
    }

    method RunLoop(cond: Expr, body: Stmt, fuel: nat) returns (outcome: Option<Outcome>)
      modifies this
      ensures Agrees(ExecLoop(m, cond, body, old(state), fuel), outcome)
      decreases fuel, body, 3
    {
      var left: nat := fuel;
      while left > 0
        invariant left <= fuel
        invariant ExecLoop(m, cond, body, old(state), fuel) == ExecLoop(m, cond, body, state, left)
      {
        var v := Evaluate(cond);
        if !m.truthy(v) { return Some(Ok); }
        outcome := ExecStatement(body, left - 1);
        if outcome == Some(Break) { return Some(Ok); }
        if outcome == Some(Return) || outcome == Some(Throw) || outcome.None? { return; }
        left := left - 1;
      }
      outcome := None;
    }

    method RunCruise(name: string, first: int, end: int, body: Stmt, fuel: nat) returns (outcome: Option<Outcome>)
      modifies this
      ensures Agrees(ExecCruise(m, name, first, end, body, old(state), fuel), outcome)
      decreases fuel, body, 3
    {
      var i := first;
      while i < end
        invariant ExecCruise(m, name, first, end, body, old(state), fuel)
          == ExecCruise(m, name, i, end, body, state, fuel)
      {
        state := m.setVar(name, i, state);
        outcome := ExecStatement(body, fuel);
        if outcome == Some(Break) { return Some(Ok); }
        if outcome == Some(Return) || outcome == Some(Throw) || outcome.None? { return; }
        i := i + 1;
      }
      outcome := Some(Ok);
    }
  }
}
