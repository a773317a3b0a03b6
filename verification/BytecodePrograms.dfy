/** What pieces of bytecode compute, wherever they stand in a chunk (src/vm/vm.c). The opcodes
    are written as the numbers that src/vm/vm.h gives them. */
module BytecodePrograms {
  import opened Options
  import opened Bytecode

  // ---------- Code inside a chunk ----------

  predicate At<N>(chunk: Chunk<N>, ip: int, code: seq<Byte>) {
    0 <= ip && ip + |code| <= |chunk.code| && chunk.code[ip..ip + |code|] == code
  }

  lemma {:induction false} AtParts<N>(chunk: Chunk<N>, ip: int, xs: seq<Byte>, ys: seq<Byte>)
    requires At(chunk, ip, xs + ys)
    ensures At(chunk, ip, xs) && At(chunk, ip + |xs|, ys)
  {
    var all := chunk.code[ip..ip + |xs + ys|];
    assert all[..|xs|] == xs && all[|xs|..] == ys;
    assert chunk.code[ip..ip + |xs|] == all[..|xs|];
    assert chunk.code[ip + |xs|..ip + |xs| + |ys|] == all[|xs|..];
  }

  lemma {:induction false} AtByte<N>(chunk: Chunk<N>, ip: int, code: seq<Byte>, k: nat)
    requires At(chunk, ip, code) && k < |code|
    ensures ip + k < |chunk.code| && chunk.code[ip + k] == code[k]
  {
    assert chunk.code[ip..ip + |code|][k] == chunk.code[ip + k];
  }

  // ---------- Jumps ----------

  /** A conditional jump leaves the stack alone and skips its distance exactly when `false` is on
      top. */
  lemma {:induction false} JumpsIfFalse<N>(w: World<N>, chunk: Chunk<N>, s: State<N>, high: Byte, low: Byte, b: bool)
    requires s.status == Running && At(chunk, s.ip, [32, high, low])
    requires s.stack != [] && s.stack[|s.stack| - 1] == Bool(b)
    ensures Run(w, chunk, s, 1) == s.(ip := if b then s.ip + 3 else s.ip + 3 + 256 * high + low)
  {
    AtByte(chunk, s.ip, [32, high, low], 0);
    AtByte(chunk, s.ip, [32, high, low], 1);
    AtByte(chunk, s.ip, [32, high, low], 2);
    assert Decode(chunk, s.ip) == Some((JumpIfFalse(Short(high, low)), s.ip + 3));
    RunsOne(w, chunk, s);
  }

  /** The other two jumps always go, one forwards and one backwards. */
  lemma {:induction false} JumpsAlways<N>(w: World<N>, chunk: Chunk<N>, s: State<N>, op: Byte, high: Byte, low: Byte)
    requires s.status == Running && At(chunk, s.ip, [op, high, low]) && (op == 31 || op == 34)
    ensures Run(w, chunk, s, 1)
         == s.(ip := if op == 31 then s.ip + 3 + 256 * high + low else s.ip + 3 - (256 * high + low))
  {
    AtByte(chunk, s.ip, [op, high, low], 0);
    AtByte(chunk, s.ip, [op, high, low], 1);
    AtByte(chunk, s.ip, [op, high, low], 2);
    RunsOne(w, chunk, s);
  }

  lemma {:induction false} RunsOne<N>(w: World<N>, chunk: Chunk<N>, s: State<N>)
    ensures Run(w, chunk, s, 1) == Step(w, chunk, s)
  {
    hide Step;
    assert Run(w, chunk, Step(w, chunk, s), 0) == Step(w, chunk, s);
  }

  // ---------- Runs one after the other ----------

  ghost predicate Reaches<N>(w: World<N>, chunk: Chunk<N>, s: State<N>, t: State<N>) {
    exists steps: nat :: Run(w, chunk, s, steps) == t
  }

  lemma {:induction false} RunsAppend<N>(w: World<N>, chunk: Chunk<N>, s: State<N>, n: nat, k: nat)
    ensures Run(w, chunk, s, n + k) == Run(w, chunk, Run(w, chunk, s, n), k)
    decreases n
  {
    hide Step;
    if n > 0 { RunsAppend(w, chunk, Step(w, chunk, s), n - 1, k); }
  }

  lemma {:induction false} ReachesOn<N>(w: World<N>, chunk: Chunk<N>, s: State<N>, t: State<N>, u: State<N>)
    requires Reaches(w, chunk, s, t) && Reaches(w, chunk, t, u)
    ensures Reaches(w, chunk, s, u)
  {
    hide Run;
    var n: nat :| Run(w, chunk, s, n) == t;
    var k: nat :| Run(w, chunk, t, k) == u;
    RunsAppend(w, chunk, s, n, k);
    assert Run(w, chunk, s, n + k) == u;
  }

  lemma {:induction false} ReachesNext<N>(w: World<N>, chunk: Chunk<N>, s: State<N>, t: State<N>, u: State<N>)
    requires Reaches(w, chunk, s, t) && Run(w, chunk, t, 1) == u
    ensures Reaches(w, chunk, s, u)
  {
    hide Run;
    ReachesOn(w, chunk, s, t, u);
  }

  // ---------- Code that pushes values ----------

  /** `s` behind `length` bytes that have pushed `values`. */
  function After<N>(s: State<N>, length: nat, values: seq<Value<N>>): State<N> {
    s.(ip := s.ip + length, stack := s.stack + values)
  }

  /** A state at the beginning of `code` with so much room on its stack. */
  ghost predicate Ready<N>(chunk: Chunk<N>, constants: seq<Value<N>>, s: State<N>, code: seq<Byte>, room: nat) {
    && s.status == Running && chunk.constants == constants && At(chunk, s.ip, code)
    && |s.stack| + room <= STACK_MAX
  }

  /** Wherever `code` stands, and on any stack with so much room, running it pushes `values` in this
      order and changes nothing else. */
  ghost predicate Computes<N(!new)>(w: World<N>, constants: seq<Value<N>>, code: seq<Byte>, room: nat,
          values: seq<Value<N>>) {
    forall chunk, s :: Ready(chunk, constants, s, code, room) ==> Reaches(w, chunk, s, After(s, |code|, values))
  }

  lemma {:induction false} PushesOne<N>(w: World<N>, chunk: Chunk<N>, s: State<N>, op: Byte)
    requires Ready(chunk, chunk.constants, s, [op], 1) && 2 <= op <= 4
    ensures Run(w, chunk, s, 1) == After(s, 1, [if op == 2 then Null else Bool(op == 3)])
  {
    AtByte(chunk, s.ip, [op], 0);
    RunsOne(w, chunk, s);
  }

  lemma {:induction false} PushesConstant<N>(w: World<N>, chunk: Chunk<N>, s: State<N>, k: Byte)
    requires Ready(chunk, chunk.constants, s, [1, k], 1) && k < |chunk.constants|
    ensures Run(w, chunk, s, 1) == After(s, 2, [chunk.constants[k]])
  {
    AtByte(chunk, s.ip, [1, k], 0);
    AtByte(chunk, s.ip, [1, k], 1);
    RunsOne(w, chunk, s);
  }

  /** Null, true and false, */
  lemma {:induction false} LiteralsCompute<N(!new)>(w: World<N>, constants: seq<Value<N>>)
    ensures Computes(w, constants, [2], 1, [Null])
    ensures Computes(w, constants, [3], 1, [Bool(true)])
    ensures Computes(w, constants, [4], 1, [Bool(false)])
  {
    hide Run;
    forall op: Byte, chunk, s | 2 <= op <= 4 && Ready(chunk, constants, s, [op], 1)
      ensures Reaches(w, chunk, s, After(s, 1, [if op == 2 then Null else Bool(op == 3)]))
    {
      PushesOne(w, chunk, s, op);
    }
  }

  /** constants by their number, */
  lemma {:induction false} ConstantsCompute<N(!new)>(w: World<N>, constants: seq<Value<N>>, k: Byte)
    requires k < |constants|
    ensures Computes(w, constants, [1, k], 1, [constants[k]])
  {
    hide Run;
    forall chunk, s | Ready(chunk, constants, s, [1, k], 1)
      ensures Reaches(w, chunk, s, After(s, 2, [constants[k]]))
    {
      PushesConstant(w, chunk, s, k);
    }
  }

  /** and whatever two pieces of code push, one after the other. */
  lemma {:induction false} PiecesCompute<N(!new)>(w: World<N>, constants: seq<Value<N>>, room: nat,
          xs: seq<Byte>, us: seq<Value<N>>, ys: seq<Byte>, vs: seq<Value<N>>)
    requires |us| <= room && Computes(w, constants, xs, room, us) && Computes(w, constants, ys, room - |us|, vs)
    ensures Computes(w, constants, xs + ys, room, us + vs)
  {
    hide Reaches, At;
    forall chunk, s | Ready(chunk, constants, s, xs + ys, room)
      ensures Reaches(w, chunk, s, After(s, |xs + ys|, us + vs))
    {
      AtParts(chunk, s.ip, xs, ys);
      var t := After(s, |xs|, us);
      assert Ready(chunk, constants, s, xs, room) && Ready(chunk, constants, t, ys, room - |us|);
      assert s.stack + us + vs == s.stack + (us + vs);
      ReachesOn(w, chunk, s, t, After(t, |ys|, vs));
    }
  }

  /** More room does no harm. */
  lemma {:induction false} MoreRoom<N(!new)>(w: World<N>, constants: seq<Value<N>>, code: seq<Byte>, room: nat,
          more: nat, values: seq<Value<N>>)
    requires Computes(w, constants, code, room, values) && room <= more
    ensures Computes(w, constants, code, more, values)
  {
    hide Reaches, At;
    forall chunk, s | Ready(chunk, constants, s, code, more)
      ensures Reaches(w, chunk, s, After(s, |code|, values))
    {
      assert Ready(chunk, constants, s, code, room);
    }
  }

  // ---------- Instructions that use what was pushed ----------

  /** `code`, which takes `s` behind the values `us`, turns them into `vs`. */
  ghost predicate Turns<N>(w: World<N>, chunk: Chunk<N>, s: State<N>, code: seq<Byte>, us: seq<Value<N>>,
          vs: seq<Value<N>>) {
    Run(w, chunk, s.(stack := s.stack + us), 1) == After(s, |code|, vs)
  }

  /** Code that pushes `us` and an instruction that turns them into `vs` push `vs` together. */
  lemma {:induction false} ThenCompute<N(!new)>(w: World<N>, constants: seq<Value<N>>, room: nat, code: seq<Byte>,
          us: seq<Value<N>>, last: seq<Byte>, vs: seq<Value<N>>)
    requires Computes(w, constants, code, room, us)
    requires forall chunk, s :: Ready(chunk, constants, s, last, room) ==> Turns(w, chunk, s, last, us, vs)
    ensures Computes(w, constants, code + last, room, vs)
  {
    hide Run, At;
    forall chunk, s | Ready(chunk, constants, s, code + last, room)
      ensures Reaches(w, chunk, s, After(s, |code + last|, vs))
    {
      AtParts(chunk, s.ip, code, last);
      var t := s.(ip := s.ip + |code|);
      assert Ready(chunk, constants, s, code, room) && Ready(chunk, constants, t, last, room);
      assert Turns(w, chunk, t, last, us, vs);
      ReachesNext(w, chunk, s, After(s, |code|, us), After(s, |code + last|, vs));
    }
  }

  /** What an operator makes of its two operands. */
  function Applied<N>(w: World<N>, op: Byte, a: Value<N>, b: Value<N>): Option<Value<N>> {
    if 16 <= op <= 20 && a.Number? && b.Number? then Some(Number(w.arith(op, a.n, b.n)))
    else if 22 <= op <= 27 && a.Number? && b.Number? then Some(Bool(w.compare(op, a.n, b.n)))
    else if op == 42 && a.Str? && b.Str? then Some(Str(a.s + b.s))
    else None
  }

  lemma {:induction false} Applies<N>(w: World<N>, chunk: Chunk<N>, s: State<N>, op: Byte, a: Value<N>, b: Value<N>)
    requires Ready(chunk, chunk.constants, s, [op], 2) && Applied(w, op, a, b).Some?
    ensures Turns(w, chunk, s, [op], [a, b], [Applied(w, op, a, b).value])
  {
    AtByte(chunk, s.ip, [op], 0);
    var t := s.(stack := s.stack + [a, b]);
    assert t.stack[..|s.stack|] == s.stack;
    RunsOne(w, chunk, t);
  }

  /** An operator takes the value pushed first on its left. */
  lemma {:induction false} OperatorsCompute<N(!new)>(w: World<N>, constants: seq<Value<N>>, room: nat,
          code: seq<Byte>, a: Value<N>, b: Value<N>, op: Byte)
    requires room >= 2 && Computes(w, constants, code, room, [a, b]) && Applied(w, op, a, b).Some?
    ensures Computes(w, constants, code + [op], room, [Applied(w, op, a, b).value])
  {
    hide Run, Applied, Turns, Computes, At;
    forall chunk, s | Ready(chunk, constants, s, [op], room)
      ensures Turns(w, chunk, s, [op], [a, b], [Applied(w, op, a, b).value])
    {
      Applies(w, chunk, s, op, a, b);
    }
    ThenCompute(w, constants, room, code, [a, b], [op], [Applied(w, op, a, b).value]);
  }

  lemma {:induction false} Negates<N>(w: World<N>, chunk: Chunk<N>, s: State<N>, a: Value<N>)
    requires |s.stack| < STACK_MAX && s.status == Running
    ensures At(chunk, s.ip, [21]) && a.Number? ==> Turns(w, chunk, s, [21], [a], [Number(w.negate(a.n))])
    ensures At(chunk, s.ip, [28]) && a.Bool? ==> Turns(w, chunk, s, [28], [a], [Bool(!a.b)])
  {
    var t := s.(stack := s.stack + [a]);
    assert t.stack[..|s.stack|] == s.stack;
    if At(chunk, s.ip, [21]) { AtByte(chunk, s.ip, [21], 0); }
    if At(chunk, s.ip, [28]) { AtByte(chunk, s.ip, [28], 0); }
    RunsOne(w, chunk, t);
  }

  /** Negation of a number and of a truth value. */
  lemma {:induction false} NegationsCompute<N(!new)>(w: World<N>, constants: seq<Value<N>>, room: nat,
          code: seq<Byte>, a: Value<N>)
    requires room >= 1 && Computes(w, constants, code, room, [a])
    ensures a.Number? ==> Computes(w, constants, code + [21], room, [Number(w.negate(a.n))])
    ensures a.Bool? ==> Computes(w, constants, code + [28], room, [Bool(!a.b)])
  {
    hide Run, Turns, Computes, At;
    forall chunk, s | Ready(chunk, constants, s, [21], room) && a.Number?
      ensures Turns(w, chunk, s, [21], [a], [Number(w.negate(a.n))])
    {
      Negates(w, chunk, s, a);
    }
    forall chunk, s | Ready(chunk, constants, s, [28], room) && a.Bool?
      ensures Turns(w, chunk, s, [28], [a], [Bool(!a.b)])
    {
      Negates(w, chunk, s, a);
    }
    if a.Number? { ThenCompute(w, constants, room, code, [a], [21], [Number(w.negate(a.n))]); }
    if a.Bool? { ThenCompute(w, constants, room, code, [a], [28], [Bool(!a.b)]); }
  }

  lemma {:induction false} Calls<N>(w: World<N>, chunk: Chunk<N>, s: State<N>, id: nat, args: seq<Value<N>>)
    requires |args| < 256 && Ready(chunk, chunk.constants, s, [35, |args|], 1)
    ensures Turns(w, chunk, s, [35, |args|], [Native(id)] + args, [w.native(id, args)])
  {
    AtByte(chunk, s.ip, [35, |args|], 0);
    AtByte(chunk, s.ip, [35, |args|], 1);
    var t := s.(stack := s.stack + ([Native(id)] + args));
    assert t.stack[..|s.stack|] == s.stack && t.stack[|s.stack| + 1..] == args;
    assert Top(t, |args|) == Native(id);
    RunsOne(w, chunk, t);
  }

  /** A call hands its function the arguments in the order they were pushed and leaves the result
      instead of them and the function. */
  lemma {:induction false} CallsCompute<N(!new)>(w: World<N>, constants: seq<Value<N>>, room: nat,
          code: seq<Byte>, id: nat, args: seq<Value<N>>)
    requires room >= 1 && |args| < 256 && Computes(w, constants, code, room, [Native(id)] + args)
    ensures Computes(w, constants, code + [35, |args|], room, [w.native(id, args)])
  {
    hide Run, Turns, Computes, At;
    forall chunk, s | Ready(chunk, constants, s, [35, |args|], room)
      ensures Turns(w, chunk, s, [35, |args|], [Native(id)] + args, [w.native(id, args)])
    {
      Calls(w, chunk, s, id, args);
    }
    ThenCompute(w, constants, room, code, [Native(id)] + args, [35, |args|], [w.native(id, args)]);
  }

  lemma {:induction false} Collects<N>(w: World<N>, chunk: Chunk<N>, s: State<N>, items: seq<Value<N>>)
    requires |items| < 256 && Ready(chunk, chunk.constants, s, [39, |items|], 1)
    ensures Turns(w, chunk, s, [39, |items|], items, [Array(items)])
  {
    AtByte(chunk, s.ip, [39, |items|], 0);
    AtByte(chunk, s.ip, [39, |items|], 1);
    var t := s.(stack := s.stack + items);
    assert t.stack[..|s.stack|] == s.stack && t.stack[|s.stack|..] == items;
    RunsOne(w, chunk, t);
  }

  /** An array holds its items in the order they were pushed. */
  lemma {:induction false} ArraysCompute<N(!new)>(w: World<N>, constants: seq<Value<N>>, room: nat,
          code: seq<Byte>, items: seq<Value<N>>)
    requires room >= 1 && |items| < 256 && Computes(w, constants, code, room, items)
    ensures Computes(w, constants, code + [39, |items|], room, [Array(items)])
  {
    hide Run, Turns, Computes, At;
    forall chunk, s | Ready(chunk, constants, s, [39, |items|], room)
      ensures Turns(w, chunk, s, [39, |items|], items, [Array(items)])
    {
      Collects(w, chunk, s, items);
    }
    ThenCompute(w, constants, room, code, items, [39, |items|], [Array(items)]);
  }

  lemma {:induction false} Pops<N>(w: World<N>, chunk: Chunk<N>, s: State<N>, v: Value<N>)
    requires s.status == Running && At(chunk, s.ip, [13])
    ensures Turns(w, chunk, s, [13], [v], [])
  {
    AtByte(chunk, s.ip, [13], 0);
    var t := s.(stack := s.stack + [v]);
    assert t.stack[..|s.stack|] == s.stack == s.stack + [];
    RunsOne(w, chunk, t);
  }

  // ---------- Choices ----------

  /** The first part of a choice, on condition `b`: to the selected part, with nothing pushed. */
  lemma {:induction false} Selects<N>(w: World<N>, chunk: Chunk<N>, s: State<N>, high: Byte, low: Byte, b: bool)
    requires s.status == Running
    requires At(chunk, s.ip, [32, high, low, 13]) && At(chunk, s.ip + 3 + 256 * high + low, [13])
    ensures Reaches(w, chunk, s.(stack := s.stack + [Bool(b)]),
                    s.(ip := if b then s.ip + 4 else s.ip + 4 + 256 * high + low))
  {
    hide Run;
    assert [32, high, low, 13] == [32, high, low] + [13];
    AtParts(chunk, s.ip, [32, high, low], [13]);
    var t := s.(stack := s.stack + [Bool(b)]);
    JumpsIfFalse(w, chunk, t, high, low, b);
    var u := s.(ip := if b then s.ip + 3 else s.ip + 3 + 256 * high + low);
    Pops(w, chunk, u, Bool(b));
    assert After(u, 1, []) == u.(ip := u.ip + 1) by { assert u.stack + [] == u.stack; }
    ReachesNext(w, chunk, t, u.(stack := u.stack + [Bool(b)]), u.(ip := u.ip + 1));
  }

  /** The code of a choice: condition, jump, first part, jump, second part. */
  function Choice(cond: seq<Byte>, high1: Byte, low1: Byte, first: seq<Byte>, high2: Byte, low2: Byte,
          second: seq<Byte>): seq<Byte> {
    cond + [32, high1, low1, 13] + first + [31, high2, low2] + [13] + second
  }

  lemma {:induction false} ChoiceParts<N>(chunk: Chunk<N>, ip: int, cond: seq<Byte>, high1: Byte, low1: Byte,
          first: seq<Byte>, high2: Byte, low2: Byte, second: seq<Byte>)
    requires At(chunk, ip, Choice(cond, high1, low1, first, high2, low2, second))
    ensures var n := ip + |cond| + 4 + |first|;
      && At(chunk, ip, cond) && At(chunk, ip + |cond|, [32, high1, low1, 13]) && At(chunk, ip + |cond| + 4, first)
      && At(chunk, n, [31, high2, low2]) && At(chunk, n + 3, [13]) && At(chunk, n + 4, second)
  {
    hide At;
    var c1 := cond + [32, high1, low1, 13];
    AtParts(chunk, ip, c1 + first + [31, high2, low2] + [13], second);
    AtParts(chunk, ip, c1 + first + [31, high2, low2], [13]);
    AtParts(chunk, ip, c1 + first, [31, high2, low2]);
    AtParts(chunk, ip, c1, first);
    AtParts(chunk, ip, cond, [32, high1, low1, 13]);
  }

  /** A choice whose two jumps have the distances of its parts runs exactly the part that its
      condition selects. Nothing is asked of the other part. */
  lemma {:induction false} ChoicesCompute<N(!new)>(w: World<N>, constants: seq<Value<N>>, room: nat, b: bool,
          cond: seq<Byte>, high1: Byte, low1: Byte, first: seq<Byte>, high2: Byte, low2: Byte, second: seq<Byte>,
          values: seq<Value<N>>)
    requires 256 * high1 + low1 == |first| + 4 && 256 * high2 + low2 == |second| + 1
    requires Computes(w, constants, cond, room, [Bool(b)])
    requires Computes(w, constants, if b then first else second, room, values)
    ensures Computes(w, constants, Choice(cond, high1, low1, first, high2, low2, second), room, values)
  {
    hide Reaches, Run, At, Choice;
    var code := Choice(cond, high1, low1, first, high2, low2, second);
    forall chunk, s | Ready(chunk, constants, s, code, room)
      ensures Reaches(w, chunk, s, After(s, |code|, values))
    {
      ChoiceRuns(w, chunk, s, room, b, cond, high1, low1, first, high2, low2, second, values);
    }
  }

  lemma {:induction false} ChoiceRuns<N(!new)>(w: World<N>, chunk: Chunk<N>, s: State<N>, room: nat, b: bool,
          cond: seq<Byte>, high1: Byte, low1: Byte, first: seq<Byte>, high2: Byte, low2: Byte, second: seq<Byte>,
          values: seq<Value<N>>)
    requires 256 * high1 + low1 == |first| + 4 && 256 * high2 + low2 == |second| + 1
    requires Computes(w, chunk.constants, cond, room, [Bool(b)])
    requires Computes(w, chunk.constants, if b then first else second, room, values)
    requires Ready(chunk, chunk.constants, s, Choice(cond, high1, low1, first, high2, low2, second), room)
    ensures var code := Choice(cond, high1, low1, first, high2, low2, second);
      Reaches(w, chunk, s, After(s, |code|, values))
  {
    hide Reaches, Run, At;
    var code := Choice(cond, high1, low1, first, high2, low2, second);
    ChoiceParts(chunk, s.ip, cond, high1, low1, first, high2, low2, second);
    assert Ready(chunk, chunk.constants, s, cond, room);
    var t := s.(ip := s.ip + |cond|);
    Selects(w, chunk, t, high1, low1, b);
    var part := if b then first else second;
    var u := t.(ip := if b then t.ip + 4 else t.ip + 4 + 256 * high1 + low1);
    ReachesOn(w, chunk, s, t.(stack := s.stack + [Bool(b)]), u);
    assert Ready(chunk, chunk.constants, u, part, room);
    var v := After(u, |part|, values);
    ReachesOn(w, chunk, s, u, v);
    if b {
      JumpsAlways(w, chunk, v, 31, high2, low2);
      ReachesNext(w, chunk, s, v, After(s, |code|, values));
    }
  }

  // ---------- Where execution stops ----------

  /** A return takes the value on top; opcodes other than these do not exist for the interpreter. */
  lemma {:induction false} Stops<N>(w: World<N>, chunk: Chunk<N>, s: State<N>, op: Byte)
    requires s.status == Running && At(chunk, s.ip, [op])
    ensures op == 37 && s.stack != [] ==>
      Run(w, chunk, s, 1) == s.(status := Returned, ip := s.ip + 1, stack := s.stack[..|s.stack| - 1])
    ensures !(1 <= op <= 4 || op == 13 || 16 <= op <= 28 || op in {31, 32, 34, 35, 37, 39, 42}) ==>
      Run(w, chunk, s, 1) == s.(status := Stuck(UnknownOpcode), ip := s.ip + 1)
  {
    AtByte(chunk, s.ip, [op], 0);
    RunsOne(w, chunk, s);
  }

  /** Two operands that are not both numbers are dropped with a message; everywhere else a value of
      the wrong kind ends the run. */
  lemma {:induction false} WrongKinds<N>(w: World<N>, chunk: Chunk<N>, s: State<N>, op: Byte, a: Value<N>, b: Value<N>)
    requires s.status == Running && At(chunk, s.ip, [op])
    ensures (16 <= op <= 20 || 22 <= op <= 27) && !(a.Number? && b.Number?) ==>
      Run(w, chunk, s.(stack := s.stack + [a, b]), 1) == s.(ip := s.ip + 1, errors := s.errors + 1)
    ensures op == 42 && !(a.Str? && b.Str?) ==>
      Run(w, chunk, s.(stack := s.stack + [a, b]), 1).status == Stuck(RuntimeError)
    ensures (op == 21 && !a.Number?) || (op == 28 && !a.Bool?) ==>
      Run(w, chunk, s.(stack := s.stack + [a]), 1).status == Stuck(RuntimeError)
  {
    AtByte(chunk, s.ip, [op], 0);
    var one, two := s.(stack := s.stack + [a]), s.(stack := s.stack + [a, b]);
    assert two.stack[..|s.stack|] == s.stack;
    RunsOne(w, chunk, one);
    RunsOne(w, chunk, two);
  }

  /** Only native functions are called, and only truth values decide a jump. */
  lemma {:induction false} WrongTargets<N>(w: World<N>, chunk: Chunk<N>, s: State<N>, n: Byte, high: Byte, low: Byte)
    requires s.status == Running && n < |s.stack|
    ensures At(chunk, s.ip, [35, n]) && !s.stack[|s.stack| - 1 - n].Native? ==>
      Run(w, chunk, s, 1).status == Stuck(RuntimeError)
    ensures At(chunk, s.ip, [32, high, low]) && !s.stack[|s.stack| - 1].Bool? ==>
      Run(w, chunk, s, 1).status == Stuck(NotBoolean)
  {
    if At(chunk, s.ip, [35, n]) {
      AtByte(chunk, s.ip, [35, n], 0);
      AtByte(chunk, s.ip, [35, n], 1);
    }
    if At(chunk, s.ip, [32, high, low]) {
      AtByte(chunk, s.ip, [32, high, low], 0);
      AtByte(chunk, s.ip, [32, high, low], 1);
      AtByte(chunk, s.ip, [32, high, low], 2);
    }
    RunsOne(w, chunk, s);
  }
}
