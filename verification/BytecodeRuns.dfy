/** Runs of chunks without a typing: when they report errors and when they write behind their
    stack (src/vm/vm.c). */
module BytecodeRuns {
  import opened Options
  import opened Bytecode

  lemma {:induction false} StoppedStays<N>(w: World<N>, chunk: Chunk<N>, s: State<N>, steps: nat)
    requires s.status != Running
    ensures Run(w, chunk, s, steps) == s
    decreases steps
  {
    if steps > 0 { StoppedStays(w, chunk, s, steps - 1); }
  }

  // ---------- Type errors that are only reported ----------

  predicate TwoNumbers<N>(s: State<N>) {
    |s.stack| >= 2 && Top(s, 0).Number? && Top(s, 1).Number?
  }

  /** `s` is about to do arithmetic, or to compare, without two numbers on top of its stack. */
  predicate MissesNumbers<N>(chunk: Chunk<N>, s: State<N>) {
    && s.status == Running && Decode(chunk, s.ip).Some?
    && (Decode(chunk, s.ip).value.0.Arith? || Decode(chunk, s.ip).value.0.Compare?)
    && !TwoNumbers(s)
  }

  lemma {:induction false} StepErrors<N>(w: World<N>, chunk: Chunk<N>, s: State<N>)
    ensures Step(w, chunk, s).errors >= s.errors
    ensures !Step(w, chunk, s).status.Stuck? ==>
      (Step(w, chunk, s).errors == s.errors <==> !MissesNumbers(chunk, s))
  {
    hide Decode, Replace, CallStep, ConcatStep;
  }

  lemma {:induction false} ErrorsGrow<N>(w: World<N>, chunk: Chunk<N>, s: State<N>, steps: nat)
    ensures Run(w, chunk, s, steps).errors >= s.errors
    decreases steps
  {
    hide Step;
    if steps > 0 {
      StepErrors(w, chunk, s);
      ErrorsGrow(w, chunk, Step(w, chunk, s), steps - 1);
    }
  }

  /** Every arithmetic operation and comparison executed in that many steps found two numbers. */
  predicate AlwaysNumbers<N>(w: World<N>, chunk: Chunk<N>, s: State<N>, steps: nat) {
    forall k | 0 <= k < steps :: !MissesNumbers(chunk, Run(w, chunk, s, k))
  }

  lemma {:induction false} AlwaysNumbersStep<N>(w: World<N>, chunk: Chunk<N>, s: State<N>, steps: nat)
    ensures AlwaysNumbers(w, chunk, s, steps + 1)
      <==> !MissesNumbers(chunk, s) && AlwaysNumbers(w, chunk, Step(w, chunk, s), steps)
  {
    hide Step, MissesNumbers;
    var t := Step(w, chunk, s);
    assert Run(w, chunk, s, 0) == s;
    forall k | 0 <= k < steps ensures Run(w, chunk, s, k + 1) == Run(w, chunk, t, k) { }
    if AlwaysNumbers(w, chunk, t, steps) && !MissesNumbers(chunk, s) {
      forall k | 0 <= k < steps + 1 ensures !MissesNumbers(chunk, Run(w, chunk, s, k)) {
        if k > 0 { assert !MissesNumbers(chunk, Run(w, chunk, t, k - 1)); }
      }
    }
  }

  /** A run that is not stuck has reported no error if and only if every arithmetic operation and
      comparison that it executed found two numbers on top of the stack. */
  lemma {:induction false} NoErrorIff<N>(w: World<N>, chunk: Chunk<N>, s: State<N>, steps: nat)
    requires !Run(w, chunk, s, steps).status.Stuck?
    ensures Run(w, chunk, s, steps).errors == s.errors <==> AlwaysNumbers(w, chunk, s, steps)
    decreases steps
  {
    hide Step, MissesNumbers, AlwaysNumbers;
    if steps == 0 {
      NothingYet(w, chunk, s);
    } else {
      var t := Step(w, chunk, s);
      if t.status.Stuck? { StoppedStays(w, chunk, t, steps - 1); }
      StepErrors(w, chunk, s);
      ErrorsGrow(w, chunk, t, steps - 1);
      NoErrorIff(w, chunk, t, steps - 1);
      AlwaysNumbersStep(w, chunk, s, steps - 1);
    }
  }

  lemma {:induction false} NothingYet<N>(w: World<N>, chunk: Chunk<N>, s: State<N>)
    ensures AlwaysNumbers(w, chunk, s, 0) && !EverPushesWhenFull(w, chunk, s, 0)
  {
  }

  /** `true true add null return` reports an error, goes on and returns. */
  lemma {:induction false} ErrorGoesOn<N>(w: World<N>)
    ensures var chunk := Chunk([OP_TRUE, OP_TRUE, OP_ADD, OP_NULL, OP_RETURN], []);
      var r := Run(w, chunk, Start([]), 5);
      r.status == Returned && r.errors == 1
  {
    var chunk := Chunk([OP_TRUE, OP_TRUE, OP_ADD, OP_NULL, OP_RETURN], []);
    var s1, s2 := Start([]).(ip := 1, stack := [Bool(true)]), Start([]).(ip := 2, stack := [Bool(true), Bool(true)]);
    var s3 := Start([]).(ip := 3, errors := 1);
    var s4 := s3.(ip := 4, stack := [Null]);
    assert Step(w, chunk, Start([])) == s1;
    assert Step(w, chunk, s1) == s2;
    assert Step(w, chunk, s2) == s3;
    assert Step(w, chunk, s3) == s4;
    RunOne(w, chunk, Start([]), 4);
    RunOne(w, chunk, s1, 3);
    RunOne(w, chunk, s2, 2);
    RunOne(w, chunk, s3, 1);
    RunOne(w, chunk, s4, 0);
  }

  lemma {:induction false} RunOne<N>(w: World<N>, chunk: Chunk<N>, s: State<N>, steps: nat)
    ensures Run(w, chunk, s, steps + 1) == Run(w, chunk, Step(w, chunk, s), steps)
  {
  }

  // ---------- Writes behind the stack ----------

  /** The stack of `s` is full and the next instruction only pushes. */
  predicate PushesWhenFull<N>(chunk: Chunk<N>, s: State<N>) {
    && s.status == Running && |s.stack| == STACK_MAX && Decode(chunk, s.ip).Some?
    && match Decode(chunk, s.ip).value.0
       case Const(k) => k < |chunk.constants|
       case Literal(_) => true
       case MakeArray(count) => count == 0
       case _ => false
  }

  /** Pushing after a pop stays within the stack. */
  lemma {:induction false} ReplaceFits<N>(s: State<N>, n: nat, v: Value<N>)
    requires 1 <= n <= |s.stack| <= STACK_MAX
    ensures var r := Replace(s, n, v); r == s.(stack := r.stack) && |r.stack| <= STACK_MAX
  {
  }

  lemma {:induction false} BinaryFits<N>(w: World<N>, s: State<N>, op: Byte)
    requires |s.stack| <= STACK_MAX
    ensures var r := BinaryStep(w, s, op); r.behind == s.behind && |r.stack| <= STACK_MAX
  {
    hide Replace;
    if |s.stack| >= 2 && TwoNumbers(s) {
      ReplaceFits(s, 2, Number(w.arith(op, Top(s, 1).n, Top(s, 0).n)));
      ReplaceFits(s, 2, Bool(w.compare(op, Top(s, 1).n, Top(s, 0).n)));
    }
  }

  lemma {:induction false} CallFits<N>(w: World<N>, s: State<N>, count: Byte)
    requires |s.stack| <= STACK_MAX
    ensures var r := CallStep(w, s, count); r.behind == s.behind && |r.stack| <= STACK_MAX
  {
    hide Replace;
    if |s.stack| >= count + 1 && Top(s, count).Native? {
      ReplaceFits(s, count + 1, w.native(Top(s, count).id, s.stack[|s.stack| - count..]));
    }
  }

  /** What any other instruction, in a state behind it, does. */
  lemma {:induction false} EffectFits<N>(w: World<N>, chunk: Chunk<N>, s: State<N>, i: Instruction<N>)
    requires |s.stack| <= STACK_MAX && !i.Const? && !i.Literal? && !i.MakeArray?
    ensures var r := Effect(w, chunk, s, i); r.behind == s.behind && |r.stack| <= STACK_MAX
  {
    hide BinaryStep, CallStep;
    match i
    case Arith(op) => BinaryFits(w, s, op);
    case Compare(op) => BinaryFits(w, s, op);
    case Call(count) => CallFits(w, s, count);
    case _ =>
  }

  lemma {:induction false} StepSpills<N>(w: World<N>, chunk: Chunk<N>, s: State<N>)
    requires |s.stack| <= STACK_MAX
    ensures var t := Step(w, chunk, s);
      && |t.stack| <= STACK_MAX
      && if PushesWhenFull(chunk, s) then t.behind.Some? && t.status == Stuck(Overflow) else t.behind == s.behind
  {
    hide Decode, BinaryStep, CallStep, ConcatStep;
    if s.status == Running && Decode(chunk, s.ip).Some? {
      var (i, next) := Decode(chunk, s.ip).value;
      if !i.Const? && !i.Literal? && !i.MakeArray? {
        EffectFits(w, chunk, s.(ip := next), i);
      }
    }
  }

  predicate EverPushesWhenFull<N>(w: World<N>, chunk: Chunk<N>, s: State<N>, steps: nat) {
    exists k :: 0 <= k < steps && PushesWhenFull(chunk, Run(w, chunk, s, k))
  }

  lemma {:induction false} EverPushesStep<N>(w: World<N>, chunk: Chunk<N>, s: State<N>, steps: nat)
    ensures EverPushesWhenFull(w, chunk, s, steps + 1)
      <==> PushesWhenFull(chunk, s) || EverPushesWhenFull(w, chunk, Step(w, chunk, s), steps)
  {
    hide Step, PushesWhenFull;
    var t := Step(w, chunk, s);
    if PushesWhenFull(chunk, s) { assert PushesWhenFull(chunk, Run(w, chunk, s, 0)); }
    if k :| 0 <= k < steps && PushesWhenFull(chunk, Run(w, chunk, t, k)) {
      assert PushesWhenFull(chunk, Run(w, chunk, s, k + 1));
    }
    if k :| 0 <= k < steps + 1 && PushesWhenFull(chunk, Run(w, chunk, s, k)) {
      if k > 0 { assert PushesWhenFull(chunk, Run(w, chunk, t, k - 1)); }
    }
  }

  /** A run writes behind its stack if and only if it executes an instruction that only pushes,
      a constant, a literal or an empty array, while the stack holds 256 values. */
  lemma {:induction false} SpillsIff<N>(w: World<N>, chunk: Chunk<N>, s: State<N>, steps: nat)
    requires |s.stack| <= STACK_MAX && s.behind == None
    ensures Run(w, chunk, s, steps).behind.Some? <==> EverPushesWhenFull(w, chunk, s, steps)
    decreases steps
  {
    hide Step, PushesWhenFull, EverPushesWhenFull;
    if steps == 0 {
      NothingYet(w, chunk, s);
    } else {
      var t := Step(w, chunk, s);
      StepSpills(w, chunk, s);
      EverPushesStep(w, chunk, s, steps - 1);
      if PushesWhenFull(chunk, s) {
        StoppedStays(w, chunk, t, steps - 1);
      } else {
        SpillsIff(w, chunk, t, steps - 1);
      }
    }
  }

  function Nulls<N>(n: nat): (r: seq<Value<N>>)
    ensures |r| == n
  {
    seq(n, _ => Null)
  }

  /** Two instructions that push and jump back. */
  function PushForever<N>(): Chunk<N> {
    Chunk([OP_NULL, OP_LOOP, 0, 4], [])
  }

  lemma {:induction false} PushesOn<N>(w: World<N>, n: nat, steps: nat)
    requires n < STACK_MAX
    ensures Run(w, PushForever(), Start(Nulls(n)), steps + 2) == Run(w, PushForever(), Start(Nulls(n + 1)), steps)
  {
    var chunk := PushForever<N>();
    var s := Start(Nulls<N>(n)).(ip := 1, stack := Nulls(n + 1));
    assert Nulls<N>(n)[..n] + [Null] == Nulls(n + 1);
    assert Step(w, chunk, Start(Nulls(n))) == s;
    assert Step(w, chunk, s) == Start(Nulls(n + 1));
    RunOne(w, chunk, Start(Nulls(n)), steps + 1);
    RunOne(w, chunk, s, steps);
  }

  lemma {:induction false} LastPush<N>(w: World<N>)
    ensures var r := Step(w, PushForever(), Start(Nulls(STACK_MAX)));
      r.status == Stuck(Overflow) && r.behind == Some(Null)
  {
  }

  /** `null` in a loop: the 257th value is written behind the stack. */
  lemma {:induction false} FullStackSpills<N>(w: World<N>)
    ensures var r := Run(w, PushForever(), Start([]), 513);
      r.status == Stuck(Overflow) && r.behind == Some(Null)
  {
    hide Step;
    var chunk := PushForever<N>();
    assert Nulls<N>(0) == [];
    var n := 0;
    while n < STACK_MAX
      invariant n <= STACK_MAX
      invariant Run(w, chunk, Start([]), 513) == Run(w, chunk, Start(Nulls(n)), 513 - 2 * n)
    {
      PushesOn(w, n, 511 - 2 * n);
      n := n + 1;
    }
    LastPush(w);
    RunOne(w, chunk, Start(Nulls(STACK_MAX)), 0);
  }
}
