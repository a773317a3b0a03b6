/** Stack typings of bytecode, and what a chunk that has one can never do (src/vm/vm.c). */
module BytecodeTyping {
  import opened Options
  import opened Bytecode

  datatype Type = TAny | TNull | TBool | TNumber | TString | TArray | TNative(result: Type)

  ghost predicate HasType<N(!new)>(w: World<N>, v: Value<N>, t: Type)
    decreases t
  {
    match t
    case TAny => true
    case TNull => v.Null?
    case TBool => v.Bool?
    case TNumber => v.Number?
    case TString => v.Str?
    case TArray => v.Array?
    case TNative(result) => v.Native? && forall args :: HasType(w, w.native(v.id, args), result)
  }

  ghost predicate HasTypes<N(!new)>(w: World<N>, stack: seq<Value<N>>, ts: seq<Type>) {
    |stack| == |ts| && forall i :: 0 <= i < |ts| ==> HasType(w, stack[i], ts[i])
  }

  /** Every stack of types `ts` is one of types `us`. */
  predicate Fits(ts: seq<Type>, us: seq<Type>) {
    |ts| == |us| && forall i :: 0 <= i < |ts| ==> us[i] == TAny || ts[i] == us[i]
  }

  /** A typing gives the stack at the instruction offsets that can be reached. */
  type Typing = map<int, seq<Type>>

  predicate Flows(typing: Typing, offset: int, ts: seq<Type>) {
    offset in typing && Fits(ts, typing[offset])
  }

  predicate JumpsTo<N>(chunk: Chunk<N>, typing: Typing, offset: int, ts: seq<Type>) {
    Flows(typing, offset, ts) && Listed(chunk, offset)
  }

  function Without(ts: seq<Type>, n: nat): seq<Type>
    requires n <= |ts|
  {
    ts[..|ts| - n]
  }

  /** The top `n` types are all `t`. */
  predicate TopAre(ts: seq<Type>, n: nat, t: Type) {
    n <= |ts| && forall i :: |ts| - n <= i < |ts| ==> ts[i] == t
  }

  function LiteralType<N>(v: Value<N>): Type {
    if v.Null? then TNull else if v.Bool? then TBool else TAny
  }

  /** The typing agrees with the effect of instruction `i`, which ends before `next`. */
  ghost predicate Agrees<N(!new)>(w: World<N>, chunk: Chunk<N>, typing: Typing, ts: seq<Type>,
          i: Instruction<N>, next: nat) {
    match i
    case Const(k) =>
      && k < |chunk.constants|
      && next in typing && |typing[next]| == |ts| + 1
      && Fits(ts, typing[next][..|ts|]) && HasType(w, chunk.constants[k], typing[next][|ts|])
    case Literal(v) => Flows(typing, next, ts + [LiteralType(v)])
    case Pop => ts != [] && Flows(typing, next, Without(ts, 1))
    case Arith(op) => op <= OP_MOD && TopAre(ts, 2, TNumber) && Flows(typing, next, Without(ts, 2) + [TNumber])
    case Compare(op) => op > OP_MOD && TopAre(ts, 2, TNumber) && Flows(typing, next, Without(ts, 2) + [TBool])
    case Negate => TopAre(ts, 1, TNumber) && Flows(typing, next, ts)
    case Not => TopAre(ts, 1, TBool) && Flows(typing, next, ts)
    case JumpIfFalse(off) => TopAre(ts, 1, TBool) && Flows(typing, next, ts) && JumpsTo(chunk, typing, next + off, ts)
    case Jump(off) => JumpsTo(chunk, typing, next + off, ts)
    case Loop(off) => JumpsTo(chunk, typing, next - off, ts)
    case Call(count) =>
      && count < |ts| && ts[|ts| - 1 - count].TNative?
      && Flows(typing, next, Without(ts, count + 1) + [ts[|ts| - 1 - count].result])
    case Return => ts != []
    case Concat => TopAre(ts, 2, TString) && Flows(typing, next, Without(ts, 2) + [TString])
    case MakeArray(count) => count <= |ts| && Flows(typing, next, Without(ts, count) + [TArray])
    case Unknown => false
  }

  /** A typing of the chunk: at every offset it covers there is a whole instruction that it
      agrees with, and the stack is within its bound. */
  ghost predicate Typed<N(!new)>(w: World<N>, chunk: Chunk<N>, typing: Typing) {
    forall o :: o in typing ==>
      && |typing[o]| <= STACK_MAX
      && Decode(chunk, o).Some?
      && Agrees(w, chunk, typing, typing[o], Decode(chunk, o).value.0, Decode(chunk, o).value.1)
  }

  /** What every state of a typed run satisfies. */
  ghost predicate Safe<N(!new)>(w: World<N>, chunk: Chunk<N>, typing: Typing, s: State<N>) {
    && !s.status.Stuck?
    && s.errors == 0 && s.behind == None
    && |s.stack| <= STACK_MAX
    && (s.status == Running ==>
         s.ip in typing && Listed(chunk, s.ip) && HasTypes(w, s.stack, typing[s.ip]))
  }

  // ---------- The listing follows the instructions ----------

  lemma {:induction false} ListingStep<N>(chunk: Chunk<N>, from: nat, o: nat)
    requires o in Listing(chunk, from)
    ensures o < |chunk.code|
    ensures NextOffset(chunk, o) < |chunk.code| ==> NextOffset(chunk, o) in Listing(chunk, from)
    decreases |chunk.code| - from
  {
    if o != from {
      ListingStep(chunk, NextOffset(chunk, from), o);
    }
  }

  /** The interpreter reads exactly the bytes that the listing attributes to an instruction. */
  lemma {:induction false} DecodeFollowsListing<N>(chunk: Chunk<N>, ip: nat)
    requires Decode(chunk, ip).Some?
    ensures ip < |chunk.code| && Decode(chunk, ip).value.1 == NextOffset(chunk, ip)
  {
  }

  lemma {:induction false} NextIsListed<N>(chunk: Chunk<N>, ip: int)
    requires Listed(chunk, ip) && Decode(chunk, ip).Some?
    ensures var next := Decode(chunk, ip).value.1;
      Decode(chunk, next).Some? ==> Listed(chunk, next)
  {
    DecodeFollowsListing(chunk, ip);
    ListingStep(chunk, 0, ip);
  }

  // ---------- Soundness ----------

  lemma {:induction false} FitsTypes<N(!new)>(w: World<N>, stack: seq<Value<N>>, ts: seq<Type>, us: seq<Type>)
    requires HasTypes(w, stack, ts) && Fits(ts, us)
    ensures HasTypes(w, stack, us)
  {
    forall i | 0 <= i < |us| ensures HasType(w, stack[i], us[i]) {
      assert HasType(w, stack[i], ts[i]);
    }
  }

  lemma {:induction false} PushTypes<N(!new)>(w: World<N>, stack: seq<Value<N>>, ts: seq<Type>, n: nat,
          v: Value<N>, t: Type)
    requires HasTypes(w, stack, ts) && n <= |ts| && HasType(w, v, t)
    ensures HasTypes(w, stack[..|stack| - n] + [v], Without(ts, n) + [t])
    ensures HasTypes(w, stack[..|stack| - n], Without(ts, n))
  {
  }

  /** Replacing the top of the stack under a typing that allows it. */
  lemma {:induction false} ReplaceIsTyped<N(!new)>(w: World<N>, s: State<N>, ts: seq<Type>, n: nat,
          v: Value<N>, t: Type, us: seq<Type>)
    requires HasTypes(w, s.stack, ts) && n <= |ts| && HasType(w, v, t)
    requires Fits(Without(ts, n) + [t], us) && |us| <= STACK_MAX
    ensures var r := Replace(s, n, v); r == s.(stack := r.stack) && HasTypes(w, r.stack, us)
  {
    PushTypes(w, s.stack, ts, n, v, t);
    FitsTypes(w, s.stack[..|s.stack| - n] + [v], Without(ts, n) + [t], us);
  }

  lemma {:induction false} ConstIsTyped<N(!new)>(w: World<N>, s: State<N>, ts: seq<Type>, v: Value<N>, us: seq<Type>)
    requires HasTypes(w, s.stack, ts) && |us| == |ts| + 1 <= STACK_MAX
    requires Fits(ts, us[..|ts|]) && HasType(w, v, us[|ts|])
    ensures var r := Replace(s, 0, v); r == s.(stack := r.stack) && HasTypes(w, r.stack, us)
  {
    FitsTypes(w, s.stack, ts, us[..|ts|]);
    PushTypes(w, s.stack, us[..|ts|], 0, v, us[|ts|]);
    assert Without(us[..|ts|], 0) + [us[|ts|]] == us;
  }

  /** One step keeps a typed run safe. */
  lemma {:induction false} StepIsSafe<N(!new)>(w: World<N>, chunk: Chunk<N>, typing: Typing, s: State<N>)
    requires Typed(w, chunk, typing) && Safe(w, chunk, typing, s)
    ensures Safe(w, chunk, typing, Step(w, chunk, s))
  {
    if s.status == Running {
      var (i, next) := Decode(chunk, s.ip).value;
      NextIsListed(chunk, s.ip);
      EffectIsTyped(w, chunk, typing, s, i, next);
      var r := Step(w, chunk, s);
      if r.status == Running && r.ip in typing { assert Decode(chunk, r.ip).Some?; }
    }
  }

  ghost predicate Result<N(!new)>(w: World<N>, chunk: Chunk<N>, typing: Typing, next: nat, r: State<N>) {
    && !r.status.Stuck? && r.errors == 0 && r.behind == None && |r.stack| <= STACK_MAX
    && (r.status == Running ==>
         r.ip in typing && (r.ip == next || Listed(chunk, r.ip)) && HasTypes(w, r.stack, typing[r.ip]))
  }

  lemma {:induction false} EffectIsTyped<N(!new)>(w: World<N>, chunk: Chunk<N>, typing: Typing, s: State<N>,
          i: Instruction<N>, next: nat)
    requires Typed(w, chunk, typing) && s.status == Running && s.ip in typing
    requires HasTypes(w, s.stack, typing[s.ip]) && s.errors == 0 && s.behind == None
    requires Agrees(w, chunk, typing, typing[s.ip], i, next)
    ensures Result(w, chunk, typing, next, Effect(w, chunk, s.(ip := next), i))
  {
    if i.JumpIfFalse? || i.Jump? || i.Loop? {
      JumpIsTyped(w, chunk, typing, s, i, next);
    } else if !i.Return? {
      var r := Effect(w, chunk, s.(ip := next), i);
      OperationIsTyped(w, chunk, typing, s.(ip := next), typing[s.ip], i, next);
      assert r.ip == next && r.errors == 0 && r.behind == None && r.status == Running;
    }
  }

  lemma {:induction false} JumpIsTyped<N(!new)>(w: World<N>, chunk: Chunk<N>, typing: Typing, s: State<N>,
          i: Instruction<N>, next: nat)
    requires s.status == Running && s.ip in typing && |typing[s.ip]| <= STACK_MAX
    requires HasTypes(w, s.stack, typing[s.ip]) && s.errors == 0 && s.behind == None
    requires i.JumpIfFalse? || i.Jump? || i.Loop?
    requires Agrees(w, chunk, typing, typing[s.ip], i, next)
    ensures Result(w, chunk, typing, next, Effect(w, chunk, s.(ip := next), i))
  {
    hide HasType, Fits, Listed, Decode;
    assert |s.stack| <= STACK_MAX;
    var ts := typing[s.ip];
    var target := if i.Loop? then next - i.offset else next + i.offset;
    FitsTypes(w, s.stack, ts, typing[target]);
    if i.JumpIfFalse? {
      FitsTypes(w, s.stack, ts, typing[next]);
      TopTyped(w, s, ts, 1, TBool, 0);
    }
  }

  /** Every other instruction only changes the stack, to one of the types at `next`. */
  lemma {:induction false} OperationIsTyped<N(!new)>(w: World<N>, chunk: Chunk<N>, typing: Typing, s: State<N>,
                                                     ts: seq<Type>, i: Instruction<N>, next: nat)
    requires Typed(w, chunk, typing) && HasTypes(w, s.stack, ts)
    requires !i.JumpIfFalse? && !i.Jump? && !i.Loop? && !i.Return?
    requires Agrees(w, chunk, typing, ts, i, next)
    ensures var r := Effect(w, chunk, s, i);
      r == s.(stack := r.stack) && next in typing && HasTypes(w, r.stack, typing[next])
  {
    hide Replace, BinaryStep, CallStep, HasType, HasTypes, Fits, Decode;
    match i
    case Const(k) => ConstIsTyped(w, s, ts, chunk.constants[k], typing[next]);
    case Literal(v) => LiteralIsTyped(w, s, ts, v, typing[next]);
    case Pop => PopIsTyped(w, s, ts, typing[next]);
    case Arith(op) => BinaryIsTyped(w, s, ts, op, typing[next]);
    case Compare(op) => BinaryIsTyped(w, s, ts, op, typing[next]);
    case Negate => NegateIsTyped(w, s, ts, typing[next]);
    case Not => NotIsTyped(w, s, ts, typing[next]);
    case Call(count) => CallIsTyped(w, typing, s, ts, count, next);
    case Concat => ConcatIsTyped(w, s, ts, typing[next]);
    case MakeArray(count) => ArrayIsTyped(w, s, ts, count, typing[next]);
    case _ =>
  }

  lemma {:induction false} TopTyped<N(!new)>(w: World<N>, s: State<N>, ts: seq<Type>, n: nat, t: Type, distance: nat)
    requires HasTypes(w, s.stack, ts) && TopAre(ts, n, t) && distance < n
    ensures |s.stack| == |ts| && HasType(w, Top(s, distance), t)
  {
    assert HasType(w, s.stack[|ts| - 1 - distance], ts[|ts| - 1 - distance]);
  }

  lemma {:induction false} LiteralIsTyped<N(!new)>(w: World<N>, s: State<N>, ts: seq<Type>, v: Value<N>, us: seq<Type>)
    requires HasTypes(w, s.stack, ts) && Fits(ts + [LiteralType(v)], us) && |us| <= STACK_MAX
    ensures var r := Replace(s, 0, v); r == s.(stack := r.stack) && HasTypes(w, r.stack, us)
  {
    assert Without(ts, 0) == ts;
    ReplaceIsTyped(w, s, ts, 0, v, LiteralType(v), us);
  }

  lemma {:induction false} PopIsTyped<N(!new)>(w: World<N>, s: State<N>, ts: seq<Type>, us: seq<Type>)
    requires HasTypes(w, s.stack, ts) && ts != [] && Fits(Without(ts, 1), us)
    ensures s.stack != [] && HasTypes(w, s.stack[..|s.stack| - 1], us)
  {
    PushTypes(w, s.stack, ts, 1, Null, TAny);
    FitsTypes(w, s.stack[..|s.stack| - 1], Without(ts, 1), us);
  }

  lemma {:induction false} NegateIsTyped<N(!new)>(w: World<N>, s: State<N>, ts: seq<Type>, us: seq<Type>)
    requires HasTypes(w, s.stack, ts) && TopAre(ts, 1, TNumber) && Fits(ts, us) && |us| <= STACK_MAX
    ensures s.stack != [] && Top(s, 0).Number?
    ensures var r := Replace(s, 1, Number(w.negate(Top(s, 0).n))); r == s.(stack := r.stack) && HasTypes(w, r.stack, us)
  {
    TopTyped(w, s, ts, 1, TNumber, 0);
    assert Without(ts, 1) + [TNumber] == ts;
    ReplaceIsTyped(w, s, ts, 1, Number(w.negate(Top(s, 0).n)), TNumber, us);
  }

  lemma {:induction false} NotIsTyped<N(!new)>(w: World<N>, s: State<N>, ts: seq<Type>, us: seq<Type>)
    requires HasTypes(w, s.stack, ts) && TopAre(ts, 1, TBool) && Fits(ts, us) && |us| <= STACK_MAX
    ensures s.stack != [] && Top(s, 0).Bool?
    ensures var r := Replace(s, 1, Bool(!Top(s, 0).b)); r == s.(stack := r.stack) && HasTypes(w, r.stack, us)
  {
    TopTyped(w, s, ts, 1, TBool, 0);
    assert Without(ts, 1) + [TBool] == ts;
    ReplaceIsTyped(w, s, ts, 1, Bool(!Top(s, 0).b), TBool, us);
  }

  lemma {:induction false} ConcatIsTyped<N(!new)>(w: World<N>, s: State<N>, ts: seq<Type>, us: seq<Type>)
    requires HasTypes(w, s.stack, ts) && TopAre(ts, 2, TString) && |us| <= STACK_MAX
    requires Fits(Without(ts, 2) + [TString], us)
    ensures var r := ConcatStep(s); r == s.(stack := r.stack) && HasTypes(w, r.stack, us)
  {
    TopTyped(w, s, ts, 2, TString, 0);
    TopTyped(w, s, ts, 2, TString, 1);
    ReplaceIsTyped(w, s, ts, 2, Str(Top(s, 1).s + Top(s, 0).s), TString, us);
  }

  lemma {:induction false} ArrayIsTyped<N(!new)>(w: World<N>, s: State<N>, ts: seq<Type>, count: Byte, us: seq<Type>)
    requires HasTypes(w, s.stack, ts) && count <= |ts| && |us| <= STACK_MAX
    requires Fits(Without(ts, count) + [TArray], us)
    ensures |s.stack| == |ts|
    ensures var r := Replace(s, count, Array(s.stack[|s.stack| - count..]));
      r == s.(stack := r.stack) && HasTypes(w, r.stack, us)
  {
    ReplaceIsTyped(w, s, ts, count, Array(s.stack[|s.stack| - count..]), TArray, us);
  }

  lemma {:induction false} BinaryIsTyped<N(!new)>(w: World<N>, s: State<N>, ts: seq<Type>, op: Byte, us: seq<Type>)
    requires HasTypes(w, s.stack, ts) && TopAre(ts, 2, TNumber) && |us| <= STACK_MAX
    requires Fits(Without(ts, 2) + [if op <= OP_MOD then TNumber else TBool], us)
    ensures var r := BinaryStep(w, s, op); r == s.(stack := r.stack) && HasTypes(w, r.stack, us)
  {
    var b, a := Top(s, 0), Top(s, 1);
    TopTyped(w, s, ts, 2, TNumber, 0);
    TopTyped(w, s, ts, 2, TNumber, 1);
    if op <= OP_MOD {
      ReplaceIsTyped(w, s, ts, 2, Number(w.arith(op, a.n, b.n)), TNumber, us);
    } else {
      ReplaceIsTyped(w, s, ts, 2, Bool(w.compare(op, a.n, b.n)), TBool, us);
    }
  }

  lemma {:induction false} CallIsTyped<N(!new)>(w: World<N>, typing: Typing, s: State<N>, ts: seq<Type>,
          count: Byte, next: nat)
    requires HasTypes(w, s.stack, ts) && count < |ts| && ts[|ts| - 1 - count].TNative?
    requires next in typing && |typing[next]| <= STACK_MAX
    requires Fits(Without(ts, count + 1) + [ts[|ts| - 1 - count].result], typing[next])
    ensures var r := CallStep(w, s, count); r == s.(stack := r.stack) && HasTypes(w, r.stack, typing[next])
  {
    var f, t := Top(s, count), ts[|ts| - 1 - count];
    assert HasType(w, f, t);
    var result := w.native(f.id, s.stack[|s.stack| - count..]);
    assert HasType(w, result, t.result);
    ReplaceIsTyped(w, s, ts, count + 1, result, t.result, typing[next]);
  }

  /** No run of a typed chunk, however long, gets stuck, reports an error, grows its stack
      beyond the bound, or fetches from an offset that the listing does not show. */
  lemma {:induction false} RunIsSafe<N(!new)>(w: World<N>, chunk: Chunk<N>, typing: Typing, s: State<N>, steps: nat)
    requires Typed(w, chunk, typing) && Safe(w, chunk, typing, s)
    ensures Safe(w, chunk, typing, Run(w, chunk, s, steps))
    decreases steps
  {
    if steps > 0 {
      StepIsSafe(w, chunk, typing, s);
      RunIsSafe(w, chunk, typing, Step(w, chunk, s), steps - 1);
    }
  }

  /** In particular from the first instruction with a stack of the types given for it. */
  lemma {:induction false} InterpretIsSafe<N(!new)>(w: World<N>, chunk: Chunk<N>, typing: Typing,
          stack: seq<Value<N>>, steps: nat)
    requires Typed(w, chunk, typing) && 0 in typing && HasTypes(w, stack, typing[0])
    ensures var r := Run(w, chunk, Start(stack), steps);
      && !r.status.Stuck? && r.errors == 0 && r.behind == None && |r.stack| <= STACK_MAX
      && (r.status == Running ==> Listed(chunk, r.ip))
  {
    assert Decode(chunk, 0).Some?;
    assert Listing(chunk, 0)[0] == 0;
    RunIsSafe(w, chunk, typing, Start(stack), steps);
  }
}
