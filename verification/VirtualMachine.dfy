/** The bytecode interpreter over its fixed stack (src/vm/vm.c), one method per group of
    instructions, agreeing with module Bytecode. */
module VirtualMachine {
  import opened Options
  import opened Bytecode
  import opened BytecodeRuns

  /** Lists the offsets of a chunk in order. */
  method Disassemble<N>(chunk: Chunk<N>) returns (offsets: seq<nat>)
    ensures offsets == Listing(chunk, 0)
  {
    offsets := [];
    var offset := 0;
    while offset < |chunk.code|
      invariant offsets + Listing(chunk, offset) == Listing(chunk, 0)
      decreases |chunk.code| - offset
    {
      ghost var rest := Listing(chunk, NextOffset(chunk, offset));
      assert offsets + ([offset] + rest) == (offsets + [offset]) + rest;
      offsets := offsets + [offset];
      offset := NextOffset(chunk, offset);
    }
  }

  lemma {:induction false} ReplacePopped<N>(s: State<N>, n: nat, v: Value<N>)
    requires n <= |s.stack| <= STACK_MAX
    ensures Replace(s.(stack := s.stack[..|s.stack| - n]), 0, v) == Replace(s, n, v)
  {
    assert s.stack[..|s.stack|] == s.stack;
    assert s.stack[..|s.stack| - n][..|s.stack| - n] == s.stack[..|s.stack| - n];
  }

  class Vm<N> {
    const w: World<N>
    const stack: array<Value<N>>
    var top: nat
    var ip: int
    var status: Status
    var errors: nat
    var behind: Option<Value<N>>

    ghost predicate Valid()
      reads this
    {
      stack.Length == STACK_MAX && top <= STACK_MAX
    }

    ghost function S(): State<N>
      requires Valid()
      reads this, stack
    {
      State(status, ip, stack[..top], errors, behind)
    }

    constructor (w: World<N>)
      ensures Valid() && fresh(stack) && this.w == w && S() == Start([])
    {
      this.w := w;
      stack := new Value<N>[STACK_MAX](_ => Null);
      top, ip, status, errors, behind := 0, 0, Running, 0, None;
    }

    /** C writes to the stack or behind it, and notices only afterwards which. */
    method Push(v: Value<N>)
      requires Valid()
      modifies this`top, this`status, this`behind, stack
      ensures Valid() && S() == Replace(old(S()), 0, v)
    {
      if top >= STACK_MAX {
        behind := Some(v);
        status := Stuck(Overflow);
      } else {
        stack[top] := v;
        top := top + 1;
        assert stack[..top] == old(stack[..top]) + [v];
      }
    }

    method Pop() returns (v: Value<N>)
      requires Valid() && top > 0
      modifies this`top
      ensures Valid() && v == Top(old(S()), 0) && top == old(top) - 1
      ensures S() == old(S()).(stack := old(S()).stack[..|old(S()).stack| - 1])
    {
      top := top - 1;
      v := stack[top];
    }

    method Peek(distance: nat) returns (v: Value<N>)
      requires Valid() && distance < top
      ensures v == Top(S(), distance)
    {
      v := stack[top - 1 - distance];
    }

    method Halt(fault: Fault)
      requires Valid()
      modifies this`status
      ensures Valid() && S() == Fail(old(S()), fault)
    {
      status := Stuck(fault);
    }

    method BinaryOp(op: Byte)
      requires Valid()
      modifies this, stack
      ensures Valid() && S() == BinaryStep(w, old(S()), op)
    {
      if top < 2 { Halt(Underflow); return; }
      var b := Pop();
      var a := Pop();
      if !a.Number? || !b.Number? {
        errors := errors + 1;
        return;
      }
      Push(if op <= OP_MOD then Number(w.arith(op, a.n, b.n)) else Bool(w.compare(op, a.n, b.n)));
    }

    method CallNative(count: Byte)
      requires Valid()
      modifies this, stack
      ensures Valid() && S() == CallStep(w, old(S()), count)
    {
      if top < count + 1 { Halt(Underflow); return; }
      var f := Peek(count);
      if !f.Native? { Halt(RuntimeError); return; }
      var result := w.native(f.id, stack[top - count..top]);
      assert stack[top - count..top] == S().stack[top - count..];
      top := top - (count + 1);
      Push(result);
    }

    method ConcatStrings()
      requires Valid()
      modifies this, stack
      ensures Valid() && S() == ConcatStep(old(S()))
    {
      if top < 2 { Halt(Underflow); return; }
      var b := Pop();
      var a := Pop();
      if !a.Str? || !b.Str? { Halt(RuntimeError); return; }
      Push(Str(a.s + b.s));
    }

    /** Pops values into a list that ends up in the order they were pushed. */
    method PopItems(count: Byte) returns (items: seq<Value<N>>)
      requires Valid() && count <= top
      modifies this`top
      ensures Valid() && top == old(top) - count
      ensures var was := old(S());
        S() == was.(stack := was.stack[..|was.stack| - count]) && items == was.stack[|was.stack| - count..]
    {
      ghost var was := S();
      items := [];
      var i := count;
      while i > 0
        invariant 0 <= i <= count && Valid() && top == old(top) - (count - i)
        invariant S() == was.(stack := was.stack[..top])
        invariant items == was.stack[top..]
      {
        var v := Pop();
        assert was.stack[top..] == [v] + was.stack[top + 1..];
        items := [v] + items;
        i := i - 1;
      }
    }

    method BuildArray(count: Byte)
      requires Valid()
      modifies this, stack
      ensures Valid()
      ensures var s := old(S());
        S() == if |s.stack| < count then Fail(s, Underflow)
               else Replace(s, count, Array(s.stack[|s.stack| - count..]))
    {
      if top < count { Halt(Underflow); return; }
      ghost var was := S();
      var items := PopItems(count);
      ReplacePopped(was, count, Array(items));
      Push(Array(items));
    }

    method Execute(chunk: Chunk<N>, i: Instruction<N>)
      requires Valid()
      modifies this, stack
      ensures Valid() && S() == Effect(w, chunk, old(S()), i)
    {
      hide BinaryStep, CallStep, ConcatStep;
      match i
      case Const(k) =>
        if k >= |chunk.constants| { Halt(NoConstant); } else { Push(chunk.constants[k]); }
      case Literal(v) => Push(v);
      case Pop =>
        if top == 0 { Halt(Underflow); } else { var _ := Pop(); }
      case Arith(op) => BinaryOp(op);
      case Compare(op) => BinaryOp(op);
      case Negate => NegateTop();
      case Not => InvertTop();
      case JumpIfFalse(off) =>
        if top == 0 { Halt(Underflow); return; }
        var v := Peek(0);
        if !v.Bool? {
          Halt(NotBoolean);
        } else if v.b == false {
          ip := ip + off;
        }
      case Jump(off) => ip := ip + off;
      case Loop(off) => ip := ip - off;
      case Call(count) => CallNative(count);
      case Return =>
        if top == 0 { Halt(Underflow); return; }
        var _ := Pop();
        status := Returned;
      case Concat => ConcatStrings();
      case MakeArray(count) => BuildArray(count);
      case Unknown => Halt(UnknownOpcode);
    }

    method NegateTop()
      requires Valid()
      modifies this, stack
      ensures Valid() && forall chunk :: S() == Effect(w, chunk, old(S()), Negate)
    {
      if top == 0 { Halt(Underflow); return; }
      var v := Pop();
      if !v.Number? { Halt(RuntimeError); return; }
      Push(Number(w.negate(v.n)));
    }

    method InvertTop()
      requires Valid()
      modifies this, stack
      ensures Valid() && forall chunk :: S() == Effect(w, chunk, old(S()), Not)
    {
      if top == 0 { Halt(Underflow); return; }
      var v := Pop();
      if !v.Bool? { Halt(RuntimeError); return; }
      Push(Bool(!v.b));
    }

    /** At most `limit` instructions from the start of the chunk, on the stack as it is. */
    method Interpret(chunk: Chunk<N>, limit: nat)
      requires Valid()
      modifies this, stack
      ensures Valid()
      ensures S() == Run(w, chunk, Start(old(stack[..top])), limit)
    {
      hide Effect, Decode;
      ip, status, errors, behind := 0, Running, 0, None;
      var left := limit;
      ghost var start := S();
      while left > 0 && status == Running
        invariant 0 <= left <= limit && Valid()
        invariant Run(w, chunk, S(), left) == Run(w, chunk, start, limit)
        decreases left
      {
        var d := Decode(chunk, ip);
        if d.None? {
          Halt(OffCode);
        } else {
          ip := d.value.1;
          Execute(chunk, d.value.0);
        }
        left := left - 1;
      }
      if status != Running { StoppedStays(w, chunk, S(), left); }
    }
  }
}
