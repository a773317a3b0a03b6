/** Bytecode, its execution and its stack typings (src/vm/vm.c). What is undefined in C, such
    as popping an empty stack, is a fault here. */
module Bytecode {
  import opened Options

  type Byte = x: int | 0 <= x < 256

  datatype Value<N> =
    | Null | Bool(b: bool) | Number(n: N) | Str(s: string)
    | Array(items: seq<Value<N>>) | Struct(typeName: string) | Native(id: nat)

  datatype Chunk<N> = Chunk(code: seq<Byte>, constants: seq<Value<N>>)

  /** Arithmetic on numbers, which are floating-point in C, and the native functions. */
  datatype World<!N> = World(
    arith: (Byte, N, N) -> N,
    compare: (Byte, N, N) -> bool,
    negate: N -> N,
    native: (nat, seq<Value<N>>) -> Value<N>)

  const STACK_MAX: nat := 256

  const OP_CONST: Byte := 1
  const OP_NULL: Byte := 2
  const OP_TRUE: Byte := 3
  const OP_FALSE: Byte := 4
  const OP_POP: Byte := 13
  const OP_ADD: Byte := 16
  const OP_MOD: Byte := 20
  const OP_NEG: Byte := 21
  const OP_EQ: Byte := 22
  const OP_GTE: Byte := 27
  const OP_NOT: Byte := 28
  const OP_JUMP: Byte := 31
  const OP_JUMP_IF_FALSE: Byte := 32
  const OP_LOOP: Byte := 34
  const OP_CALL: Byte := 35
  const OP_RETURN: Byte := 37
  const OP_ARRAY: Byte := 39
  const OP_CONCAT: Byte := 42

  datatype Instruction<N> =
    | Const(index: Byte)
    | Literal(value: Value<N>)
    | Pop
    | Arith(op: Byte)
    | Compare(op: Byte)
    | Negate
    | Not
    | JumpIfFalse(offset: nat)
    | Jump(offset: nat)
    | Loop(offset: nat)
    | Call(count: Byte)
    | Return
    | Concat
    | MakeArray(count: Byte)
    | Unknown

  function Short(high: Byte, low: Byte): nat {
    high * 256 + low
  }

  /** The instruction at `ip` and the place behind its operands; nothing off the code. */
  function Decode<N>(chunk: Chunk<N>, ip: int): Option<(Instruction<N>, nat)> {
    if ip < 0 || ip >= |chunk.code| then None
    else
      var op := chunk.code[ip];
      if op == OP_NULL then Some((Literal(Null), ip + 1))
      else if op == OP_TRUE then Some((Literal(Bool(true)), ip + 1))
      else if op == OP_FALSE then Some((Literal(Bool(false)), ip + 1))
      else if op == OP_POP then Some((Pop, ip + 1))
      else if OP_ADD <= op <= OP_MOD then Some((Arith(op), ip + 1))
      else if op == OP_NEG then Some((Negate, ip + 1))
      else if OP_EQ <= op <= OP_GTE then Some((Compare(op), ip + 1))
      else if op == OP_NOT then Some((Not, ip + 1))
      else if op == OP_RETURN then Some((Return, ip + 1))
      else if op == OP_CONCAT then Some((Concat, ip + 1))
      else if op == OP_CONST || op == OP_CALL || op == OP_ARRAY then
        if ip + 1 >= |chunk.code| then None
        else
          var arg := chunk.code[ip + 1];
          Some((if op == OP_CONST then Const(arg) else if op == OP_CALL then Call(arg) else MakeArray(arg), ip + 2))
      else if op == OP_JUMP || op == OP_JUMP_IF_FALSE || op == OP_LOOP then
        if ip + 2 >= |chunk.code| then None
        else
          var off := Short(chunk.code[ip + 1], chunk.code[ip + 2]);
          Some((if op == OP_JUMP then Jump(off) else if op == OP_LOOP then Loop(off) else JumpIfFalse(off), ip + 3))
      else Some((Unknown, ip + 1))
  }

  // ---------- The disassembler ----------

  /** Where the disassembler goes on after the instruction at `offset`. */
  function NextOffset<N>(chunk: Chunk<N>, offset: nat): (next: nat)
    requires offset < |chunk.code|
    ensures next > offset
  {
    var op := chunk.code[offset];
    if op == OP_CONST || op == OP_ARRAY || op == OP_CALL then offset + 2
    else if op == OP_JUMP || op == OP_JUMP_IF_FALSE || op == OP_LOOP then offset + 3
    else offset + 1
  }

  /** The offsets that a listing of the chunk shows, from `offset` on. */
  function Listing<N>(chunk: Chunk<N>, offset: nat): seq<nat>
    decreases |chunk.code| - offset
  {
    if offset >= |chunk.code| then [] else [offset] + Listing(chunk, NextOffset(chunk, offset))
  }

  predicate Listed<N>(chunk: Chunk<N>, offset: int) {
    offset >= 0 && offset in Listing(chunk, 0)
  }

  // ---------- Execution ----------

  datatype Fault = Underflow | Overflow | RuntimeError | NotBoolean | UnknownOpcode | OffCode | NoConstant

  datatype Status = Running | Returned | Stuck(fault: Fault)

  /** `errors` counts the messages after which execution goes on regardless; `behind` is what was
      written into the memory behind the stack. */
  datatype State<N> = State(status: Status, ip: int, stack: seq<Value<N>>, errors: nat, behind: Option<Value<N>>)

  function Start<N>(stack: seq<Value<N>>): State<N> {
    State(Running, 0, stack, 0, None)
  }

  function Fail<N>(s: State<N>, f: Fault): State<N> {
    s.(status := Stuck(f))
  }

  /** The stack with its top `n` values replaced by `v`. A full stack is noticed only after the
      write behind it. */
  function Replace<N>(s: State<N>, n: nat, v: Value<N>): (r: State<N>)
    requires n <= |s.stack|
    ensures r.errors == s.errors
  {
    if |s.stack| - n >= STACK_MAX then Fail(s.(behind := Some(v)), Overflow)
    else s.(stack := s.stack[..|s.stack| - n] + [v])
  }

  function Top<N>(s: State<N>, distance: nat): Value<N>
    requires distance < |s.stack|
  {
    s.stack[|s.stack| - 1 - distance]
  }

  /** Operands that are no numbers are dropped with a message and nothing is pushed. */
  function BinaryStep<N>(w: World<N>, s: State<N>, op: Byte): State<N> {
    if |s.stack| < 2 then Fail(s, Underflow)
    else
      var b, a := Top(s, 0), Top(s, 1);
      if !a.Number? || !b.Number? then s.(stack := s.stack[..|s.stack| - 2], errors := s.errors + 1)
      else if op <= OP_MOD then Replace(s, 2, Number(w.arith(op, a.n, b.n)))
      else Replace(s, 2, Bool(w.compare(op, a.n, b.n)))
  }

  function CallStep<N>(w: World<N>, s: State<N>, count: Byte): (r: State<N>)
    ensures r.errors == s.errors
  {
    if |s.stack| < count + 1 then Fail(s, Underflow)
    else if !Top(s, count).Native? then Fail(s, RuntimeError)
    else Replace(s, count + 1, w.native(Top(s, count).id, s.stack[|s.stack| - count..]))
  }

  function ConcatStep<N>(s: State<N>): (r: State<N>)
    ensures r.errors == s.errors
  {
    if |s.stack| < 2 then Fail(s, Underflow)
    else if !Top(s, 1).Str? || !Top(s, 0).Str? then
      Fail(s.(stack := s.stack[..|s.stack| - 2]), RuntimeError)
    else Replace(s, 2, Str(Top(s, 1).s + Top(s, 0).s))
  }

  /** The effect of a decoded instruction on a state whose `ip` is already behind it. */
  function Effect<N>(w: World<N>, chunk: Chunk<N>, s: State<N>, i: Instruction<N>): State<N> {
    match i
    case Const(k) => if k >= |chunk.constants| then Fail(s, NoConstant) else Replace(s, 0, chunk.constants[k])
    case Literal(v) => Replace(s, 0, v)
    case Pop => if s.stack == [] then Fail(s, Underflow) else s.(stack := s.stack[..|s.stack| - 1])
    case Arith(op) => BinaryStep(w, s, op)
    case Compare(op) => BinaryStep(w, s, op)
    case Negate =>
      if s.stack == [] then Fail(s, Underflow)
      else if !Top(s, 0).Number? then Fail(s.(stack := s.stack[..|s.stack| - 1]), RuntimeError)
      else Replace(s, 1, Number(w.negate(Top(s, 0).n)))
    case Not =>
      if s.stack == [] then Fail(s, Underflow)
      else if !Top(s, 0).Bool? then Fail(s.(stack := s.stack[..|s.stack| - 1]), RuntimeError)
      else Replace(s, 1, Bool(!Top(s, 0).b))
    case JumpIfFalse(off) =>
      if s.stack == [] then Fail(s, Underflow)
      else if !Top(s, 0).Bool? then Fail(s, NotBoolean)      // C reads the union unchecked
      else if Top(s, 0).b then s else s.(ip := s.ip + off)
    case Jump(off) => s.(ip := s.ip + off)
    case Loop(off) => s.(ip := s.ip - off)
    case Call(count) => CallStep(w, s, count)
    case Return =>
      if s.stack == [] then Fail(s, Underflow) else s.(status := Returned, stack := s.stack[..|s.stack| - 1])
    case Concat => ConcatStep(s)
    case MakeArray(count) =>
      if |s.stack| < count then Fail(s, Underflow) else Replace(s, count, Array(s.stack[|s.stack| - count..]))
    case Unknown => Fail(s, UnknownOpcode)
  }

  function Step<N>(w: World<N>, chunk: Chunk<N>, s: State<N>): State<N> {
    if s.status != Running then s
    else
      var d := Decode(chunk, s.ip);
      if d.None? then Fail(s, OffCode) else Effect(w, chunk, s.(ip := d.value.1), d.value.0)
  }

  function Run<N>(w: World<N>, chunk: Chunk<N>, s: State<N>, steps: nat): State<N>
    decreases steps
  {
    if steps == 0 then s else Run(w, chunk, Step(w, chunk, s), steps - 1)
  }
}
