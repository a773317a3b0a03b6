/** Short programs on which the interpreter's memory management falls short: one leaks a cycle,
    one writes behind a buffer, and plain indexing leaves dangling references. */
module RefExamples {
  import opened RefHeap
  import opened RefMachine

  const ARR := VArray(0)
  const ENV := [Binding("a", ARR)]

  /** The only array of a program, with `count` owners. */
  function Lone(count: nat, items: seq<Value>): Heap {
    [Live(count, items, 4)]
  }

  lemma {:induction false} PushIntoItself()
    ensures Release(Release(Push(Lone(3, []), 0, ARR), ARR), ARR) == Lone(2, [ARR])
    ensures Release(Lone(2, [ARR]), ARR) == Lone(1, [ARR])
  {
    assert Grow(Lone(3, []), 0) == Lone(3, []);
    assert Clone(Lone(3, []), ARR) == Lone(4, []);
    assert [] + [ARR] == [ARR];
    assert Push(Lone(3, []), 0, ARR) == Lone(4, [ARR]);
    assert Release(Lone(4, [ARR]), ARR) == Lone(3, [ARR]);
  }

  lemma {:induction false} StoreTheArray()
    ensures Apply(State(Lone(1, []), [], [ARR]), Store("a")) == State(Lone(2, []), ENV, [ARR])
  {
    assert Clone(Lone(1, []), ARR) == Lone(2, []);
    assert [Binding("a", ARR)] + [] == ENV;
  }

  lemma {:induction false} LoadTheArray()
    ensures Apply(State(Lone(2, []), ENV, [ARR]), Load("a")) == State(Lone(3, []), ENV, [ARR, ARR])
  {
    assert Find(ENV, "a") == 0;
    assert Clone(Lone(2, []), ARR) == Lone(3, []);
    assert [ARR] + [ARR] == [ARR, ARR];
  }

  lemma {:induction false} PushTheArray()
    ensures Enabled(State(Lone(3, []), ENV, [ARR, ARR]), PushCall)
    ensures Apply(State(Lone(3, []), ENV, [ARR, ARR]), PushCall) == State(Lone(2, [ARR]), ENV, [VNull])
  {
    PushIntoItself();
    assert [ARR, ARR][..0] + [VNull] == [VNull];
  }

  lemma {:induction false} DiscardNull()
    ensures Apply(State(Lone(2, [ARR]), ENV, [VNull]), Discard) == State(Lone(2, [ARR]), ENV, [])
  {
    assert [VNull][..0] == [];
  }

  /** `a = []; a.push(a);` leaves an array that freeing every variable does not free. */
  lemma {:induction false} SelfReferenceLeaks() returns (states: seq<State>, ops: seq<Op>)
    ensures Execution(states, ops) && states[|ops|].temps == []
    ensures IsLive(EnvFree(states[|ops|].heap, states[|ops|].env), 0)
  {
    ops := [BeginArray(0), Store("a"), Load("a"), PushCall, Discard];
    states := [INITIAL, State(Lone(1, []), [], [ARR]), State(Lone(2, []), ENV, [ARR]),
               State(Lone(3, []), ENV, [ARR, ARR]), State(Lone(2, [ARR]), ENV, [VNull]),
               State(Lone(2, [ARR]), ENV, [])];
    forall k | 0 <= k < 5
      ensures Enabled(states[k], ops[k]) && states[k + 1] == Apply(states[k], ops[k])
    {
      match k
      case 0 => assert [] + [ARR] == [ARR];
      case 1 => StoreTheArray();
      case 2 => LoadTheArray();
      case 3 => PushTheArray();
      case 4 => DiscardNull();
    }
    PushIntoItself();
    assert ENV[1..] == [];
    assert EnvFree(Lone(2, [ARR]), ENV) == Lone(1, [ARR]);
  }

  /** An outer array at 0 with `count` owners, holding the inner array at 1. */
  function Nested(count: nat, innerCount: nat): Heap {
    [Live(count, [VArray(1)], 1), Live(innerCount, [], 4)]
  }

  lemma {:induction false} AppendInner()
    ensures Push([Live(1, [], 1), Live(1, [], 4)], 0, VArray(1)) == Nested(1, 2)
    ensures Release(Nested(1, 2), VArray(1)) == Nested(1, 1)
  {
    var h := [Live(1, [], 1), Live(1, [], 4)];
    assert Grow(h, 0) == h;
    assert Clone(h, VArray(1)) == [Live(1, [], 1), Live(2, [], 4)];
    assert [] + [VArray(1)] == [VArray(1)];
  }

  lemma {:induction false} ReleaseOuter()
    ensures Release(Nested(1, 1), VArray(0)) == [Freed, Freed]
  {
    var h5, h6 := [Live(0, [VNull], 1), Live(1, [], 4)], [Live(0, [VNull], 1), Live(0, [], 4)];
    var h7 := [Live(0, [VNull], 1), Freed];
    assert Drop(Nested(1, 1), 0) == Nested(0, 1);
    assert [VArray(1)][0 := VNull] == [VNull];
    assert TakeItem(Nested(0, 1), 0, 0) == h5;
    assert Drop(h5, 1) == h6;
    assert ReleaseItems(h6, 1, 0) == h6;
    assert Release(h5, VArray(1)) == h7;
    assert ReleaseItems(h7, 0, 1) == h7;
    assert ReleaseItems(Nested(0, 1), 0, 0) == h7;
  }

  lemma {:induction false} AppendTheInner()
    ensures var s := State([Live(1, [], 1), Live(1, [], 4)], [], [ARR, VArray(1)]);
      Enabled(s, Append) && Apply(s, Append) == State(Nested(1, 1), [], [ARR])
  {
    AppendInner();
    assert [ARR, VArray(1)][..1] == [ARR];
  }

  lemma {:induction false} ShareInner()
    ensures var s := State(Nested(1, 1), [], [ARR, VInt(0)]);
      IndexResult(s, Below(s), Top(s)) == VArray(1) && Share(s, VArray(1)) == State([Freed, Freed], [], [VArray(1)])
  {
    ReleaseOuter();
    assert [ARR, VInt(0)][..0] + [VArray(1)] == [VArray(1)];
  }

  /** `[[]][0]`: the inner array is freed together with the outer one, and the result of the
      expression still points to it. */
  lemma {:induction false} SharedIndexDangles() returns (states: seq<State>, ops: seq<Op>)
    ensures Execution(states, ops) && |states[|ops|].temps| == 2
    ensures var s := states[|ops|];
      var end := Share(s, IndexResult(s, Below(s), Top(s)));
      Top(end) == VArray(1) && !IsLive(end.heap, 1)
  {
    hide Release, Share, IndexResult;
    ops := [BeginArray(1), BeginArray(0), Append, Literal(VInt(0))];
    states := [INITIAL, State([Live(1, [], 1)], [], [ARR]),
               State([Live(1, [], 1), Live(1, [], 4)], [], [ARR, VArray(1)]),
               State(Nested(1, 1), [], [ARR]), State(Nested(1, 1), [], [ARR, VInt(0)])];
    forall k | 0 <= k < 4
      ensures Enabled(states[k], ops[k]) && states[k + 1] == Apply(states[k], ops[k])
    {
      match k
      case 0 => assert [] + [ARR] == [ARR];
      case 1 => assert [ARR] + [VArray(1)] == [ARR, VArray(1)];
      case 2 => AppendTheInner();
      case 3 => assert [ARR] + [VInt(0)] == [ARR, VInt(0)];
    }
    ShareInner();
  }

  // ---------- A struct instance shared by plain indexing ----------

  /** An array at 0 with `count` owners that holds the struct instance at 1, `P { x: 1 }`. */
  function Holding(count: nat): Heap {
    [Live(count, [VArray(1)], 1), Live(1, [VInt(1)], 1)]
  }

  /** Just before the index expression releases that array, which `env` may hold too. */
  function Indexing(env: seq<Binding>): State {
    State(Holding(1 + |env|), env, [ARR, VInt(0)])
  }

  lemma {:induction false} HoldingRefs(count: nat, a: Addr)
    ensures HeapRefsTo(Holding(count), a) == if a == 1 then 1 else 0
  {
    var h := Holding(count);
    assert h[..1] == [h[0]] && [h[0]][..0] == [];
    assert HeapRefsTo([h[0]], a) == SlotRefsTo(h[0], a);
    RefsToAllCons(VInt(1), [], a);
    RefsToAllCons(VArray(1), [], a);
    assert [VInt(1)] + [] == [VInt(1)] && [VArray(1)] + [] == [VArray(1)];
  }

  lemma {:induction false} IndexingRefs(env: seq<Binding>, a: Addr)
    requires env == [] || env == ENV
    ensures RefsToAll(Roots(Indexing(env)), a) == if a == 0 then 1 + |env| else 0
  {
    assert [ARR] + [VInt(0)] == [ARR, VInt(0)];
    RefsToAllCons(ARR, [VInt(0)], a);
    RefsToAllCons(ARR, [ARR, VInt(0)], a);
    assert RefsToAll([VInt(0)], a) == 0;
    assert Roots(Indexing(env)) == if env == [] then [ARR, VInt(0)] else [ARR] + [ARR, VInt(0)];
  }

  lemma {:induction false} IndexingValid(env: seq<Binding>)
    requires env == [] || env == ENV
    ensures Valid(Indexing(env))
  {
    hide HeapRefsTo, RefsToAll;
    var s := Indexing(env);
    forall a: Addr
      ensures ExactAt(s.heap, Roots(s), a)
    {
      HoldingRefs(1 + |env|, a);
      IndexingRefs(env, a);
    }
  }

  lemma {:induction false} IndexingBoxed(env: seq<Binding>)
    requires env == [] || env == ENV
    ensures Boxed(Indexing(env), {1}) && BoxedElement(Indexing(env), {1}) == VArray(1)
  {
    assert Roots(Indexing(env)) == if env == [] then [ARR, VInt(0)] else [ARR, ARR, VInt(0)];
  }

  lemma {:induction false} ReleaseInstance(count: nat)
    ensures Release([Live(count, [VNull], 1), Live(1, [VInt(1)], 1)], VArray(1)) == [Live(count, [VNull], 1), Freed]
    ensures Release(Holding(count), VArray(1)) == [Live(count, [VArray(1)], 1), Freed]
  {
    FreeInstance(count, [VNull]);
    FreeInstance(count, [VArray(1)]);
  }

  lemma {:induction false} FreeInstance(count: nat, items: seq<Value>)
    ensures Release([Live(count, items, 1), Live(1, [VInt(1)], 1)], VArray(1)) == [Live(count, items, 1), Freed]
  {
    var h1, h2 := [Live(count, items, 1), Live(0, [VInt(1)], 1)], [Live(count, items, 1), Live(0, [VNull], 1)];
    assert Drop([Live(count, items, 1), Live(1, [VInt(1)], 1)], 1) == h1;
    assert [VInt(1)][0 := VNull] == [VNull];
    assert TakeItem(h1, 1, 0) == h2;
    assert ReleaseItems(h2, 1, 1) == h2;
    assert ReleaseItems(h1, 1, 0) == h2;
  }

  lemma {:induction false} ReleaseHolder()
    ensures Release(Holding(1), ARR) == [Freed, Freed]
    ensures Release(Holding(2), ARR) == Holding(1)
  {
    var h1, h2 := [Live(0, [VNull], 1), Live(1, [VInt(1)], 1)], [Live(0, [VNull], 1), Freed];
    assert Drop(Holding(1), 0) == Holding(0) && Drop(Holding(2), 0) == Holding(1);
    assert [VArray(1)][0 := VNull] == [VNull];
    assert TakeItem(Holding(0), 0, 0) == h1;
    ReleaseInstance(0);
    assert ReleaseItems(h2, 0, 1) == h2;
    assert ReleaseItems(Holding(0), 0, 0) == h2;
  }

  lemma {:induction false} ShareInstance(env: seq<Binding>)
    requires env == [] || env == ENV
    ensures Share(Indexing(env), VArray(1))
      == State(if env == [] then [Freed, Freed] else Holding(1), env, [VArray(1)])
  {
    ReleaseHolder();
    assert [ARR, VInt(0)][..0] + [VArray(1)] == [VArray(1)];
  }

  /** `[P { x: 1 }][0]`: the instance is freed with its array and the result points to it. */
  lemma {:induction false} SharedStructDangles() returns (s: State)
    ensures Valid(s) && Boxed(s, {1}) && |s.temps| == 2
    ensures var end := Share(s, BoxedElement(s, {1})); Top(end) == VArray(1) && !IsLive(end.heap, 1)
  {
    hide Release, RefsToAll, HeapRefsTo, Valid, Boxed, BoxedElement;
    s := Indexing([]);
    IndexingValid([]);
    IndexingBoxed([]);
    ShareInstance([]);
  }

  /** `a[0]` for such an array: freeing the result frees the instance that `a` still holds. */
  lemma {:induction false} SharedStructFreedInArray() returns (s: State)
    ensures Valid(s) && Boxed(s, {1}) && |s.temps| == 2
    ensures var t := Share(s, BoxedElement(s, {1}));
      && Top(t) == VArray(1) && IsLive(t.heap, 1) && Owners(t, 1) == 2
      && var h := Release(t.heap, Top(t)); IsLive(h, 0) && h[0].items == [VArray(1)] && !IsLive(h, 1)
  {
    hide Release, RefsToAll, HeapRefsTo, Valid, Boxed, BoxedElement, Owners;
    s := Indexing(ENV);
    IndexingValid(ENV);
    IndexingBoxed(ENV);
    ShareInstance(ENV);
    ReleaseInstance(1);
    SharedIndexValidIff(s, {1});
    assert 1 in Pointee(VArray(1)) * {1};
  }

  // ---------- A rest pattern behind the end ----------

  const HUGE: nat := SIZE_LIMIT - 1
  const REST := VArray(1)
  const ONLY_A := [Binding("a", VNull)]
  const BOTH := [Binding("r", REST), Binding("a", VNull)]

  /** The heap once the rest array is there; it was granted no buffer. */
  function Unbacked(count: nat, items: seq<Value>): Heap {
    [Freed, Live(count, items, HUGE)]
  }

  lemma {:induction false} StoreShortRest()
    ensures Apply(State(Lone(1, []), ONLY_A, [ARR]), StoreRest("r", 1))
      == State([Live(1, [], 4), Live(1, [], HUGE)], BOTH, [ARR])
  {
    var s := State(Lone(1, []), ONLY_A, [ARR]);
    assert RestCapacity(0, 1) == HUGE;
    assert RestItems(s, 0, 1) == [];
    assert RestArray(s, 1) == [Live(1, [], 4), Live(1, [], HUGE)];
    assert Find(ONLY_A, "r") == 1;
    assert [Binding("r", REST)] + ONLY_A == BOTH;
    assert Clone(RestArray(s, 1), REST) == [Live(1, [], 4), Live(2, [], HUGE)];
  }

  lemma {:induction false} PushFive()
    ensures Enabled(State(Unbacked(2, []), BOTH, [REST, VInt(5)]), PushCall)
    ensures Apply(State(Unbacked(2, []), BOTH, [REST, VInt(5)]), PushCall)
      == State(Unbacked(1, [VInt(5)]), BOTH, [VNull])
  {
    assert Grow(Unbacked(2, []), 1) == Unbacked(2, []);
    assert [] + [VInt(5)] == [VInt(5)];
    assert Push(Unbacked(2, []), 1, VInt(5)) == Unbacked(2, [VInt(5)]);
    assert Release(Unbacked(2, [VInt(5)]), REST) == Unbacked(1, [VInt(5)]);
    assert [REST, VInt(5)][..0] + [VNull] == [VNull];
  }

  lemma {:induction false} DiscardShort()
    ensures Apply(State([Live(1, [], 4), Live(1, [], HUGE)], BOTH, [ARR]), Discard) == State(Unbacked(1, []), BOTH, [])
  {
    var h, h1 := [Live(1, [], 4), Live(1, [], HUGE)], [Live(0, [], 4), Live(1, [], HUGE)];
    assert Drop(h, 0) == h1;
    assert ReleaseItems(h1, 0, 0) == h1;
    assert Release(h, ARR) == Unbacked(1, []);
    assert [ARR][..0] == [];
  }

  lemma {:induction false} LoadRest()
    ensures Apply(State(Unbacked(1, []), BOTH, []), Load("r")) == State(Unbacked(2, []), BOTH, [REST])
  {
    assert Find(BOTH, "r") == 0;
    assert Clone(Unbacked(1, []), REST) == Unbacked(2, []);
    assert [] + [REST] == [REST];
  }

  const SHORT_REST: seq<Op> :=
    [BeginArray(0), StoreItem("a", 0), StoreRest("r", 1), Discard, Load("r"), Literal(VInt(5)), PushCall]

  function ShortRestStates(): seq<State> {
    [INITIAL, State(Lone(1, []), [], [ARR]), State(Lone(1, []), ONLY_A, [ARR]),
     State([Live(1, [], 4), Live(1, [], HUGE)], BOTH, [ARR]),
     State(Unbacked(1, []), BOTH, []), State(Unbacked(2, []), BOTH, [REST]),
     State(Unbacked(2, []), BOTH, [REST, VInt(5)]), State(Unbacked(1, [VInt(5)]), BOTH, [VNull])]
  }

  lemma {:induction false} ShortRestIsModest()
    ensures forall k | 0 <= k < 8 :: Short(ShortRestStates()[k].heap)
    ensures forall k | 0 <= k < 7 :: Modest(SHORT_REST[k])
  {
  }

  /** `turbo [a, ...r] = []; r.push(5);` stores an item in an array that has no buffer. */
  lemma {:induction false} ShortRestOverflows() returns (states: seq<State>, ops: seq<Op>)
    ensures Execution(states, ops)
    ensures (forall k | 0 <= k <= |ops| :: Short(states[k].heap)) && forall k | 0 <= k < |ops| :: Modest(ops[k])
    ensures var h := states[|ops|].heap; IsLive(h, 1) && |h[1].items| > Room(h[1])
  {
    hide Short, Modest;
    ops, states := SHORT_REST, ShortRestStates();
    ShortRestIsModest();
    forall k | 0 <= k < 7
      ensures Enabled(states[k], ops[k]) && states[k + 1] == Apply(states[k], ops[k])
    {
      match k
      case 0 => assert [] + [ARR] == [ARR];
      case 1 => assert [Binding("a", VNull)] + [] == ONLY_A;
      case 2 => StoreShortRest();
      case 3 => DiscardShort();
      case 4 => LoadRest();
      case 5 => assert [REST] + [VInt(5)] == [REST, VInt(5)];
      case 6 => PushFive();
    }
  }
}
