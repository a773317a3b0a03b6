/** The interpreter's operations on the array heap (src/core/interpreter.c). */
module RefMachine {
  import opened RefHeap

  // Operations on array, struct and variable values as they touch the reference counts, and what
  // holds after any sequence of them. `temps` is the stack of values that evaluation holds in C
  // locals, innermost last.

  datatype Binding = Binding(name: string, value: Value)

  datatype State = State(heap: Heap, env: seq<Binding>, temps: seq<Value>)

  const INITIAL := State([], [], [])

  const SIZE_LIMIT: nat := 0x1_0000_0000_0000_0000

  // ---------- Array operations ----------

  /** array_create: a new array at the end of the heap, owned by its creator. */
  function Create(h: Heap, capacity: nat): Heap {
    h + [Live(1, [], if capacity > 0 then capacity else 4)]
  }

  function Grow(h: Heap, a: Addr): (h': Heap)
    requires IsLive(h, a)
    ensures SameLayout(h, h')
  {
    var s := h[a];
    h[a := s.(capacity := if |s.items| >= s.capacity then s.capacity * 2 else s.capacity)]
  }

  /** The same arrays with the same contents. */
  ghost predicate SameLayout(h1: Heap, h2: Heap) {
    && |h1| == |h2|
    && forall a: Addr | a < |h1| ::
      && h1[a].Live? == h2[a].Live?
      && (h1[a].Live? ==> h1[a].items == h2[a].items && h1[a].refcount == h2[a].refcount)
  }

  function Push(h: Heap, a: Addr, v: Value): (h': Heap)
    requires IsLive(h, a)
    ensures |h'| == |h| && IsLive(h', a)
  {
    var h1 := Clone(Grow(h, a), v);
    h1[a := h1[a].(items := h1[a].items + [v])]
  }

  function PushAll(h: Heap, a: Addr, vs: seq<Value>): (h': Heap)
    requires IsLive(h, a)
    ensures |h'| == |h| && IsLive(h', a)
    decreases vs
  {
    if vs == [] then h else PushAll(Push(h, a, vs[0]), a, vs[1..])
  }

  /** The pop method: clone the last item, release its slot, then shorten the array. */
  function Pop(h: Heap, a: Addr): (Heap, Value)
    requires IsLive(h, a)
  {
    var n := |h[a].items|;
    if n == 0 then (h, VNull)
    else
      var v := h[a].items[n - 1];
      var h1 := Release(TakeItem(Clone(h, v), a, n - 1), v);
      (if IsLive(h1, a) then h1[a := h1[a].(items := h1[a].items[..n - 1])] else h1, v)
  }

  // ---------- Variables ----------

  function Values(env: seq<Binding>): seq<Value> {
    seq(|env|, i requires 0 <= i < |env| => env[i].value)
  }

  /** The position of the first binding of `name`, or the length when there is none. */
  function Find(env: seq<Binding>, name: string): (i: nat)
    ensures i <= |env|
    ensures i < |env| ==> env[i].name == name
    ensures forall j | 0 <= j < i :: env[j].name != name
  {
    if env == [] || env[0].name == name then 0 else 1 + Find(env[1..], name)
  }

  function EnvSet(h: Heap, env: seq<Binding>, name: string, v: Value): (Heap, seq<Binding>) {
    var h1 := Clone(h, v);
    var i := Find(env, name);
    if i < |env| then (Release(h1, env[i].value), env[i := Binding(name, v)])
    else (h1, [Binding(name, v)] + env)
  }

  function EnvGet(env: seq<Binding>, name: string): Value {
    var i := Find(env, name);
    if i < |env| then env[i].value else VNull
  }

  function EnvFree(h: Heap, env: seq<Binding>): Heap
    decreases env
  {
    if env == [] then h else EnvFree(Release(h, env[0].value), env[1..])
  }

  // ---------- Structs ----------

  function FindName(names: seq<string>, name: string): (i: nat)
    ensures i <= |names|
    ensures i < |names| ==> names[i] == name
    ensures forall j | 0 <= j < i :: names[j] != name
  {
    if names == [] || names[0] == name then 0 else 1 + FindName(names[1..], name)
  }

  function HasField(v: Value, name: string): bool {
    v.VStruct? && FindName(v.names, name) < |v.names| && FindName(v.names, name) < |v.fields|
  }

  function GetField(v: Value, name: string): Value
    requires HasField(v, name)
  {
    v.fields[FindName(v.names, name)]
  }

  function PutField(v: Value, name: string, x: Value): Value
    requires HasField(v, name)
  {
    v.(fields := v.fields[FindName(v.names, name) := x])
  }

  // ---------- Operations ----------

  datatype Op =
    | Literal(v: Value)                       // a value that refers to no array
    | Load(name: string)                      // identifier
    | Store(name: string)                     // name = top; top stays
    | StoreItem(name: string, index: nat)     // array destructuring, one identifier
    | StoreRest(name: string, index: nat)     // array destructuring, ...name
    | Discard                                 // value_free of top
    | BeginArray(capacity: nat)               // [
    | Append                                  // one element of an array literal
    | Spread                                  // ...element of an array literal
    | PushCall                                // obj.push(val)
    | PopCall                                 // obj.pop()
    | Index                                   // arr[idx], cloning the element
    | Member(name: string)                    // obj.name
    | BeginStruct(name: string)               // Name {
    | AddField(name: string)                  // name: value
    | SetField(variable: string, name: string) // variable.name = top; top stays

  function Top(s: State): Value {
    if s.temps == [] then VNull else s.temps[|s.temps| - 1]
  }

  function Below(s: State): Value {
    if |s.temps| < 2 then VNull else s.temps[|s.temps| - 2]
  }

  function Keep(s: State, n: nat): seq<Value>
    requires n <= |s.temps|
  {
    s.temps[..|s.temps| - n]
  }

  ghost predicate NoRefs(v: Value) {
    forall a: Addr :: RefsTo(v, a) == 0
  }

  predicate IsArray(s: State, v: Value) {
    v.VArray? && IsLive(s.heap, v.addr)
  }

  /** What evaluation guarantees about its own locals when it performs an operation. */
  ghost predicate Enabled(s: State, op: Op) {
    match op
    case Literal(v) => NoRefs(v)
    case Store(_) => |s.temps| >= 1
    case StoreItem(_, _) => |s.temps| >= 1 && IsArray(s, Top(s))
    case StoreRest(_, _) => |s.temps| >= 1 && IsArray(s, Top(s))
    case Discard => |s.temps| >= 1
    case Append => |s.temps| >= 2 && IsArray(s, Below(s))
    case Spread => |s.temps| >= 2 && IsArray(s, Below(s)) && Top(s) != Below(s)
    case PushCall => |s.temps| >= 2 && IsArray(s, Below(s))
    case PopCall => |s.temps| >= 1 && IsArray(s, Top(s))
    case Index => |s.temps| >= 2
    case Member(_) => |s.temps| >= 1
    case AddField(_) => |s.temps| >= 2 && Below(s).VStruct?
    case SetField(_, _) => |s.temps| >= 1
    case _ => true
  }

  function IndexResult(s: State, arr: Value, idx: Value): Value {
    if IsArray(s, arr) && idx.VInt? && 0 <= idx.i < |s.heap[arr.addr].items|
    then s.heap[arr.addr].items[idx.i] else VNull
  }

  function MemberResult(s: State, obj: Value, name: string): Value {
    if HasField(obj, name) then GetField(obj, name)
    else if IsArray(s, obj) && name == "length" then VInt(|s.heap[obj.addr].items|)
    else VNull
  }

  function ItemOrNull(s: State, a: Addr, index: nat): Value
    requires IsLive(s.heap, a)
  {
    if index < |s.heap[a].items| then s.heap[a].items[index] else VNull
  }

  function Bind(s: State, h: Heap, name: string, v: Value): State {
    var (h1, env1) := EnvSet(h, s.env, name, v);
    s.(heap := h1, env := env1)
  }

  function RestItems(s: State, a: Addr, index: nat): seq<Value>
    requires IsLive(s.heap, a)
  {
    if index <= |s.heap[a].items| then s.heap[a].items[index..] else []
  }

  /** `size_t` subtraction: the rest of an array that is too short asks for a huge capacity. */
  function RestCapacity(count: nat, index: nat): nat {
    (count - index) % SIZE_LIMIT
  }

  function RestArray(s: State, index: nat): Heap
    requires IsArray(s, Top(s))
  {
    var a := Top(s).addr;
    PushAll(Create(s.heap, RestCapacity(|s.heap[a].items|, index)), |s.heap|, RestItems(s, a, index))
  }

  function AfterStoreRest(s: State, name: string, index: nat): State
    requires IsArray(s, Top(s))
  {
    var rest := VArray(|s.heap|);
    var s1 := Bind(s, RestArray(s, index), name, rest);
    s1.(heap := Release(s1.heap, rest))
  }

  function AfterSetField(s: State, variable: string, name: string): State {
    var i := Find(s.env, variable);
    if i < |s.env| && HasField(s.env[i].value, name) then
      var h1 := Release(s.heap, GetField(s.env[i].value, name));
      s.(heap := Clone(h1, Top(s)),
         env := s.env[i := Binding(variable, PutField(s.env[i].value, name, Top(s)))])
    else s
  }

  ghost function Apply(s: State, op: Op): State
    requires Enabled(s, op)
  {
    match op
    case Literal(v) => s.(temps := s.temps + [v])
    case Load(name) =>
      var v := EnvGet(s.env, name);
      s.(heap := Clone(s.heap, v), temps := s.temps + [v])
    case Store(name) => Bind(s, s.heap, name, Top(s))
    case StoreItem(name, index) => Bind(s, s.heap, name, ItemOrNull(s, Top(s).addr, index))
    case StoreRest(name, index) => AfterStoreRest(s, name, index)
    case Discard => s.(heap := Release(s.heap, Top(s)), temps := Keep(s, 1))
    case BeginArray(capacity) =>
      s.(heap := Create(s.heap, capacity), temps := s.temps + [VArray(|s.heap|)])
    case Append =>
      s.(heap := Release(Push(s.heap, Below(s).addr, Top(s)), Top(s)), temps := Keep(s, 1))
    case Spread =>
      var h1 := if IsArray(s, Top(s))
                then PushAll(s.heap, Below(s).addr, s.heap[Top(s).addr].items) else s.heap;
      s.(heap := Release(h1, Top(s)), temps := Keep(s, 1))
    case PushCall =>
      var h1 := Push(s.heap, Below(s).addr, Top(s));
      s.(heap := Release(Release(h1, Top(s)), Below(s)), temps := Keep(s, 2) + [VNull])
    case PopCall =>
      var (h1, v) := Pop(s.heap, Top(s).addr);
      s.(heap := Release(h1, Top(s)), temps := Keep(s, 1) + [v])
    case Index =>
      var v := IndexResult(s, Below(s), Top(s));
      s.(heap := Release(Release(Clone(s.heap, v), Below(s)), Top(s)), temps := Keep(s, 2) + [v])
    case Member(name) =>
      var v := MemberResult(s, Top(s), name);
      s.(heap := Release(Clone(s.heap, v), Top(s)), temps := Keep(s, 1) + [v])
    case BeginStruct(name) => s.(temps := s.temps + [VStruct(name, [], [])])
    case AddField(name) =>
      var b := Below(s);
      s.(temps := Keep(s, 2) + [b.(names := [name] + b.names, fields := [Top(s)] + b.fields)])
    case SetField(variable, name) => AfterSetField(s, variable, name)
  }

  // ---------- The invariant ----------

  /** No array is ever longer than its recorded capacity. */
  ghost predicate Roomy(h: Heap) {
    forall a: Addr | IsLive(h, a) :: |h[a].items| <= h[a].capacity && h[a].capacity > 0
  }

  ghost predicate Good(h: Heap, roots: seq<Value>) {
    Sound(h, roots) && Roomy(h)
  }

  function Roots(s: State): seq<Value> {
    Values(s.env) + s.temps
  }

  ghost predicate Valid(s: State) {
    Good(s.heap, Roots(s))
  }

  /** Two lists of values that refer to every array equally often. */
  ghost predicate SameRefs(r1: seq<Value>, r2: seq<Value>) {
    forall a: Addr :: RefsToAll(r1, a) == RefsToAll(r2, a)
  }

  lemma {:induction false} GoodSameRefs(h: Heap, r1: seq<Value>, r2: seq<Value>)
    requires Good(h, r1) && SameRefs(r1, r2)
    ensures Good(h, r2)
  {
    forall a: Addr
      ensures ExactAt(h, r2, a)
    {
      assert ExactAt(h, r1, a);
    }
  }

  lemma {:induction false} RootLive(h: Heap, roots: seq<Value>, i: nat)
    requires Good(h, roots) && i < |roots|
    ensures RefsLive(h, roots[i])
  {
    forall a: Addr | RefsTo(roots[i], a) > 0
      ensures IsLive(h, a)
    {
      RefsToAllSplit(roots, i, a);
      assert ExactAt(h, roots, a);
    }
  }

  lemma {:induction false} ItemLive(h: Heap, roots: seq<Value>, a: Addr, i: nat)
    requires Good(h, roots) && IsLive(h, a) && i < |h[a].items|
    ensures RefsLive(h, h[a].items[i])
  {
    forall b: Addr | RefsTo(h[a].items[i], b) > 0
      ensures IsLive(h, b)
    {
      RefsToAllSplit(h[a].items, i, b);
      SlotRefsInHeap(h, a, b);
      assert ExactAt(h, roots, b);
    }
  }

  lemma {:induction false} CloneGood(h: Heap, v: Value, roots: seq<Value>)
    requires Good(h, roots) && RefsLive(h, v)
    ensures Good(Clone(h, v), [v] + roots)
  {
    CloneKeepsSound(h, v, roots);
  }

  lemma {:induction false} ReleaseGood(h: Heap, v: Value, roots: seq<Value>)
    requires Good(h, [v] + roots)
    ensures Good(Release(h, v), roots)
  {
    ReleaseExact(h, v, roots);
  }

  lemma {:induction false} CreateGood(h: Heap, capacity: nat, roots: seq<Value>)
    requires Good(h, roots)
    ensures Good(Create(h, capacity), [VArray(|h|)] + roots)
  {
    var h' := Create(h, capacity);
    forall a: Addr
      ensures ExactAt(h', [VArray(|h|)] + roots, a)
    {
      assert h'[..|h|] == h;
      RefsToAllCons(VArray(|h|), roots, a);
      assert ExactAt(h, roots, a);
    }
  }

  lemma {:induction false} GrowGood(h: Heap, a: Addr, roots: seq<Value>)
    requires Good(h, roots) && IsLive(h, a)
    ensures Good(Grow(h, a), roots) && |h[a].items| < Grow(h, a)[a].capacity
  {
    var h1 := Grow(h, a);
    forall b: Addr
      ensures ExactAt(h1, roots, b)
    {
      HeapRefsUpdate(h, a, h1[a], b);
      assert ExactAt(h, roots, b);
    }
  }

  lemma {:induction false} AppendGood(h: Heap, a: Addr, v: Value, roots: seq<Value>)
    requires Good(h, [v] + roots) && IsLive(h, a) && |h[a].items| < h[a].capacity
    ensures Good(h[a := h[a].(items := h[a].items + [v])], roots)
  {
    var h1 := h[a := h[a].(items := h[a].items + [v])];
    forall b: Addr
      ensures ExactAt(h1, roots, b)
    {
      HeapRefsUpdate(h, a, h1[a], b);
      RefsToAllSnoc(h[a].items, v, b);
      RefsToAllCons(v, roots, b);
      assert ExactAt(h, [v] + roots, b);
    }
  }

  /** An array that takes a value in becomes one of its owners. */
  lemma {:induction false} PushGood(h: Heap, a: Addr, v: Value, roots: seq<Value>)
    requires Good(h, roots) && IsLive(h, a) && RefsLive(h, v)
    ensures Good(Push(h, a, v), roots)
    ensures forall b: Addr | b != a && IsLive(h, b) :: IsLive(Push(h, a, v), b) && Push(h, a, v)[b].items == h[b].items
    ensures Push(h, a, v)[a].items == h[a].items + [v]
  {
    GrowGood(h, a, roots);
    CloneGood(Grow(h, a), v, roots);
    AppendGood(Clone(Grow(h, a), v), a, v, roots);
  }

  lemma {:induction false} PushAllGood(h: Heap, a: Addr, vs: seq<Value>, roots: seq<Value>)
    requires Good(h, roots) && IsLive(h, a)
    requires forall i | 0 <= i < |vs| :: RefsLive(h, vs[i])
    ensures Good(PushAll(h, a, vs), roots)
    ensures forall b: Addr | IsLive(h, b) :: IsLive(PushAll(h, a, vs), b)
    ensures PushAll(h, a, vs)[a].items == h[a].items + vs
    decreases vs
  {
    if vs == [] {
      assert h[a].items + vs == h[a].items;
    } else {
      PushGood(h, a, vs[0], roots);
      var h1 := Push(h, a, vs[0]);
      forall i | 0 <= i < |vs[1..]|
        ensures RefsLive(h1, vs[1..][i])
      {
        assert RefsLive(h, vs[i + 1]);
      }
      PushAllGood(h1, a, vs[1..], roots);
      assert h[a].items + vs == (h[a].items + [vs[0]]) + vs[1..];
    }
  }

  /** The clone that pop makes and the release of the slot it came from cancel out. */
  lemma {:induction false} PopCancels(h: Heap, a: Addr, roots: seq<Value>)
    requires Good(h, roots) && IsLive(h, a) && |h[a].items| > 0
    ensures
      var n := |h[a].items|;
      var v := h[a].items[n - 1];
      && Release(TakeItem(Clone(h, v), a, n - 1), v) == TakeItem(h, a, n - 1)
      && RefsLive(h, v)
  {
    var n := |h[a].items|;
    var v := h[a].items[n - 1];
    ItemLive(h, roots, a, n - 1);
    var emptied := TakeItem(h, a, n - 1);
    assert RefsLive(emptied, v) && Positive(emptied);
    CloneTakeCommute(h, a, n - 1, v);
    ReleaseUndoesClone(emptied, v);
  }

  /** pop hands its caller the reference the array held: no count changes at all. */
  lemma {:induction false} PopMoves(h: Heap, a: Addr, roots: seq<Value>)
    requires Good(h, roots) && IsLive(h, a) && |h[a].items| > 0
    ensures
      var n := |h[a].items|;
      Pop(h, a) == (h[a := h[a].(items := h[a].items[..n - 1])], h[a].items[n - 1])
  {
    var n := |h[a].items|;
    PopCancels(h, a, roots);
    var emptied := TakeItem(h, a, n - 1);
    assert emptied[a].items[..n - 1] == h[a].items[..n - 1];
    assert emptied[a := emptied[a].(items := emptied[a].items[..n - 1])] == h[a := h[a].(items := h[a].items[..n - 1])];
  }

  lemma {:induction false} CloneTakeCommute(h: Heap, a: Addr, i: nat, v: Value)
    requires IsLive(h, a) && i < |h[a].items| && RefsLive(h, v)
    ensures TakeItem(Clone(h, v), a, i) == Clone(TakeItem(h, a, i), v)
  {
    CloneCounts(h, v);
    CloneCounts(TakeItem(h, a, i), v);
    var h1, h2 := TakeItem(Clone(h, v), a, i), Clone(TakeItem(h, a, i), v);
    forall b: Addr
      ensures Count(h1, b) == Count(h2, b)
    {
      assert Count(h1, b) == Count(Clone(h, v), b) && Count(TakeItem(h, a, i), b) == Count(h, b);
    }
    SameCountsSameHeap(h1, h2);
  }

  /** An array that loses its last item hands the reference on. */
  lemma {:induction false} ShortenGood(h: Heap, a: Addr, roots: seq<Value>)
    requires Good(h, roots) && IsLive(h, a) && |h[a].items| > 0
    ensures
      var items := h[a].items;
      Good(h[a := h[a].(items := items[..|items| - 1])], [items[|items| - 1]] + roots)
  {
    var items := h[a].items;
    var v, rest := items[|items| - 1], items[..|items| - 1];
    var h' := h[a := h[a].(items := rest)];
    assert items == rest + [v];
    forall b: Addr
      ensures ExactAt(h', [v] + roots, b)
    {
      HeapRefsUpdate(h, a, h'[a], b);
      RefsToAllSnoc(rest, v, b);
      RefsToAllCons(v, roots, b);
      assert ExactAt(h, roots, b);
    }
  }

  lemma {:induction false} PopGood(h: Heap, a: Addr, roots: seq<Value>)
    requires Good(h, roots) && IsLive(h, a)
    ensures Good(Pop(h, a).0, [Pop(h, a).1] + roots)
  {
    hide Good;
    if |h[a].items| == 0 {
      ValueWithoutRefs(h, VNull, roots);
    } else {
      PopMoves(h, a, roots);
      ShortenGood(h, a, roots);
    }
  }

  lemma {:induction false} EnvSetGood(h: Heap, env: seq<Binding>, name: string, v: Value, rest: seq<Value>)
    requires Good(h, Values(env) + rest) && RefsLive(h, v)
    ensures
      var (h', env') := EnvSet(h, env, name, v);
      Good(h', Values(env') + rest)
  {
    CloneGood(h, v, Values(env) + rest);
    var i := Find(env, name);
    if i < |env| {
      var env' := env[i := Binding(name, v)];
      assert Values(env') == Values(env)[i := v];
      forall a: Addr
        ensures RefsToAll([v] + (Values(env) + rest), a) == RefsToAll([env[i].value] + (Values(env') + rest), a)
      {
        RefsToAllCons(v, Values(env) + rest, a);
        RefsToAllCons(env[i].value, Values(env') + rest, a);
        RefsToAllConcat(Values(env), rest, a);
        RefsToAllConcat(Values(env'), rest, a);
        RefsToAllUpdate(Values(env), i, v, a);
      }
      GoodSameRefs(Clone(h, v), [v] + (Values(env) + rest), [env[i].value] + (Values(env') + rest));
      ReleaseGood(Clone(h, v), env[i].value, Values(env') + rest);
    } else {
      assert Values([Binding(name, v)] + env) + rest == [v] + (Values(env) + rest);
    }
  }

  // ---------- Every operation keeps the invariant ----------

  function Rest(s: State, n: nat): seq<Value>
    requires n <= |s.temps|
  {
    Values(s.env) + Keep(s, n)
  }

  lemma {:induction false} PeelTop(s: State)
    requires |s.temps| >= 1
    ensures SameRefs(Roots(s), [Top(s)] + Rest(s, 1))
    ensures Valid(s) ==> RefsLive(s.heap, Top(s))
  {
    assert s.temps == Keep(s, 1) + [Top(s)];
    assert Roots(s) == Rest(s, 1) + [Top(s)];
    forall a: Addr
      ensures RefsToAll(Roots(s), a) == RefsToAll([Top(s)] + Rest(s, 1), a)
    {
      RefsToAllSnoc(Rest(s, 1), Top(s), a);
      RefsToAllCons(Top(s), Rest(s, 1), a);
    }
    if Valid(s) {
      RootLive(s.heap, Roots(s), |Roots(s)| - 1);
    }
  }

  lemma {:induction false} PeelTwo(s: State)
    requires |s.temps| >= 2
    ensures SameRefs(Roots(s), [Top(s)] + ([Below(s)] + Rest(s, 2)))
    ensures Valid(s) ==> RefsLive(s.heap, Top(s)) && RefsLive(s.heap, Below(s))
  {
    PeelTop(s);
    var t := s.(temps := Keep(s, 1));
    PeelTop(t);
    assert Below(s) == Top(t) && Keep(t, 1) == Keep(s, 2) && Roots(t) == Rest(s, 1);
    forall a: Addr
      ensures RefsToAll(Roots(s), a) == RefsToAll([Top(s)] + ([Below(s)] + Rest(s, 2)), a)
    {
      RefsToAllCons(Top(s), Rest(s, 1), a);
      RefsToAllCons(Top(s), [Below(s)] + Rest(s, 2), a);
    }
    if Valid(s) {
      assert Roots(s)[|Roots(s)| - 2] == Below(s);
      RootLive(s.heap, Roots(s), |Roots(s)| - 2);
    }
  }

  lemma {:induction false} AddTemp(h: Heap, env: seq<Binding>, temps: seq<Value>, v: Value)
    requires Good(h, [v] + (Values(env) + temps))
    ensures Valid(State(h, env, temps + [v]))
  {
    var s := State(h, env, temps + [v]);
    PeelTop(s);
    assert Keep(s, 1) == temps && Top(s) == v;
    GoodSameRefs(h, [v] + Rest(s, 1), Roots(s));
  }

  lemma {:induction false} ValueWithoutRefs(h: Heap, v: Value, roots: seq<Value>)
    requires Good(h, roots) && NoRefs(v)
    ensures Good(h, [v] + roots)
  {
    forall a: Addr
      ensures RefsToAll([v] + roots, a) == RefsToAll(roots, a)
    {
      RefsToAllCons(v, roots, a);
    }
    GoodSameRefs(h, roots, [v] + roots);
  }

  lemma {:induction false} BindValid(s: State, h: Heap, name: string, v: Value)
    requires Good(h, Roots(s)) && RefsLive(h, v)
    ensures Valid(Bind(s, h, name, v)) && Bind(s, h, name, v).temps == s.temps
  {
    EnvSetGood(h, s.env, name, v, s.temps);
  }

  lemma {:induction false} LoadValid(s: State, name: string)
    requires Valid(s)
    ensures Valid(Apply(s, Load(name)))
  {
    var v := EnvGet(s.env, name);
    var i := Find(s.env, name);
    if i < |s.env| {
      assert Roots(s)[i] == v;
      RootLive(s.heap, Roots(s), i);
    }
    CloneGood(s.heap, v, Roots(s));
    AddTemp(Clone(s.heap, v), s.env, s.temps, v);
  }

  lemma {:induction false} ItemOrNullLive(s: State, a: Addr, index: nat)
    requires Valid(s) && IsLive(s.heap, a)
    ensures RefsLive(s.heap, ItemOrNull(s, a, index))
  {
    if index < |s.heap[a].items| {
      ItemLive(s.heap, Roots(s), a, index);
    }
  }

  lemma {:induction false} RestArrayGood(s: State, index: nat)
    requires Valid(s) && |s.temps| >= 1 && IsArray(s, Top(s))
    ensures Good(RestArray(s, index), Values(s.env) + (s.temps + [VArray(|s.heap|)]))
    ensures RefsLive(RestArray(s, index), VArray(|s.heap|))
  {
    var a := Top(s).addr;
    var items := RestItems(s, a, index);
    var rest := VArray(|s.heap|);
    var h0 := Create(s.heap, RestCapacity(|s.heap[a].items|, index));
    CreateGood(s.heap, RestCapacity(|s.heap[a].items|, index), Roots(s));
    forall i | 0 <= i < |items|
      ensures RefsLive(h0, items[i])
    {
      ItemLive(s.heap, Roots(s), a, index + i);
      assert items[i] == s.heap[a].items[index + i];
    }
    PushAllGood(h0, |s.heap|, items, [rest] + Roots(s));
    AddTemp(RestArray(s, index), s.env, s.temps, rest);
    PeelTop(State(RestArray(s, index), s.env, s.temps + [rest]));
  }

  lemma {:induction false} LastRootFirst(h: Heap, env: seq<Binding>, temps: seq<Value>, v: Value)
    requires Good(h, Values(env) + (temps + [v]))
    ensures Good(h, [v] + (Values(env) + temps))
  {
    var t := State(h, env, temps + [v]);
    PeelTop(t);
    assert Keep(t, 1) == temps;
    GoodSameRefs(h, Roots(t), [v] + Rest(t, 1));
  }

  lemma {:induction false} StoreRestValid(s: State, name: string, index: nat)
    requires Valid(s) && Enabled(s, StoreRest(name, index))
    ensures Valid(Apply(s, StoreRest(name, index)))
  {
    var rest := VArray(|s.heap|);
    RestArrayGood(s, index);
    EnvSetGood(RestArray(s, index), s.env, name, rest, s.temps + [rest]);
    var (h2, env2) := EnvSet(RestArray(s, index), s.env, name, rest);
    LastRootFirst(h2, env2, s.temps, rest);
    ReleaseGood(h2, rest, Values(env2) + s.temps);
  }

  lemma {:induction false} DiscardValid(s: State)
    requires Valid(s) && |s.temps| >= 1
    ensures Valid(s.(heap := Release(s.heap, Top(s)), temps := Keep(s, 1)))
  {
    PeelTop(s);
    GoodSameRefs(s.heap, Roots(s), [Top(s)] + Rest(s, 1));
    ReleaseGood(s.heap, Top(s), Rest(s, 1));
  }

  lemma {:induction false} AppendValid(s: State)
    requires Valid(s) && Enabled(s, Append)
    ensures Valid(Apply(s, Append))
  {
    PeelTwo(s);
    PushGood(s.heap, Below(s).addr, Top(s), Roots(s));
    DiscardValid(s.(heap := Push(s.heap, Below(s).addr, Top(s))));
  }

  lemma {:induction false} SpreadPushesValid(s: State)
    requires Valid(s) && Enabled(s, Spread) && IsArray(s, Top(s))
    ensures Valid(s.(heap := PushAll(s.heap, Below(s).addr, s.heap[Top(s).addr].items)))
  {
    var items := s.heap[Top(s).addr].items;
    forall i | 0 <= i < |items|
      ensures RefsLive(s.heap, items[i])
    {
      ItemLive(s.heap, Roots(s), Top(s).addr, i);
    }
    PushAllGood(s.heap, Below(s).addr, items, Roots(s));
  }

  lemma {:induction false} SpreadValid(s: State)
    requires Valid(s) && Enabled(s, Spread)
    ensures Valid(Apply(s, Spread))
  {
    if IsArray(s, Top(s)) {
      SpreadPushesValid(s);
      DiscardValid(s.(heap := PushAll(s.heap, Below(s).addr, s.heap[Top(s).addr].items)));
    } else {
      DiscardValid(s);
    }
  }

  /** Two values from the top of the stack, in either order, with a result to keep. */
  lemma {:induction false} UnderTwo(h: Heap, s: State, v: Value)
    requires |s.temps| >= 2 && Good(h, [v] + Roots(s))
    ensures Good(h, [Top(s)] + ([Below(s)] + ([v] + Rest(s, 2))))
    ensures Good(h, [Below(s)] + ([Top(s)] + ([v] + Rest(s, 2))))
  {
    PeelTwo(s);
    var rest := [v] + Rest(s, 2);
    var r1, r2 := [Top(s)] + ([Below(s)] + rest), [Below(s)] + ([Top(s)] + rest);
    forall a: Addr
      ensures RefsToAll([v] + Roots(s), a) == RefsToAll(r1, a) == RefsToAll(r2, a)
    {
      RefsToAllCons(v, Roots(s), a);
      RefsToAllCons(Top(s), [Below(s)] + Rest(s, 2), a);
      RefsToAllCons(Below(s), Rest(s, 2), a);
      RefsToAllCons(Top(s), [Below(s)] + rest, a);
      RefsToAllCons(Below(s), rest, a);
      RefsToAllCons(Below(s), [Top(s)] + rest, a);
      RefsToAllCons(Top(s), rest, a);
      RefsToAllCons(v, Rest(s, 2), a);
    }
    GoodSameRefs(h, [v] + Roots(s), r1);
    GoodSameRefs(h, [v] + Roots(s), r2);
  }

  lemma {:induction false} DiscardTwo(h: Heap, s: State, v: Value, x: Value, y: Value)
    requires |s.temps| >= 2 && Good(h, [v] + Roots(s))
    requires (x == Top(s) && y == Below(s)) || (x == Below(s) && y == Top(s))
    ensures Valid(State(Release(Release(h, x), y), s.env, Keep(s, 2) + [v]))
  {
    var rest := [v] + Rest(s, 2);
    UnderTwo(h, s, v);
    ReleaseGood(h, x, [y] + rest);
    ReleaseGood(Release(h, x), y, rest);
    AddTemp(Release(Release(h, x), y), s.env, Keep(s, 2), v);
  }

  lemma {:induction false} UnderTop(h: Heap, s: State, v: Value)
    requires |s.temps| >= 1 && Good(h, [v] + Roots(s))
    ensures Good(h, [Top(s)] + ([v] + Rest(s, 1)))
  {
    PeelTop(s);
    var rest := [v] + Rest(s, 1);
    forall a: Addr
      ensures RefsToAll([v] + Roots(s), a) == RefsToAll([Top(s)] + rest, a)
    {
      RefsToAllCons(v, Roots(s), a);
      RefsToAllCons(Top(s), Rest(s, 1), a);
      RefsToAllCons(Top(s), rest, a);
      RefsToAllCons(v, Rest(s, 1), a);
    }
    GoodSameRefs(h, [v] + Roots(s), [Top(s)] + rest);
  }

  lemma {:induction false} DiscardUnder(h: Heap, s: State, v: Value)
    requires |s.temps| >= 1 && Good(h, [v] + Roots(s))
    ensures Valid(State(Release(h, Top(s)), s.env, Keep(s, 1) + [v]))
  {
    UnderTop(h, s, v);
    ReleaseGood(h, Top(s), [v] + Rest(s, 1));
    AddTemp(Release(h, Top(s)), s.env, Keep(s, 1), v);
  }

  lemma {:induction false} PushCallValid(s: State)
    requires Valid(s) && Enabled(s, PushCall)
    ensures Valid(Apply(s, PushCall))
  {
    PeelTwo(s);
    var h1 := Push(s.heap, Below(s).addr, Top(s));
    PushGood(s.heap, Below(s).addr, Top(s), Roots(s));
    ValueWithoutRefs(h1, VNull, Roots(s));
    DiscardTwo(h1, s, VNull, Top(s), Below(s));
  }

  lemma {:induction false} PopCallValid(s: State)
    requires Valid(s) && Enabled(s, PopCall)
    ensures Valid(Apply(s, PopCall))
  {
    PopGood(s.heap, Top(s).addr, Roots(s));
    var (h1, v) := Pop(s.heap, Top(s).addr);
    DiscardUnder(h1, s, v);
  }

  lemma {:induction false} IndexValid(s: State)
    requires Valid(s) && Enabled(s, Index)
    ensures Valid(Apply(s, Index))
  {
    var v := IndexResult(s, Below(s), Top(s));
    if v != VNull {
      ItemLive(s.heap, Roots(s), Below(s).addr, Top(s).i);
    }
    CloneGood(s.heap, v, Roots(s));
    DiscardTwo(Clone(s.heap, v), s, v, Below(s), Top(s));
  }

  lemma {:induction false} FieldLive(h: Heap, v: Value, name: string)
    requires RefsLive(h, v) && HasField(v, name)
    ensures RefsLive(h, GetField(v, name))
  {
    var i := FindName(v.names, name);
    forall a: Addr | RefsTo(GetField(v, name), a) > 0
      ensures IsLive(h, a)
    {
      RefsToAllSplit(v.fields, i, a);
    }
  }

  lemma {:induction false} MemberValid(s: State, name: string)
    requires Valid(s) && Enabled(s, Member(name))
    ensures Valid(Apply(s, Member(name)))
  {
    PeelTop(s);
    var v := MemberResult(s, Top(s), name);
    if HasField(Top(s), name) {
      FieldLive(s.heap, Top(s), name);
    }
    CloneGood(s.heap, v, Roots(s));
    DiscardUnder(Clone(s.heap, v), s, v);
  }

  lemma {:induction false} AddFieldValid(s: State, name: string)
    requires Valid(s) && Enabled(s, AddField(name))
    ensures Valid(Apply(s, AddField(name)))
  {
    PeelTwo(s);
    var b := Below(s);
    var v := b.(names := [name] + b.names, fields := [Top(s)] + b.fields);
    forall a: Addr
      ensures RefsToAll(Roots(s), a) == RefsToAll([v] + Rest(s, 2), a)
    {
      RefsToAllCons(Top(s), [b] + Rest(s, 2), a);
      RefsToAllCons(b, Rest(s, 2), a);
      RefsToAllCons(v, Rest(s, 2), a);
      RefsToAllCons(Top(s), b.fields, a);
    }
    GoodSameRefs(s.heap, Roots(s), [v] + Rest(s, 2));
    AddTemp(s.heap, s.env, Keep(s, 2), v);
  }

  /** Replacing one field of the struct bound at `i`. */
  lemma {:induction false} PutFieldRefs(s: State, i: nat, name: string, x: Value, a: Addr)
    requires i < |s.env| && HasField(s.env[i].value, name)
    ensures
      var was := s.env[i].value;
      var env' := s.env[i := Binding(s.env[i].name, PutField(was, name, x))];
      RefsToAll(Values(env') + s.temps, a) + RefsTo(GetField(was, name), a) == RefsToAll(Roots(s), a) + RefsTo(x, a)
  {
    var was := s.env[i].value;
    var env' := s.env[i := Binding(s.env[i].name, PutField(was, name, x))];
    assert Values(env') == Values(s.env)[i := PutField(was, name, x)];
    RefsToAllConcat(Values(s.env), s.temps, a);
    RefsToAllConcat(Values(env'), s.temps, a);
    RefsToAllUpdate(Values(s.env), i, PutField(was, name, x), a);
    RefsToAllUpdate(was.fields, FindName(was.names, name), x, a);
  }

  /** Between releasing the old field and storing the new one the slot holds nothing. */
  function FieldTaken(s: State, i: nat, name: string): State
    requires i < |s.env| && HasField(s.env[i].value, name)
  {
    s.(env := s.env[i := Binding(s.env[i].name, PutField(s.env[i].value, name, VNull))])
  }

  lemma {:induction false} FieldTakenGood(s: State, i: nat, name: string)
    requires Valid(s) && i < |s.env| && HasField(s.env[i].value, name)
    ensures Good(s.heap, [GetField(s.env[i].value, name)] + Roots(FieldTaken(s, i, name)))
  {
    var was, mid := GetField(s.env[i].value, name), FieldTaken(s, i, name);
    forall a: Addr
      ensures RefsToAll(Roots(s), a) == RefsToAll([was] + Roots(mid), a)
    {
      PutFieldRefs(s, i, name, VNull, a);
      RefsToAllCons(was, Roots(mid), a);
    }
    GoodSameRefs(s.heap, Roots(s), [was] + Roots(mid));
  }

  lemma {:induction false} SetFieldValid(s: State, variable: string, name: string)
    requires Valid(s) && Enabled(s, SetField(variable, name))
    ensures Valid(Apply(s, SetField(variable, name)))
  {
    var i := Find(s.env, variable);
    if i < |s.env| && HasField(s.env[i].value, name) {
      var was, mid := GetField(s.env[i].value, name), FieldTaken(s, i, name);
      FieldTakenGood(s, i, name);
      ReleaseGood(s.heap, was, Roots(mid));
      var h1 := Release(s.heap, was);
      PeelTop(mid.(heap := h1));
      CloneGood(h1, Top(s), Roots(mid));
      var end := Apply(s, SetField(variable, name));
      forall a: Addr
        ensures RefsToAll([Top(s)] + Roots(mid), a) == RefsToAll(Roots(end), a)
      {
        PutFieldRefs(s, i, name, VNull, a);
        PutFieldRefs(s, i, name, Top(s), a);
        RefsToAllCons(Top(s), Roots(mid), a);
      }
      GoodSameRefs(end.heap, [Top(s)] + Roots(mid), Roots(end));
    }
  }

  lemma {:induction false} ApplyValid(s: State, op: Op)
    requires Valid(s) && Enabled(s, op)
    ensures Valid(Apply(s, op))
  {
    match op
    case Literal(v) =>
      ValueWithoutRefs(s.heap, v, Roots(s));
      AddTemp(s.heap, s.env, s.temps, v);
    case Load(name) => LoadValid(s, name);
    case Store(name) =>
      PeelTop(s);
      BindValid(s, s.heap, name, Top(s));
    case StoreItem(name, index) =>
      ItemOrNullLive(s, Top(s).addr, index);
      BindValid(s, s.heap, name, ItemOrNull(s, Top(s).addr, index));
    case StoreRest(name, index) => StoreRestValid(s, name, index);
    case Discard => DiscardValid(s);
    case BeginArray(capacity) =>
      CreateGood(s.heap, capacity, Roots(s));
      AddTemp(Create(s.heap, capacity), s.env, s.temps, VArray(|s.heap|));
    case Append => AppendValid(s);
    case Spread => SpreadValid(s);
    case PushCall => PushCallValid(s);
    case PopCall => PopCallValid(s);
    case Index => IndexValid(s);
    case Member(name) => MemberValid(s, name);
    case BeginStruct(name) =>
      ValueWithoutRefs(s.heap, VStruct(name, [], []), Roots(s));
      AddTemp(s.heap, s.env, s.temps, VStruct(name, [], []));
    case AddField(name) => AddFieldValid(s, name);
    case SetField(variable, name) => SetFieldValid(s, variable, name);
  }

  // ---------- Whole runs ----------

  ghost predicate Execution(states: seq<State>, ops: seq<Op>) {
    && |states| == |ops| + 1 && states[0] == INITIAL
    && forall k | 0 <= k < |ops| :: Enabled(states[k], ops[k]) && states[k + 1] == Apply(states[k], ops[k])
  }

  /** After any sequence of operations every count is exact, no value anywhere refers to a
      freed array, nothing nobody refers to is still allocated, and no array is longer than its
      recorded capacity. */
  lemma {:induction false} CountsAlwaysExact(states: seq<State>, ops: seq<Op>, k: nat)
    requires Execution(states, ops) && k <= |ops|
    ensures Valid(states[k])
  {
    if k == 0 {
      forall a: Addr
        ensures ExactAt(INITIAL.heap, Roots(INITIAL), a)
      {
      }
    } else {
      CountsAlwaysExact(states, ops, k - 1);
      assert Enabled(states[k - 1], ops[k - 1]) && states[k - 1 + 1] == Apply(states[k - 1], ops[k - 1]);
      ApplyValid(states[k - 1], ops[k - 1]);
    }
  }

  // ---------- The buffers behind the capacities ----------

  // What is recorded as an array's capacity is what was asked for. A request of more bytes than a
  // size_t can count is refused, and the array then has no buffer at all.

  const VALUE_SIZE: nat := 16

  /** No array of a run gets as long as this: it would fill a quarter of the address space. */
  const TOO_LONG: nat := 0x400_0000_0000_0000

  predicate Allocatable(capacity: nat) {
    capacity * VALUE_SIZE < SIZE_LIMIT
  }

  /** The items that fit into the buffer of an array. */
  function Room(s: Slot): nat
    requires s.Live?
  {
    if Allocatable(s.capacity) then s.capacity else 0
  }

  /** Every array has the buffer that its capacity promises. */
  ghost predicate Backed(h: Heap) {
    forall a: Addr | IsLive(h, a) :: Allocatable(h[a].capacity)
  }

  ghost predicate Short(h: Heap) {
    forall a: Addr | IsLive(h, a) :: |h[a].items| < TOO_LONG
  }

  /** Programs do not write longer literals or patterns either. */
  predicate Modest(op: Op) {
    match op
    case BeginArray(capacity) => capacity < TOO_LONG
    case StoreRest(_, index) => index < TOO_LONG
    case _ => true
  }

  /** A rest pattern begins inside the array, or right behind it. */
  ghost predicate RestFits(s: State, op: Op)
    requires Enabled(s, op)
  {
    op.StoreRest? ==> op.index <= |s.heap[Top(s).addr].items|
  }

  lemma {:induction false} PushBacked(h: Heap, a: Addr, v: Value)
    requires IsLive(h, a) && Backed(h) && |h[a].items| <= h[a].capacity && 0 < h[a].capacity
    requires |h[a].items| < 2 * TOO_LONG
    ensures Backed(Push(h, a, v)) && Push(h, a, v)[a].items == h[a].items + [v]
    ensures |Push(h, a, v)[a].items| <= Push(h, a, v)[a].capacity
  {
    var h1 := Grow(h, a);
    assert Backed(h1);
    assert SameShape(h1, Clone(h1, v));
  }

  lemma {:induction false} PushAllBacked(h: Heap, a: Addr, vs: seq<Value>)
    requires IsLive(h, a) && Backed(h) && |h[a].items| <= h[a].capacity && 0 < h[a].capacity
    requires |h[a].items| + |vs| <= 2 * TOO_LONG
    ensures Backed(PushAll(h, a, vs))
    decreases vs
  {
    if vs != [] {
      PushBacked(h, a, vs[0]);
      PushAllBacked(Push(h, a, vs[0]), a, vs[1..]);
    }
  }

  /** `h2` has arrays of `h1` only, with buffers of the same sizes. */
  ghost predicate SameBuffers(h1: Heap, h2: Heap) {
    |h1| == |h2| && forall a: Addr | IsLive(h2, a) :: IsLive(h1, a) && h2[a].capacity == h1[a].capacity
  }

  lemma {:induction false} ReleaseBuffers(h: Heap, v: Value)
    ensures SameBuffers(h, Release(h, v))
  {
    ReleaseLowers(h, v);
  }

  lemma {:induction false} EnvSetBuffers(h: Heap, env: seq<Binding>, name: string, v: Value)
    ensures SameBuffers(h, EnvSet(h, env, name, v).0)
  {
    if Find(env, name) < |env| { ReleaseBuffers(Clone(h, v), env[Find(env, name)].value); }
  }

  /** The array of a rest pattern gets its buffer if and only if the pattern fits. */
  lemma {:induction false} RestArrayBacked(s: State, index: nat)
    requires Valid(s) && |s.temps| >= 1 && IsArray(s, Top(s)) && Backed(s.heap) && Short(s.heap) && index < TOO_LONG
    ensures var h := RestArray(s, index);
      && (index <= |s.heap[Top(s).addr].items| ==> Backed(h))
      && (index > |s.heap[Top(s).addr].items| ==> IsLive(h, |s.heap|) && !Allocatable(h[|s.heap|].capacity))
  {
    var a, b := Top(s).addr, |s.heap|;
    var count := |s.heap[a].items|;
    var h0 := Create(s.heap, RestCapacity(count, index));
    if index <= count {
      assert RestCapacity(count, index) == count - index;
      PushAllBacked(h0, b, RestItems(s, a, index));
    } else {
      assert RestCapacity(count, index) == count - index + SIZE_LIMIT;
      assert RestItems(s, a, index) == [];
    }
  }

  lemma {:induction false} StoreRestBacked(s: State, name: string, index: nat)
    requires Valid(s) && Enabled(s, StoreRest(name, index))
    requires Backed(s.heap) && Short(s.heap) && index < TOO_LONG
    ensures Backed(AfterStoreRest(s, name, index).heap) <==> index <= |s.heap[Top(s).addr].items|
  {
    var rest, h, t := VArray(|s.heap|), RestArray(s, index), AfterStoreRest(s, name, index);
    RestArrayBacked(s, index);
    EnvSetBuffers(h, s.env, name, rest);
    ReleaseBuffers(EnvSet(h, s.env, name, rest).0, rest);
    StoreRestValid(s, name, index);
    var i := if Find(s.env, name) < |s.env| then Find(s.env, name) else 0;
    assert Roots(t)[i] == rest;
    RootLive(t.heap, Roots(t), i);
    assert RefsTo(rest, |s.heap|) > 0;
  }

  lemma {:induction false} PopBuffers(h: Heap, a: Addr)
    requires IsLive(h, a)
    ensures SameBuffers(h, Pop(h, a).0)
  {
    var n := |h[a].items|;
    if n > 0 { ReleaseBuffers(TakeItem(Clone(h, h[a].items[n - 1]), a, n - 1), h[a].items[n - 1]); }
  }

  /** No other operation leaves an array without its buffer. */
  lemma {:induction false} ApplyBacked(s: State, op: Op)
    requires Valid(s) && Enabled(s, op) && Backed(s.heap) && Short(s.heap) && Modest(op)
    ensures Backed(Apply(s, op).heap) <==> RestFits(s, op)
  {
    match op
    case Store(name) => EnvSetBuffers(s.heap, s.env, name, Top(s));
    case StoreItem(name, index) => EnvSetBuffers(s.heap, s.env, name, ItemOrNull(s, Top(s).addr, index));
    case StoreRest(name, index) => StoreRestBacked(s, name, index);
    case Discard => ReleaseBuffers(s.heap, Top(s));
    case Append =>
      PushBacked(s.heap, Below(s).addr, Top(s));
      ReleaseBuffers(Push(s.heap, Below(s).addr, Top(s)), Top(s));
    case Spread => SpreadBacked(s);
    case PushCall =>
      var h1 := Push(s.heap, Below(s).addr, Top(s));
      PushBacked(s.heap, Below(s).addr, Top(s));
      ReleaseBuffers(h1, Top(s));
      ReleaseBuffers(Release(h1, Top(s)), Below(s));
    case PopCall =>
      PopBuffers(s.heap, Top(s).addr);
      ReleaseBuffers(Pop(s.heap, Top(s).addr).0, Top(s));
    case Index =>
      var h1 := Clone(s.heap, IndexResult(s, Below(s), Top(s)));
      ReleaseBuffers(h1, Below(s));
      ReleaseBuffers(Release(h1, Below(s)), Top(s));
    case Member(name) => ReleaseBuffers(Clone(s.heap, MemberResult(s, Top(s), name)), Top(s));
    case SetField(variable, name) =>
      var i := Find(s.env, variable);
      if i < |s.env| && HasField(s.env[i].value, name) {
        ReleaseBuffers(s.heap, GetField(s.env[i].value, name));
      }
    case _ =>
  }

  lemma {:induction false} SpreadBacked(s: State)
    requires Valid(s) && Enabled(s, Spread) && Backed(s.heap) && Short(s.heap)
    ensures Backed(Apply(s, Spread).heap)
  {
    if IsArray(s, Top(s)) {
      var items := s.heap[Top(s).addr].items;
      PushAllBacked(s.heap, Below(s).addr, items);
      ReleaseBuffers(PushAll(s.heap, Below(s).addr, items), Top(s));
    } else {
      ReleaseBuffers(s.heap, Top(s));
    }
  }

  /** A run in which no array is too long has all its buffers, at every moment, if and only if
      no rest pattern in it begins behind the end of its array; and then no buffer overflows. */
  lemma {:induction false} BuffersBackedIff(states: seq<State>, ops: seq<Op>)
    requires Execution(states, ops)
    requires (forall k | 0 <= k <= |ops| :: Short(states[k].heap)) && forall k | 0 <= k < |ops| :: Modest(ops[k])
    ensures (forall k | 0 <= k <= |ops| :: Backed(states[k].heap))
      <==> forall k | 0 <= k < |ops| :: RestFits(states[k], ops[k])
    ensures (forall k | 0 <= k < |ops| :: RestFits(states[k], ops[k])) ==>
      forall k, a: Addr | 0 <= k <= |ops| && IsLive(states[k].heap, a) ::
        |states[k].heap[a].items| <= Room(states[k].heap[a])
  {
    forall k | 0 <= k <= |ops| ensures Valid(states[k]) { CountsAlwaysExact(states, ops, k); }
    forall k | 0 <= k < |ops| && Backed(states[k].heap)
      ensures Backed(states[k + 1].heap) <==> RestFits(states[k], ops[k])
    {
      assert Enabled(states[k], ops[k]) && states[k + 1] == Apply(states[k], ops[k]);
      ApplyBacked(states[k], ops[k]);
    }
    if forall k | 0 <= k < |ops| :: RestFits(states[k], ops[k]) {
      BackedSoFar(states, ops);
    }
    if forall k | 0 <= k <= |ops| :: Backed(states[k].heap) {
      forall k | 0 <= k < |ops| ensures RestFits(states[k], ops[k]) {
        assert Backed(states[k].heap) && Backed(states[k + 1].heap);
      }
    }
  }

  lemma {:induction false} BackedSoFar(states: seq<State>, ops: seq<Op>)
    requires |states| == |ops| + 1 && Backed(states[0].heap)
    requires forall k | 0 <= k < |ops| && Backed(states[k].heap) :: Backed(states[k + 1].heap)
    ensures forall k | 0 <= k <= |ops| :: Backed(states[k].heap)
  {
    var n := 0;
    while n < |ops|
      invariant n <= |ops| && forall k | 0 <= k <= n :: Backed(states[k].heap)
    {
      assert Backed(states[n].heap);
      n := n + 1;
    }
  }

  // ---------- Shutting down ----------

  lemma {:induction false} EnvFreeGood(h: Heap, env: seq<Binding>, rest: seq<Value>)
    requires Good(h, Values(env) + rest)
    ensures Good(EnvFree(h, env), rest)
    decreases env
  {
    if env == [] {
      assert Values(env) + rest == rest;
    } else {
      assert Values(env) + rest == [env[0].value] + (Values(env[1..]) + rest);
      ReleaseGood(h, env[0].value, Values(env[1..]) + rest);
      EnvFreeGood(Release(h, env[0].value), env[1..], rest);
    }
  }

  lemma {:induction false} EnvFreeKeepsItems(h: Heap, env: seq<Binding>, rest: seq<Value>)
    requires Good(h, Values(env) + rest)
    ensures |EnvFree(h, env)| == |h|
    ensures forall a: Addr | IsLive(EnvFree(h, env), a) :: IsLive(h, a) && EnvFree(h, env)[a].items == h[a].items
    decreases env
  {
    if env != [] {
      assert Values(env) + rest == [env[0].value] + (Values(env[1..]) + rest);
      ReleaseExact(h, env[0].value, Values(env[1..]) + rest);
      EnvFreeKeepsItems(Release(h, env[0].value), env[1..], rest);
    }
  }

  lemma {:induction false} EnvFreeSparesSupported(h: Heap, env: seq<Binding>, rest: seq<Value>, g: set<Addr>)
    requires Good(h, Values(env) + rest) && Supported(h, rest, g)
    ensures Untouched(h, EnvFree(h, env), g)
    decreases env
  {
    if env != [] {
      var later := Values(env[1..]) + rest;
      assert Values(env) + rest == [env[0].value] + later;
      MoreRootsSupport(h, Values(env[1..]), rest, g);
      ReleaseSparesSupported(h, env[0].value, later, g);
      ReleaseGood(h, env[0].value, later);
      SupportCarriesOver(h, Release(h, env[0].value), rest, g);
      EnvFreeSparesSupported(Release(h, env[0].value), env[1..], rest, g);
    }
  }

  /** When a program ends, freeing its variables leaves exactly the arrays that keep each other
      alive: those in a set whose members are all referred to from within the set. */
  lemma {:induction false} ShutdownFreesExactly(s: State, a: Addr)
    requires Valid(s) && s.temps == []
    ensures IsLive(EnvFree(s.heap, s.env), a) <==> exists g: set<Addr> :: a in g && Supported(s.heap, [], g)
  {
    var h, h' := s.heap, EnvFree(s.heap, s.env);
    assert Roots(s) == Values(s.env) + [];
    EnvFreeGood(h, s.env, []);
    EnvFreeKeepsItems(h, s.env, []);
    if IsLive(h', a) {
      var survivors := set b: Addr | 0 <= b < |h'| && IsLive(h', b);
      forall b <- survivors
        ensures exists c :: c in survivors && IsLive(h, c) && SlotRefsTo(h[c], b) > 0
      {
        assert ExactAt(h', [], b);
        var c := HeapRefsHasHolder(h', b);
        assert c in survivors && SlotRefsTo(h[c], b) > 0;
      }
      assert a in survivors && Supported(h, [], survivors);
    }
    if g: set<Addr> :| a in g && Supported(h, [], g) {
      EnvFreeSparesSupported(h, s.env, [], g);
    }
  }

  /** Each array only refers to arrays of a lower rank. */
  ghost predicate Ranked(h: Heap, rank: seq<nat>) {
    && |rank| == |h|
    && forall a: Addr, b: Addr | IsLive(h, a) && b < |h| && SlotRefsTo(h[a], b) > 0 :: rank[b] < rank[a]
  }

  function Highest(rank: seq<nat>): nat {
    if rank == [] then 0 else if rank[0] > Highest(rank[1..]) then rank[0] else Highest(rank[1..])
  }

  lemma {:induction false} RankBelowTop(rank: seq<nat>, a: nat)
    requires a < |rank|
    ensures rank[a] <= Highest(rank)
  {
    if a > 0 {
      RankBelowTop(rank[1..], a - 1);
    }
  }

  /** Arrays that form no cycle cannot keep each other alive. */
  lemma {:induction false} RankedSupportsNothing(h: Heap, rank: seq<nat>, g: set<Addr>, a: Addr)
    requires Ranked(h, rank) && a in g
    ensures !Supported(h, [], g)
    decreases if a < |h| then Highest(rank) - rank[a] else 0
  {
    if Supported(h, [], g) {
      var b :| b in g && IsLive(h, b) && SlotRefsTo(h[b], a) > 0;
      RankBelowTop(rank, b);
      RankedSupportsNothing(h, rank, g, b);
    }
  }

  /** So a program whose arrays form no cycle leaves none behind. */
  lemma {:induction false} ShutdownFreesAcyclic(s: State, rank: seq<nat>, a: Addr)
    requires Valid(s) && s.temps == [] && Ranked(s.heap, rank)
    ensures !IsLive(EnvFree(s.heap, s.env), a)
  {
    ShutdownFreesExactly(s, a);
    forall g: set<Addr> | a in g
      ensures !Supported(s.heap, [], g)
    {
      RankedSupportsNothing(s.heap, rank, g, a);
    }
  }

  // ---------- Plain indexing as written ----------

  /** Plain indexing releases the array and the index and hands out `v` without counting it. */
  function Share(s: State, v: Value): State
    requires |s.temps| >= 2
  {
    s.(heap := Release(Release(s.heap, Below(s)), Top(s)), temps := Keep(s, 2) + [v])
  }

  lemma {:induction false} ReleasedGood(s: State, v: Value)
    requires Valid(s) && |s.temps| >= 2
    ensures Good(Share(s, v).heap, Rest(s, 2))
    ensures SameRefs(Roots(Share(s, v)), [v] + Rest(s, 2))
  {
    PeelTwo(s);
    forall a: Addr
      ensures RefsToAll(Roots(s), a) == RefsToAll([Below(s)] + ([Top(s)] + Rest(s, 2)), a)
    {
      RefsToAllCons(Top(s), [Below(s)] + Rest(s, 2), a);
      RefsToAllCons(Below(s), Rest(s, 2), a);
      RefsToAllCons(Below(s), [Top(s)] + Rest(s, 2), a);
      RefsToAllCons(Top(s), Rest(s, 2), a);
    }
    GoodSameRefs(s.heap, Roots(s), [Below(s)] + ([Top(s)] + Rest(s, 2)));
    ReleaseGood(s.heap, Below(s), [Top(s)] + Rest(s, 2));
    ReleaseGood(Release(s.heap, Below(s)), Top(s), Rest(s, 2));
    PeelTop(Share(s, v));
    assert Keep(Share(s, v), 1) == Keep(s, 2) && Top(Share(s, v)) == v;
  }

  lemma {:induction false} ShareValidIff(s: State, v: Value)
    requires Valid(s) && |s.temps| >= 2
    ensures Valid(Share(s, v)) <==> NoRefs(v)
  {
    var t := Share(s, v);
    ReleasedGood(s, v);
    if Valid(t) {
      forall a: Addr
        ensures RefsTo(v, a) == 0
      {
        assert ExactAt(t.heap, Roots(t), a) && ExactAt(t.heap, Rest(s, 2), a);
        RefsToAllCons(v, Rest(s, 2), a);
      }
    }
    if NoRefs(v) {
      ValueWithoutRefs(t.heap, v, Rest(s, 2));
      AddTemp(t.heap, s.env, Keep(s, 2), v);
    }
  }

  // Plain indexing shares struct instances as well as arrays. Who owns them shows when every
  // instance is a cell of its own in the heap, with its field values for items, and a struct value
  // is the address of its cell. C keeps no count for an instance: releasing any value that points
  // to it releases the fields and frees it. That is what a count that is always 1 does, and such a
  // count is exact as long as the instance has one owner.

  function Pointee(v: Value): set<Addr> {
    if v.VArray? then {v.addr} else {}
  }

  /** A state in which the addresses `instances` are those of struct instances. */
  ghost predicate Boxed(s: State, instances: set<Addr>) {
    && (forall p <- instances | IsLive(s.heap, p) :: s.heap[p].refcount == 1)
    && (forall v <- Roots(s) :: !v.VStruct?)
    && forall a: Addr, i | IsLive(s.heap, a) && 0 <= i < |s.heap[a].items| :: !s.heap[a].items[i].VStruct?
  }

  /** How many variables, temporaries, live items and fields hold the object at `p`. */
  function Owners(s: State, p: Addr): nat {
    RefsToAll(Roots(s), p) + HeapRefsTo(s.heap, p)
  }

  function BoxedElement(s: State, instances: set<Addr>): Value
    requires |s.temps| >= 2
  {
    if Pointee(Below(s)) * instances == {} then IndexResult(s, Below(s), Top(s)) else VNull
  }

  /** With instances as objects of their own, plain indexing keeps all counts exact and every
      instance with its one owner if and only if the element is neither array nor instance. A
      shared instance has been freed, or has two owners that will both free it. */
  lemma {:induction false} SharedIndexValidIff(s: State, instances: set<Addr>)
    requires Valid(s) && Boxed(s, instances) && |s.temps| >= 2
    ensures var v := BoxedElement(s, instances);
      && (Valid(Share(s, v)) <==> Pointee(v) == {})
      && forall p <- Pointee(v) * instances ::
        Owners(Share(s, v), p) == if IsLive(Share(s, v).heap, p) then 2 else 1
  {
    var v := BoxedElement(s, instances);
    var t := Share(s, v);
    ShareValidIff(s, v);
    assert v.VArray? ==> RefsTo(v, v.addr) > 0;
    ReleasedGood(s, v);
    forall p <- Pointee(v) * instances
      ensures Owners(t, p) == if IsLive(t.heap, p) then 2 else 1
    {
      assert ExactAt(t.heap, Rest(s, 2), p);
      RefsToAllCons(v, Rest(s, 2), p);
      ReleaseLowers(s.heap, Below(s));
      ReleaseLowers(Release(s.heap, Below(s)), Top(s));
    }
  }
}
