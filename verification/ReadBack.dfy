/** Reading back what was stored (src/core/interpreter.c). */
module ReadBack {
  import opened RefHeap
  import opened RefMachine

  // `RefMachine` counts references, and counts do not depend on which value an operation takes or
  // in what order. Here it is said which: variables, array elements and struct fields hold what
  // was put there last, and programs that build arrays read it back.

  /** What reading variable `name` gives: the value of its first binding, or null. */
  ghost predicate Holds(env: seq<Binding>, name: string, v: Value) {
    (v == VNull && Absent(env, name, |env|)) || exists i: nat :: BoundAt(env, name, v, i)
  }

  predicate Absent(env: seq<Binding>, name: string, n: nat)
    requires n <= |env|
  {
    forall j | 0 <= j < n :: env[j].name != name
  }

  predicate BoundAt(env: seq<Binding>, name: string, v: Value, i: nat) {
    i < |env| && env[i] == Binding(name, v) && Absent(env, name, i)
  }

  /** Variables other than `name` read the same in both. */
  ghost predicate SameElsewhere(env: seq<Binding>, env': seq<Binding>, name: string) {
    forall y, v | y != name :: Holds(env, y, v) <==> Holds(env', y, v)
  }

  /** Element `k` of a list of items, or null. */
  function At(items: seq<Value>, k: int): Value {
    if 0 <= k < |items| then items[k] else VNull
  }

  /** Arrays other than `a` that are still there hold what they held. */
  ghost predicate OthersSame(h: Heap, h': Heap, a: Addr) {
    forall b: Addr | b != a && b < |h| && IsLive(h', b) :: IsLive(h, b) && h'[b].items == h[b].items
  }

  // ---------- Variables ----------

  lemma {:induction false} FindHolds(env: seq<Binding>, name: string)
    ensures Holds(env, name, EnvGet(env, name))
  {
    var i := Find(env, name);
    if i < |env| { assert BoundAt(env, name, env[i].value, i); }
  }

  lemma {:induction false} HoldsOne(env: seq<Binding>, name: string, v: Value, w: Value)
    requires Holds(env, name, v) && Holds(env, name, w)
    ensures v == w
  {
    if i: nat :| BoundAt(env, name, v, i) {
      if j: nat :| BoundAt(env, name, w, j) {
        assert i == j;
      }
    }
  }

  lemma {:induction false} Bound(h: Heap, env: seq<Binding>, name: string, v: Value)
    ensures var env' := EnvSet(h, env, name, v).1;
      Holds(env', name, v) && SameElsewhere(env, env', name)
  {
    var i := Find(env, name);
    var env' := EnvSet(h, env, name, v).1;
    if i < |env| {
      assert BoundAt(env', name, v, i);
      forall y, w | y != name ensures Holds(env, y, w) <==> Holds(env', y, w) {
        ReboundSame(env, i, v, y, w);
      }
    } else {
      assert BoundAt(env', name, v, 0);
      forall y, w | y != name ensures Holds(env, y, w) <==> Holds(env', y, w) {
        FrontSame(env, Binding(name, v), y, w);
      }
    }
  }

  lemma {:induction false} ReboundSame(env: seq<Binding>, i: nat, v: Value, y: string, w: Value)
    requires i < |env| && env[i].name != y
    ensures Holds(env, y, w) <==> Holds(env[i := Binding(env[i].name, v)], y, w)
  {
    var env' := env[i := Binding(env[i].name, v)];
    forall j: nat ensures BoundAt(env, y, w, j) <==> BoundAt(env', y, w, j) {
      if j <= |env| { ReboundAbsent(env, i, v, y, j); }
    }
    ReboundAbsent(env, i, v, y, |env|);
  }

  lemma {:induction false} ReboundAbsent(env: seq<Binding>, i: nat, v: Value, y: string, n: nat)
    requires i < |env| && env[i].name != y && n <= |env|
    ensures Absent(env, y, n) <==> Absent(env[i := Binding(env[i].name, v)], y, n)
  {
    var env' := env[i := Binding(env[i].name, v)];
    assert forall j | 0 <= j < |env| :: env'[j].name == env[j].name;
  }

  lemma {:induction false} FrontSame(env: seq<Binding>, b: Binding, y: string, w: Value)
    requires b.name != y
    ensures Holds(env, y, w) <==> Holds([b] + env, y, w)
  {
    hide Absent;
    forall j: nat ensures BoundAt(env, y, w, j) <==> BoundAt([b] + env, y, w, j + 1) {
      if j < |env| { FrontAbsent(env, b, y, j); }
    }
    FrontAbsent(env, b, y, |env|);
    if j: nat :| BoundAt([b] + env, y, w, j) {
      assert BoundAt(env, y, w, j - 1);
    }
    if j: nat :| BoundAt(env, y, w, j) {
      assert BoundAt([b] + env, y, w, j + 1);
    }
  }

  lemma {:induction false} FrontAbsent(env: seq<Binding>, b: Binding, y: string, n: nat)
    requires b.name != y && n <= |env|
    ensures Absent(env, y, n) <==> Absent([b] + env, y, n + 1)
  {
    var env' := [b] + env;
    assert forall j | 0 <= j < |env| :: env'[j + 1] == env[j];
    if Absent(env', y, n + 1) {
      forall j | 0 <= j < n ensures env[j].name != y { assert env'[j + 1].name != y; }
    }
  }

  /** After an assignment the variable reads the value assigned, which stays on the stack, and
      every other variable reads what it read. */
  lemma {:induction false} StoreHolds(s: State, name: string)
    requires Enabled(s, Store(name))
    ensures var t := Apply(s, Store(name));
      t.temps == s.temps && Holds(t.env, name, s.temps[|s.temps| - 1]) && SameElsewhere(s.env, t.env, name)
  {
    hide Holds, SameElsewhere;
    Bound(s.heap, s.env, name, Top(s));
  }

  /** An identifier puts what its variable reads on the stack. */
  lemma {:induction false} LoadReads(s: State, name: string, v: Value)
    requires Holds(s.env, name, v)
    ensures var t := Apply(s, Load(name)); t.temps == s.temps + [v] && t.env == s.env
  {
    FindHolds(s.env, name);
    HoldsOne(s.env, name, v, EnvGet(s.env, name));
  }

  // ---------- One operation on an array ----------

  lemma {:induction false} TopLive(s: State)
    requires Valid(s) && s.temps != [] && s.temps[|s.temps| - 1].VArray?
    ensures IsLive(s.heap, s.temps[|s.temps| - 1].addr)
  {
    PeelTop(s);
    assert RefsTo(Top(s), Top(s).addr) > 0;
  }

  lemma {:induction false} ReleasedItems(h: Heap, v: Value, roots: seq<Value>, a: Addr)
    requires Good(h, [v] + roots) && IsLive(Release(h, v), a)
    ensures IsLive(h, a) && Release(h, v)[a].items == h[a].items
  {
    ReleaseExact(h, v, roots);
  }

  /** Indexing an array by an integer gives the element with that number, null when there is none. */
  lemma {:induction false} Indexing(s: State, a: Addr, k: int)
    requires Valid(s) && s.temps != [] && s.temps[|s.temps| - 1] == VArray(a)
    ensures var at := Apply(s, Literal(VInt(k)));
      && IsLive(s.heap, a) && Enabled(at, Index)
      && Apply(at, Index).temps == s.temps[..|s.temps| - 1] + [At(s.heap[a].items, k)]
      && Apply(at, Index).env == s.env
  {
    TopLive(s);
  }

  /** Anything else cannot be indexed. */
  lemma {:induction false} IndexingOther(s: State)
    requires Enabled(s, Index) && !(Below(s).VArray? && Top(s).VInt?)
    ensures Apply(s, Index).temps == s.temps[..|s.temps| - 2] + [VNull]
  {
  }

  /** Array destructuring binds a variable to the element with its number, or to null. */
  lemma {:induction false} ItemHolds(s: State, name: string, index: nat)
    requires Enabled(s, StoreItem(name, index))
    ensures var t := Apply(s, StoreItem(name, index));
      && t.temps == s.temps && SameElsewhere(s.env, t.env, name)
      && Holds(t.env, name, At(s.heap[s.temps[|s.temps| - 1].addr].items, index))
  {
    hide Holds, SameElsewhere;
    Bound(s.heap, s.env, name, ItemOrNull(s, Top(s).addr, index));
  }

  /** One element of an array literal goes behind the ones before it. */
  lemma {:induction false} AppendExtends(s: State, a: Addr)
    requires Valid(s) && |s.temps| >= 2 && s.temps[|s.temps| - 2] == VArray(a)
    ensures Enabled(s, Append)
    ensures var t := Apply(s, Append);
      && Valid(t) && t.env == s.env && t.temps == s.temps[..|s.temps| - 1] && |t.heap| == |s.heap|
      && IsLive(t.heap, a) && IsLive(s.heap, a)
      && t.heap[a].items == s.heap[a].items + [s.temps[|s.temps| - 1]] && OthersSame(s.heap, t.heap, a)
  {
    PeelTwo(s);
    assert RefsTo(Below(s), a) > 0;
    ApplyValid(s, Append);
    var t := Apply(s, Append);
    TopLive(t);
    PushGood(s.heap, a, Top(s), Roots(s));
    PushKept(s, Push(s.heap, a, Top(s)), a);
  }

  /** What is left once a changed heap has given up the top of the stack. */
  lemma {:induction false} PushKept(s: State, h: Heap, a: Addr)
    requires |s.temps| >= 1 && Good(h, Roots(s)) && |h| == |s.heap|
    requires forall b: Addr | b != a && b < |h| && IsLive(h, b) :: IsLive(s.heap, b) && h[b].items == s.heap[b].items
    ensures OthersSame(s.heap, Release(h, Top(s)), a) && |Release(h, Top(s))| == |h|
    ensures IsLive(Release(h, Top(s)), a) ==> IsLive(h, a) && Release(h, Top(s))[a].items == h[a].items
  {
    PeelTop(s);
    GoodSameRefs(h, Roots(s), [Top(s)] + Rest(s, 1));
    forall b: Addr | IsLive(Release(h, Top(s)), b)
      ensures IsLive(h, b) && Release(h, Top(s))[b].items == h[b].items
    {
      ReleasedItems(h, Top(s), Rest(s, 1), b);
    }
  }

  // ---------- Programs ----------

  /** From `s` the operations lead to `t`. */
  ghost predicate Leads(s: State, ops: seq<Op>, t: State)
    decreases |ops|
  {
    if ops == [] then s == t else Enabled(s, ops[0]) && Leads(Apply(s, ops[0]), ops[1..], t)
  }

  lemma {:induction false} LeadsOn(s: State, a: seq<Op>, u: State, b: seq<Op>, t: State)
    requires Leads(s, a, u) && Leads(u, b, t)
    ensures Leads(s, a + b, t)
    decreases |a|
  {
    hide Enabled, Apply;
    if a == [] {
      assert a + b == b;
    } else {
      assert (a + b)[1..] == a[1..] + b;
      LeadsOn(Apply(s, a[0]), a[1..], u, b, t);
    }
  }

  lemma {:induction false} LeadsNowhere(s: State)
    ensures Leads(s, [], s)
  {
  }

  lemma {:induction false} LeadsOne(s: State, op: Op)
    requires Enabled(s, op)
    ensures Leads(s, [op], Apply(s, op))
  {
    assert [op][1..] == [];
  }

  /** An operand that puts `v` on the stack: a constant or a variable. */
  ghost predicate Operand(env: seq<Binding>, op: Op, v: Value) {
    (op == Literal(v) && NoRefs(v)) || (op.Load? && Holds(env, op.name, v))
  }

  lemma {:induction false} OperandPuts(s: State, op: Op, v: Value)
    requires Valid(s) && Operand(s.env, op, v)
    ensures Enabled(s, op)
    ensures var t := Apply(s, op);
      && Valid(t) && t.env == s.env && t.temps == s.temps + [v] && |t.heap| == |s.heap|
      && forall a: Addr | a < |s.heap| ::
        t.heap[a].Live? == s.heap[a].Live? && (t.heap[a].Live? ==> t.heap[a].items == s.heap[a].items)
  {
    hide Holds, Valid, NoRefs;
    if op.Load? { LoadReads(s, op.name, v); }
    ApplyValid(s, op);
  }

  ghost predicate Operands(env: seq<Binding>, es: seq<Op>, vs: seq<Value>) {
    |es| == |vs| && forall i | 0 <= i < |es| :: Operand(env, es[i], vs[i])
  }

  function ElementOps(es: seq<Op>): seq<Op> {
    if es == [] then [] else [es[0], Append] + ElementOps(es[1..])
  }

  lemma {:induction false} TwoLead(s: State, a: Op, b: Op)
    requires Enabled(s, a) && Enabled(Apply(s, a), b)
    ensures Leads(s, [a, b], Apply(Apply(s, a), b))
  {
    LeadsOne(s, a);
    LeadsOne(Apply(s, a), b);
    hide Enabled, Apply, Leads;
    LeadsOn(s, [a], Apply(s, a), [b], Apply(Apply(s, a), b));
    assert [a] + [b] == [a, b];
  }

  lemma {:induction false} OneElement(s: State, a: Addr, e: Op, v: Value) returns (t: State)
    requires Valid(s) && s.temps != [] && s.temps[|s.temps| - 1] == VArray(a) && Operand(s.env, e, v)
    ensures Leads(s, [e, Append], t) && Valid(t)
    ensures t.temps == s.temps && t.env == s.env && IsLive(s.heap, a) && IsLive(t.heap, a)
    ensures t.heap[a].items == s.heap[a].items + [v]
  {
    hide Enabled, Apply, Valid, Holds, Operand, Leads, OthersSame;
    TopLive(s);
    OperandPuts(s, e, v);
    var u := Apply(s, e);
    AppendExtends(u, a);
    TwoLead(s, e, Append);
    t := Apply(u, Append);
    assert t.temps == s.temps;
  }

  lemma {:induction false} ElementsFill(s: State, a: Addr, es: seq<Op>, vs: seq<Value>) returns (t: State)
    requires Valid(s) && s.temps != [] && s.temps[|s.temps| - 1] == VArray(a) && Operands(s.env, es, vs)
    ensures Leads(s, ElementOps(es), t) && Valid(t)
    ensures t.temps == s.temps && t.env == s.env && IsLive(s.heap, a) && IsLive(t.heap, a)
    ensures t.heap[a].items == s.heap[a].items + vs
    decreases |es|
  {
    hide Enabled, Apply, Valid, Holds, Operand, Leads;
    TopLive(s);
    if es == [] {
      t := s;
      LeadsNowhere(s);
      assert s.heap[a].items + vs == s.heap[a].items;
    } else {
      assert Operand(s.env, es[0], vs[0]);
      var w := OneElement(s, a, es[0], vs[0]);
      t := ElementsFill(w, a, es[1..], vs[1..]);
      LeadsOn(s, [es[0], Append], w, ElementOps(es[1..]), t);
      assert (s.heap[a].items + [vs[0]]) + vs[1..] == s.heap[a].items + vs;
    }
  }

  /** The operations of an array literal. */
  function ArrayOps(es: seq<Op>): seq<Op> {
    [BeginArray(|es|)] + ElementOps(es)
  }

  /** An array literal of any operands puts an array of their values on the stack, in order. */
  lemma {:induction false} LiteralHolds(s: State, es: seq<Op>, vs: seq<Value>) returns (t: State)
    requires Valid(s) && Operands(s.env, es, vs)
    ensures Leads(s, ArrayOps(es), t) && Valid(t) && t.env == s.env
    ensures t.temps == s.temps + [VArray(|s.heap|)] && IsLive(t.heap, |s.heap|) && t.heap[|s.heap|].items == vs
  {
    var begin := BeginArray(|es|);
    ApplyValid(s, begin);
    var u := Apply(s, begin);
    LeadsOne(s, begin);
    assert u.heap[|s.heap|].items == [];
    hide Apply, Enabled, Valid, Operands;
    t := ElementsFill(u, |s.heap|, es, vs);
    LeadsOn(s, [begin], u, ElementOps(es), t);
    assert [] + vs == vs;
  }

  lemma {:induction false} IndexedLeads(s: State, ops: seq<Op>, t: State, a: Addr, k: int) returns (r: State)
    requires Leads(s, ops, t) && Valid(t) && t.temps != [] && t.temps[|t.temps| - 1] == VArray(a)
    ensures Leads(s, ops + [Literal(VInt(k)), Index], r) && IsLive(t.heap, a)
    ensures r.temps == t.temps[..|t.temps| - 1] + [At(t.heap[a].items, k)] && r.env == t.env
  {
    Indexing(t, a, k);
    assert NoRefs(VInt(k));
    TwoLead(t, Literal(VInt(k)), Index);
    hide Apply, Enabled, Leads;
    r := Apply(Apply(t, Literal(VInt(k))), Index);
    LeadsOn(s, ops, t, [Literal(VInt(k)), Index], r);
  }

  /** Indexing an array literal by `k` gives the value of its operand number `k`, and null for any
      other number. */
  lemma {:induction false} LiteralReadsBack(s: State, es: seq<Op>, vs: seq<Value>, k: int) returns (r: State)
    requires Valid(s) && Operands(s.env, es, vs)
    ensures Leads(s, ArrayOps(es) + [Literal(VInt(k)), Index], r)
    ensures r.temps == s.temps + [At(vs, k)] && r.env == s.env
  {
    hide Leads, Valid, Operands;
    var t := LiteralHolds(s, es, vs);
    r := IndexedLeads(s, ArrayOps(es), t, |s.heap|, k);
    assert t.temps[..|t.temps| - 1] == s.temps;
  }

  // ---------- Pushing and popping ----------

  lemma {:induction false} VariableLive(s: State, name: string, a: Addr)
    requires Valid(s) && Holds(s.env, name, VArray(a))
    ensures IsLive(s.heap, a)
  {
    var i: nat :| BoundAt(s.env, name, VArray(a), i);
    assert Roots(s)[i] == VArray(a);
    RootLive(s.heap, Roots(s), i);
    assert RefsTo(VArray(a), a) > 0;
  }

  /** `arr.push(v)`: an array that is still there afterwards has the value behind its items. */
  lemma {:induction false} PushExtends(s: State, a: Addr)
    requires Valid(s) && |s.temps| >= 2 && s.temps[|s.temps| - 2] == VArray(a)
    ensures Enabled(s, PushCall) && IsLive(s.heap, a)
    ensures var t := Apply(s, PushCall);
      && Valid(t) && t.env == s.env && t.temps == s.temps[..|s.temps| - 2] + [VNull] && |t.heap| == |s.heap|
      && (IsLive(t.heap, a) ==> t.heap[a].items == s.heap[a].items + [s.temps[|s.temps| - 1]])
      && OthersSame(s.heap, t.heap, a)
  {
    PeelTwo(s);
    assert RefsTo(Below(s), a) > 0;
    ApplyValid(s, PushCall);
    PushGood(s.heap, a, Top(s), Roots(s));
    var h1 := Push(s.heap, a, Top(s));
    PushKept(s, h1, a);
    GoodSameRefs(h1, Roots(s), [Top(s)] + ([Below(s)] + Rest(s, 2)));
    ReleaseGood(h1, Top(s), [Below(s)] + Rest(s, 2));
    ReleaseExact(Release(h1, Top(s)), Below(s), Rest(s, 2));
  }

  /** `arr.pop()` gives the last item, or null, and takes it off an array that is still there. */
  lemma {:induction false} PopTakesLast(s: State, a: Addr)
    requires Valid(s) && s.temps != [] && s.temps[|s.temps| - 1] == VArray(a)
    ensures Enabled(s, PopCall) && IsLive(s.heap, a)
    ensures var t, items := Apply(s, PopCall), s.heap[a].items;
      && t.env == s.env && t.temps == s.temps[..|s.temps| - 1] + [At(items, |items| - 1)]
      && (IsLive(t.heap, a) ==> t.heap[a].items == if items == [] then [] else items[..|items| - 1])
  {
    TopLive(s);
    if s.heap[a].items != [] { PopMoves(s.heap, a, Roots(s)); }
    PopGood(s.heap, a, Roots(s));
    var (h1, v) := Pop(s.heap, a);
    UnderTop(h1, s, v);
    ReleaseExact(h1, Top(s), [v] + Rest(s, 1));
  }

  /** `name.push(e);` for each operand. */
  function PushOps(name: string, es: seq<Op>): seq<Op> {
    if es == [] then [] else [Load(name), es[0], PushCall, Discard] + PushOps(name, es[1..])
  }

  lemma {:induction false} FourLead(s: State, a: Op, b: Op, c: Op, d: Op)
    requires Enabled(s, a) && Enabled(Apply(s, a), b)
    requires Enabled(Apply(Apply(s, a), b), c) && Enabled(Apply(Apply(Apply(s, a), b), c), d)
    ensures Leads(s, [a, b, c, d], Apply(Apply(Apply(Apply(s, a), b), c), d))
  {
    hide Enabled, Apply;
    TwoLead(s, a, b);
    TwoLead(Apply(Apply(s, a), b), c, d);
    LeadsOn(s, [a, b], Apply(Apply(s, a), b), [c, d], Apply(Apply(Apply(Apply(s, a), b), c), d));
    assert [a, b] + [c, d] == [a, b, c, d];
  }

  lemma {:induction false} DiscardNull(s: State)
    requires Valid(s) && s.temps != [] && s.temps[|s.temps| - 1] == VNull
    ensures Enabled(s, Discard) && Apply(s, Discard) == s.(temps := s.temps[..|s.temps| - 1])
    ensures Valid(Apply(s, Discard))
  {
    ApplyValid(s, Discard);
  }

  lemma {:induction false} OnePush(s: State, name: string, a: Addr, e: Op, v: Value) returns (t: State)
    requires Valid(s) && Holds(s.env, name, VArray(a)) && Operand(s.env, e, v)
    ensures Leads(s, [Load(name), e, PushCall, Discard], t) && Valid(t)
    ensures t.temps == s.temps && t.env == s.env && IsLive(s.heap, a) && IsLive(t.heap, a)
    ensures t.heap[a].items == s.heap[a].items + [v]
  {
    hide Apply, Enabled, Valid, Holds, NoRefs, Leads;
    VariableLive(s, name, a);
    OperandPuts(s, Load(name), VArray(a));
    var s1 := Apply(s, Load(name));
    OperandPuts(s1, e, v);
    var s2 := Apply(s1, e);
    assert s2.temps == s.temps + [VArray(a), v];
    PushExtends(s2, a);
    var s3 := Apply(s2, PushCall);
    DiscardNull(s3);
    t := Apply(s3, Discard);
    FourLead(s, Load(name), e, PushCall, Discard);
    VariableLive(t, name, a);
    assert s2.temps[..|s2.temps| - 2] == s.temps;
    assert t.temps == s.temps;
  }

  /** Pushing operands one after the other onto the array of a variable puts their values behind
      its items, in order. */
  lemma {:induction false} PushesHold(s: State, name: string, a: Addr, es: seq<Op>, vs: seq<Value>) returns (t: State)
    requires Valid(s) && Holds(s.env, name, VArray(a)) && Operands(s.env, es, vs)
    ensures Leads(s, PushOps(name, es), t) && Valid(t) && t.temps == s.temps && t.env == s.env
    ensures IsLive(s.heap, a) && IsLive(t.heap, a) && t.heap[a].items == s.heap[a].items + vs
    decreases |es|
  {
    hide Apply, Enabled, Valid, Holds, Operand, Leads;
    VariableLive(s, name, a);
    if es == [] {
      t := s;
      LeadsNowhere(s);
      assert s.heap[a].items + vs == s.heap[a].items;
    } else {
      assert Operand(s.env, es[0], vs[0]);
      var u := OnePush(s, name, a, es[0], vs[0]);
      t := PushesHold(u, name, a, es[1..], vs[1..]);
      LeadsOn(s, [Load(name), es[0], PushCall, Discard], u, PushOps(name, es[1..]), t);
      assert (s.heap[a].items + [vs[0]]) + vs[1..] == s.heap[a].items + vs;
    }
  }

  /** After those pushes `name[k]` gives the item that was there, then the values pushed. */
  lemma {:induction false} PushesReadBack(s: State, name: string, a: Addr, es: seq<Op>, vs: seq<Value>, k: int)
    returns (r: State)
    requires Valid(s) && Holds(s.env, name, VArray(a)) && Operands(s.env, es, vs)
    ensures Leads(s, PushOps(name, es) + [Load(name)] + [Literal(VInt(k)), Index], r) && IsLive(s.heap, a)
    ensures r.temps == s.temps + [At(s.heap[a].items + vs, k)]
  {
    hide Leads, Valid, Operands, Holds, Enabled, Apply, NoRefs;
    var t := PushesHold(s, name, a, es, vs);
    OperandPuts(t, Load(name), VArray(a));
    var u := Apply(t, Load(name));
    LeadsOne(t, Load(name));
    LeadsOn(s, PushOps(name, es), t, [Load(name)], u);
    r := IndexedLeads(s, PushOps(name, es) + [Load(name)], u, a, k);
    assert u.temps[..|u.temps| - 1] == s.temps;
  }

  // ---------- Spread and rest ----------

  lemma {:induction false} SpreadPushes(s: State, a: Addr, b: Addr)
    requires Valid(s) && IsLive(s.heap, a) && IsLive(s.heap, b)
    ensures var h := PushAll(s.heap, a, s.heap[b].items);
      Good(h, Roots(s)) && IsLive(h, a) && h[a].items == s.heap[a].items + s.heap[b].items
  {
    var items := s.heap[b].items;
    forall i | 0 <= i < |items| ensures RefsLive(s.heap, items[i]) { ItemLive(s.heap, Roots(s), b, i); }
    PushAllGood(s.heap, a, items, Roots(s));
  }

  /** A spread element puts all items of its array behind the ones before it. */
  lemma {:induction false} SpreadExtends(s: State, a: Addr, b: Addr)
    requires Valid(s) && |s.temps| >= 2 && s.temps[|s.temps| - 2] == VArray(a) && s.temps[|s.temps| - 1] == VArray(b)
    requires a != b
    ensures Enabled(s, Spread) && IsLive(s.heap, a) && IsLive(s.heap, b)
    ensures var t := Apply(s, Spread);
      && t.env == s.env && t.temps == s.temps[..|s.temps| - 1]
      && IsLive(t.heap, a) && t.heap[a].items == s.heap[a].items + s.heap[b].items
  {
    hide Valid, Good, PushAll, Release, RefsTo, SameRefs;
    TopLive(s);
    BelowLive(s, a);
    SpreadValid(s);
    TopLive(Apply(s, Spread));
    SpreadPushes(s, a, b);
    var h := PushAll(s.heap, a, s.heap[b].items);
    PeelTop(s.(heap := h));
    GoodSameRefs(h, Roots(s), [Top(s)] + Rest(s, 1));
    ReleasedItems(h, Top(s), Rest(s, 1), a);
  }

  lemma {:induction false} BelowLive(s: State, a: Addr)
    requires Valid(s) && |s.temps| >= 2 && s.temps[|s.temps| - 2] == VArray(a)
    ensures IsLive(s.heap, a)
  {
    PeelTwo(s);
    assert RefsTo(Below(s), a) > 0;
  }

  /** The rest of a pattern is a new array of the items from its place on; none of them when the
      array is too short. */
  lemma {:induction false} RestHolds(s: State, name: string, index: nat)
    requires Valid(s) && Enabled(s, StoreRest(name, index))
    ensures var t, b := Apply(s, StoreRest(name, index)), |s.heap|;
      var items := s.heap[s.temps[|s.temps| - 1].addr].items;
      && t.temps == s.temps && Holds(t.env, name, VArray(b)) && SameElsewhere(s.env, t.env, name)
      && IsLive(t.heap, b) && t.heap[b].items == if index <= |items| then items[index..] else []
  {
    var rest, h := VArray(|s.heap|), RestArray(s, index);
    var t := Apply(s, StoreRest(name, index));
    Bound(h, s.env, name, rest);
    StoreRestValid(s, name, index);
    VariableLive(t, name, |s.heap|);
    RestContents(s, index);
    RestArrayGood(s, index);
    EnvSetGood(h, s.env, name, rest, s.temps + [rest]);
    var (h2, env2) := EnvSet(h, s.env, name, rest);
    LastRootFirst(h2, env2, s.temps, rest);
    ReleasedItems(h2, rest, Values(env2) + s.temps, |s.heap|);
    EnvSetItems(h, s.env, name, rest, s.temps + [rest], |s.heap|);
  }

  lemma {:induction false} EnvSetItems(h: Heap, env: seq<Binding>, name: string, v: Value, rest: seq<Value>, a: Addr)
    requires Good(h, Values(env) + rest) && RefsLive(h, v) && IsLive(EnvSet(h, env, name, v).0, a)
    ensures IsLive(h, a) && EnvSet(h, env, name, v).0[a].items == h[a].items
  {
    var i := Find(env, name);
    CloneGood(h, v, Values(env) + rest);
    if i < |env| {
      var env' := env[i := Binding(name, v)];
      assert Values(env') == Values(env)[i := v];
      forall b: Addr
        ensures RefsToAll([v] + (Values(env) + rest), b) == RefsToAll([env[i].value] + (Values(env') + rest), b)
      {
        RefsToAllCons(v, Values(env) + rest, b);
        RefsToAllCons(env[i].value, Values(env') + rest, b);
        RefsToAllConcat(Values(env), rest, b);
        RefsToAllConcat(Values(env'), rest, b);
        RefsToAllUpdate(Values(env), i, v, b);
      }
      GoodSameRefs(Clone(h, v), [v] + (Values(env) + rest), [env[i].value] + (Values(env') + rest));
      ReleasedItems(Clone(h, v), env[i].value, Values(env') + rest, a);
    }
  }

  lemma {:induction false} RestContents(s: State, index: nat)
    requires Valid(s) && Enabled(s, StoreRest("", index))
    ensures var h, b := RestArray(s, index), |s.heap|;
      var items := s.heap[s.temps[|s.temps| - 1].addr].items;
      IsLive(h, b) && h[b].items == if index <= |items| then items[index..] else []
  {
    var a := Top(s).addr;
    var items := RestItems(s, a, index);
    var h0 := Create(s.heap, RestCapacity(|s.heap[a].items|, index));
    CreateGood(s.heap, RestCapacity(|s.heap[a].items|, index), Roots(s));
    forall i | 0 <= i < |items| ensures RefsLive(h0, items[i]) {
      ItemLive(s.heap, Roots(s), a, index + i);
      assert items[i] == s.heap[a].items[index + i];
    }
    PushAllGood(h0, |s.heap|, items, [VArray(|s.heap|)] + Roots(s));
    assert [] + items == items;
  }

  // ---------- Fields ----------

  /** What reading field `name` of a struct gives: the first field with that name. */
  ghost predicate FieldHolds(v: Value, name: string, x: Value) {
    v.VStruct? && exists i :: FieldAt(v, name, x, i)
  }

  ghost predicate FieldAt(v: Value, name: string, x: Value, i: nat)
    requires v.VStruct?
  {
    && i < |v.names| && i < |v.fields| && v.names[i] == name && v.fields[i] == x
    && forall j | 0 <= j < i :: v.names[j] != name
  }

  lemma {:induction false} FieldFound(v: Value, name: string, x: Value)
    requires FieldHolds(v, name, x)
    ensures HasField(v, name) && GetField(v, name) == x
  {
  }

  /** `obj.name` gives that field. */
  lemma {:induction false} MemberReads(s: State, name: string, x: Value)
    requires s.temps != [] && FieldHolds(s.temps[|s.temps| - 1], name, x)
    ensures Enabled(s, Member(name))
    ensures Apply(s, Member(name)).temps == s.temps[..|s.temps| - 1] + [x] && Apply(s, Member(name)).env == s.env
  {
    FieldFound(Top(s), name, x);
  }

  /** `arr.length` counts the items. */
  lemma {:induction false} LengthReads(s: State, a: Addr)
    requires Valid(s) && s.temps != [] && s.temps[|s.temps| - 1] == VArray(a)
    ensures IsLive(s.heap, a) && Enabled(s, Member("length"))
    ensures Apply(s, Member("length")).temps == s.temps[..|s.temps| - 1] + [VInt(|s.heap[a].items|)]
  {
    TopLive(s);
  }

  /** A field added to a struct literal can be read, and the ones before it too unless it has
      their name. */
  lemma {:induction false} FieldAdded(s: State, name: string)
    requires |s.temps| >= 2 && s.temps[|s.temps| - 2].VStruct?
    ensures Enabled(s, AddField(name))
    ensures var t := Apply(s, AddField(name));
      var was, now := s.temps[|s.temps| - 2], t.temps[|t.temps| - 1];
      && t.temps == s.temps[..|s.temps| - 2] + [now] && t.env == s.env
      && FieldHolds(now, name, s.temps[|s.temps| - 1])
      && forall y, x | y != name && FieldHolds(was, y, x) :: FieldHolds(now, y, x)
  {
    var t := Apply(s, AddField(name));
    var was, now := s.temps[|s.temps| - 2], t.temps[|t.temps| - 1];
    assert FieldAt(now, name, s.temps[|s.temps| - 1], 0);
    forall y, x | y != name && FieldHolds(was, y, x) ensures FieldHolds(now, y, x) {
      var i: nat :| FieldAt(was, y, x, i);
      forall j | 0 <= j < i + 1 ensures now.names[j] != y { if j > 0 { assert now.names[j] == was.names[j - 1]; } }
      assert FieldAt(now, y, x, i + 1);
    }
  }

  /** Assigning a field of a variable's struct: the field then reads the value assigned, which
      stays on the stack, and its other fields read what they read. */
  lemma {:induction false} FieldAssigned(s: State, variable: string, name: string, was: Value, x: Value)
    requires s.temps != []
    requires Holds(s.env, variable, was) && FieldHolds(was, name, x)
    ensures Enabled(s, SetField(variable, name))
    ensures var t := Apply(s, SetField(variable, name));
      var now := PutField(was, name, s.temps[|s.temps| - 1]);
      && HasField(was, name) && t.temps == s.temps && Holds(t.env, variable, now)
      && FieldHolds(now, name, s.temps[|s.temps| - 1])
      && forall y, z | y != name && FieldHolds(was, y, z) :: FieldHolds(now, y, z)
  {
    FieldFound(was, name, x);
    FindHolds(s.env, variable);
    HoldsOne(s.env, variable, was, EnvGet(s.env, variable));
    var i := Find(s.env, variable);
    var t := Apply(s, SetField(variable, name));
    var k := FindName(was.names, name);
    var now := PutField(was, name, Top(s));
    assert BoundAt(t.env, variable, now, i);
    assert FieldAt(now, name, Top(s), k);
    forall y, z | y != name && FieldHolds(was, y, z) ensures FieldHolds(now, y, z) {
      var j: nat :| FieldAt(was, y, z, j);
      assert FieldAt(now, y, z, j);
    }
  }
}
