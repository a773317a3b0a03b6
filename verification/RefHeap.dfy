/** The interpreter's reference-counted array heap (src/core/interpreter.c). */
module RefHeap {
  // What cloning and releasing a value does to the counts, and which arrays the release cascade
  // frees. Addresses index the heap; freed addresses are not reused.

  type Addr = nat

  /** Struct instances are copied field by field whenever a value is cloned, so a struct
      value has one owner and is a tree; arrays are shared through their address. */
  datatype Value =
    | VNull
    | VBool(b: bool)
    | VInt(i: int)
    | VFloat(r: real)
    | VString(s: string)
    | VFunction(node: nat)
    | VArray(addr: Addr)
    | VStruct(name: string, names: seq<string>, fields: seq<Value>)

  datatype Slot = Freed | Live(refcount: nat, items: seq<Value>, capacity: nat)

  type Heap = seq<Slot>

  // ---------- Counting references ----------

  /** How often a value refers to array `a`, through its struct fields too. */
  function RefsTo(v: Value, a: Addr): nat
    decreases v
  {
    match v
    case VArray(b) => if a == b then 1 else 0
    case VStruct(_, _, fields) => RefsToAll(fields, a)
    case _ => 0
  }

  function RefsToAll(vs: seq<Value>, a: Addr): nat
    decreases vs
  {
    if vs == [] then 0 else RefsTo(vs[0], a) + RefsToAll(vs[1..], a)
  }

  function SlotRefsTo(s: Slot, a: Addr): nat {
    if s.Live? then RefsToAll(s.items, a) else 0
  }

  function HeapRefsTo(h: Heap, a: Addr): nat {
    if h == [] then 0 else HeapRefsTo(h[..|h| - 1], a) + SlotRefsTo(h[|h| - 1], a)
  }

  predicate IsLive(h: Heap, a: Addr) {
    a < |h| && h[a].Live?
  }

  function Count(h: Heap, a: Addr): nat {
    if IsLive(h, a) then h[a].refcount else 0
  }

  ghost predicate ExactAt(h: Heap, roots: seq<Value>, a: Addr) {
    RefsToAll(roots, a) + HeapRefsTo(h, a) == Count(h, a)
  }

  /** Each live array's count is the number of references to it, from the values held outside
      the heap (`roots`) and from live arrays; so nothing refers to a freed array. */
  ghost predicate Exact(h: Heap, roots: seq<Value>) {
    forall a: Addr :: ExactAt(h, roots, a)
  }

  ghost predicate Positive(h: Heap) {
    forall a: Addr | IsLive(h, a) :: h[a].refcount > 0
  }

  ghost predicate Sound(h: Heap, roots: seq<Value>) {
    Exact(h, roots) && Positive(h)
  }

  lemma {:induction false} RefsToAllConcat(s: seq<Value>, t: seq<Value>, a: Addr)
    ensures RefsToAll(s + t, a) == RefsToAll(s, a) + RefsToAll(t, a)
  {
    if s == [] {
      assert s + t == t;
    } else {
      assert (s + t)[1..] == s[1..] + t;
      RefsToAllConcat(s[1..], t, a);
    }
  }

  lemma {:induction false} RefsToAllSplit(s: seq<Value>, i: nat, a: Addr)
    requires i < |s|
    ensures RefsToAll(s, a) == RefsToAll(s[..i], a) + RefsTo(s[i], a) + RefsToAll(s[i + 1..], a)
  {
    assert s == s[..i] + s[i..] && s[i..][1..] == s[i + 1..];
    RefsToAllConcat(s[..i], s[i..], a);
  }

  lemma {:induction false} RefsToAllUpdate(s: seq<Value>, i: nat, v: Value, a: Addr)
    requires i < |s|
    ensures RefsToAll(s[i := v], a) + RefsTo(s[i], a) == RefsToAll(s, a) + RefsTo(v, a)
  {
    RefsToAllSplit(s, i, a);
    RefsToAllSplit(s[i := v], i, a);
    assert s[i := v][..i] == s[..i] && s[i := v][i + 1..] == s[i + 1..];
  }

  lemma {:induction false} RefsToAllSnoc(s: seq<Value>, v: Value, a: Addr)
    ensures RefsToAll(s + [v], a) == RefsToAll(s, a) + RefsTo(v, a)
  {
    RefsToAllConcat(s, [v], a);
    assert [v][1..] == [];
  }

  lemma {:induction false} RefsToAllCons(v: Value, s: seq<Value>, a: Addr)
    ensures RefsToAll([v] + s, a) == RefsTo(v, a) + RefsToAll(s, a)
  {
    assert ([v] + s)[1..] == s;
  }

  lemma {:induction false} RefsToNulls(s: seq<Value>, a: Addr)
    requires forall i | 0 <= i < |s| :: s[i] == VNull
    ensures RefsToAll(s, a) == 0
  {
    if s != [] {
      RefsToNulls(s[1..], a);
    }
  }

  lemma {:induction false} HeapRefsUpdate(h: Heap, i: Addr, s: Slot, a: Addr)
    requires i < |h|
    ensures HeapRefsTo(h[i := s], a) + SlotRefsTo(h[i], a) == HeapRefsTo(h, a) + SlotRefsTo(s, a)
    decreases |h|
  {
    var n := |h| - 1;
    if i == n {
      assert h[i := s][..n] == h[..n];
    } else {
      assert h[i := s][..n] == h[..n][i := s];
      HeapRefsUpdate(h[..n], i, s, a);
    }
  }

  lemma {:induction false} SlotRefsInHeap(h: Heap, i: Addr, a: Addr)
    requires i < |h|
    ensures SlotRefsTo(h[i], a) <= HeapRefsTo(h, a)
    decreases |h|
  {
    if i < |h| - 1 {
      SlotRefsInHeap(h[..|h| - 1], i, a);
    }
  }

  lemma {:induction false} HeapRefsHasHolder(h: Heap, a: Addr) returns (b: Addr)
    requires HeapRefsTo(h, a) > 0
    ensures IsLive(h, b) && SlotRefsTo(h[b], a) > 0
  {
    if SlotRefsTo(h[|h| - 1], a) > 0 {
      b := |h| - 1;
    } else {
      b := HeapRefsHasHolder(h[..|h| - 1], a);
    }
  }

  /** `h2` differs from `h1` in counts alone. */
  ghost predicate SameShape(h1: Heap, h2: Heap) {
    && |h1| == |h2|
    && forall a: Addr | a < |h1| ::
      && h1[a].Live? == h2[a].Live?
      && (h1[a].Live? ==> h1[a].items == h2[a].items && h1[a].capacity == h2[a].capacity)
  }

  lemma {:induction false} SameShapeRefs(h1: Heap, h2: Heap, a: Addr)
    requires SameShape(h1, h2)
    ensures HeapRefsTo(h1, a) == HeapRefsTo(h2, a)
    decreases |h1|
  {
    if h1 != [] {
      var n := |h1| - 1;
      assert forall b: Addr | b < n :: h1[..n][b] == h1[b] && h2[..n][b] == h2[b];
      SameShapeRefs(h1[..n], h2[..n], a);
    }
  }

  lemma {:induction false} SameCountsSameHeap(h1: Heap, h2: Heap)
    requires SameShape(h1, h2) && forall a: Addr :: Count(h1, a) == Count(h2, a)
    ensures h1 == h2
  {
    forall a: Addr | a < |h1|
      ensures h1[a] == h2[a]
    {
      assert Count(h1, a) == Count(h2, a);
    }
  }

  // ---------- Cloning ----------

  ghost predicate RefsLive(h: Heap, v: Value) {
    forall a: Addr | RefsTo(v, a) > 0 :: IsLive(h, a)
  }

  ghost predicate AllRefsLive(h: Heap, vs: seq<Value>) {
    forall a: Addr | RefsToAll(vs, a) > 0 :: IsLive(h, a)
  }

  /** The heap after value_clone; the clone itself is equal to `v`. */
  function Clone(h: Heap, v: Value): (h': Heap)
    ensures SameShape(h, h')
    decreases v
  {
    match v
    case VArray(a) =>
      if IsLive(h, a) then h[a := h[a].(refcount := h[a].refcount + 1)] else h
    case VStruct(_, _, fields) => CloneAll(h, fields)
    case _ => h
  }

  function CloneAll(h: Heap, vs: seq<Value>): (h': Heap)
    ensures SameShape(h, h')
    decreases vs
  {
    if vs == [] then h else CloneAll(Clone(h, vs[0]), vs[1..])
  }

  lemma {:induction false} CloneCounts(h: Heap, v: Value)
    requires RefsLive(h, v)
    ensures forall a: Addr :: Count(Clone(h, v), a) == Count(h, a) + RefsTo(v, a)
    decreases v
  {
    match v
    case VArray(a) => assert RefsTo(v, a) > 0;
    case VStruct(_, _, fields) =>
      assert forall a: Addr :: RefsTo(v, a) == RefsToAll(fields, a);
      CloneAllCounts(h, fields);
    case _ =>
  }

  lemma {:induction false} CloneAllCounts(h: Heap, vs: seq<Value>)
    requires AllRefsLive(h, vs)
    ensures forall a: Addr :: Count(CloneAll(h, vs), a) == Count(h, a) + RefsToAll(vs, a)
    decreases vs
  {
    if vs != [] {
      assert forall a: Addr :: RefsToAll(vs, a) == RefsTo(vs[0], a) + RefsToAll(vs[1..], a);
      CloneCounts(h, vs[0]);
      CloneAllCounts(Clone(h, vs[0]), vs[1..]);
    }
  }

  /** A clone is one more owner of everything the value refers to. */
  lemma {:induction false} CloneKeepsSound(h: Heap, v: Value, roots: seq<Value>)
    requires Sound(h, roots) && RefsLive(h, v)
    ensures Sound(Clone(h, v), [v] + roots)
  {
    CloneCounts(h, v);
    forall a: Addr
      ensures ExactAt(Clone(h, v), [v] + roots, a)
    {
      SameShapeRefs(h, Clone(h, v), a);
      assert ExactAt(h, roots, a);
      RefsToAllCons(v, roots, a);
    }
    forall a: Addr | IsLive(Clone(h, v), a)
      ensures Clone(h, v)[a].refcount > 0
    {
      assert Count(Clone(h, v), a) >= Count(h, a) > 0;
    }
  }

  // ---------- Releasing ----------

  /** The number of arrays that somebody still holds: the cascade's termination measure. */
  function Held(h: Heap): nat {
    if h == [] then 0
    else Held(h[..|h| - 1]) + (if h[|h| - 1].Live? && h[|h| - 1].refcount > 0 then 1 else 0)
  }

  lemma {:induction false} HeldUpdate(h: Heap, a: Addr, s: Slot)
    requires a < |h|
    ensures Held(h[a := s]) + (if h[a].Live? && h[a].refcount > 0 then 1 else 0)
         == Held(h) + (if s.Live? && s.refcount > 0 then 1 else 0)
    decreases |h|
  {
    var n := |h| - 1;
    if a == n {
      assert h[a := s][..n] == h[..n];
    } else {
      assert h[a := s][..n] == h[..n][a := s];
      HeldUpdate(h[..n], a, s);
    }
  }

  /** Releasing never lengthens an array or brings one back. */
  ghost predicate Shrinks(h: Heap, h': Heap) {
    && |h'| == |h| && Held(h') <= Held(h)
    && forall a: Addr | IsLive(h', a) :: IsLive(h, a) && |h'[a].items| == |h[a].items|
  }

  function Drop(h: Heap, a: Addr): Heap
    requires IsLive(h, a) && h[a].refcount > 0
  {
    h[a := h[a].(refcount := h[a].refcount - 1)]
  }

  /** The heap after value_release. An array whose last reference goes away has its items
      released in order, each slot being emptied, and is then freed. A count is never zero
      before it is decremented in a heap whose counts are exact. */
  function Release(h: Heap, v: Value): (h': Heap)
    ensures Shrinks(h, h')
    decreases Held(h), 0, v
  {
    match v
    case VArray(a) =>
      if !IsLive(h, a) || h[a].refcount == 0 then h
      else
        var h1 := Drop(h, a);
        HeldUpdate(h, a, h1[a]);
        if h1[a].refcount > 0 then h1
        else
          var h2 := ReleaseItems(h1, a, 0);
          HeldUpdate(h2, a, Freed);
          h2[a := Freed]
    case VStruct(_, _, fields) => ReleaseAll(h, fields)
    case _ => h
  }

  function ReleaseAll(h: Heap, vs: seq<Value>): (h': Heap)
    ensures Shrinks(h, h')
    decreases Held(h), 0, vs
  {
    if vs == [] then h else ReleaseAll(Release(h, vs[0]), vs[1..])
  }

  function TakeItem(h: Heap, a: Addr, i: nat): Heap
    requires IsLive(h, a) && i < |h[a].items|
  {
    h[a := h[a].(items := h[a].items[i := VNull])]
  }

  function ReleaseItems(h: Heap, a: Addr, i: nat): (h': Heap)
    requires a < |h|
    ensures Shrinks(h, h')
    decreases Held(h), 1, if IsLive(h, a) then |h[a].items| - i else 0
  {
    if !IsLive(h, a) || i >= |h[a].items| then h
    else
      HeldUpdate(h, a, TakeItem(h, a, i)[a]);
      ReleaseItems(Release(TakeItem(h, a, i), h[a].items[i]), a, i + 1)
  }

  /** No count is raised and no buffer changes its size. */
  ghost predicate Lowers(h: Heap, h': Heap) {
    && |h'| == |h|
    && forall a: Addr | IsLive(h', a) ::
      IsLive(h, a) && h'[a].capacity == h[a].capacity && h'[a].refcount <= h[a].refcount
  }

  lemma {:induction false} ReleaseLowers(h: Heap, v: Value)
    ensures Lowers(h, Release(h, v))
    decreases Held(h), 0, v
  {
    match v
    case VArray(a) =>
      if IsLive(h, a) && h[a].refcount > 0 {
        HeldUpdate(h, a, Drop(h, a)[a]);
        if h[a].refcount == 1 { ReleaseItemsLowers(Drop(h, a), a, 0); }
      }
    case VStruct(_, _, fields) => ReleaseAllLowers(h, fields);
    case _ =>
  }

  lemma {:induction false} ReleaseAllLowers(h: Heap, vs: seq<Value>)
    ensures Lowers(h, ReleaseAll(h, vs))
    decreases Held(h), 0, vs
  {
    if vs != [] {
      ReleaseLowers(h, vs[0]);
      ReleaseAllLowers(Release(h, vs[0]), vs[1..]);
    }
  }

  lemma {:induction false} ReleaseItemsLowers(h: Heap, a: Addr, i: nat)
    requires a < |h|
    ensures Lowers(h, ReleaseItems(h, a, i))
    decreases Held(h), 1, if IsLive(h, a) then |h[a].items| - i else 0
  {
    if IsLive(h, a) && i < |h[a].items| {
      var h1 := TakeItem(h, a, i);
      HeldUpdate(h, a, h1[a]);
      ReleaseLowers(h1, h[a].items[i]);
      ReleaseItemsLowers(Release(h1, h[a].items[i]), a, i + 1);
    }
  }

  /** What a release may do to a heap: arrays at count zero, which are being torn down, are
      left alone; an array that stays in use keeps its contents; no array is left behind
      with nobody holding it. */
  ghost predicate ReleaseFrame(h: Heap, h': Heap) {
    && |h'| == |h|
    && (forall b: Addr | IsLive(h, b) && h[b].refcount == 0 :: h'[b] == h[b])
    && forall b: Addr | IsLive(h', b) ::
      && IsLive(h, b)
      && h'[b].items == h[b].items && h'[b].capacity == h[b].capacity
      && (h'[b].refcount == 0 ==> h[b].refcount == 0)
  }

  lemma {:induction false} DropExact(h: Heap, a: Addr, roots: seq<Value>)
    requires Exact(h, [VArray(a)] + roots)
    ensures IsLive(h, a) && h[a].refcount > 0
    ensures Exact(Drop(h, a), roots) && Held(Drop(h, a)) <= Held(h)
    ensures Drop(h, a)[a].refcount == 0 ==> Held(Drop(h, a)) < Held(h)
  {
    RefsToAllCons(VArray(a), roots, a);
    assert ExactAt(h, [VArray(a)] + roots, a);
    var h1 := Drop(h, a);
    HeldUpdate(h, a, h1[a]);
    forall b: Addr
      ensures ExactAt(h1, roots, b)
    {
      SameShapeRefs(h, h1, b);
      RefsToAllCons(VArray(a), roots, b);
      assert ExactAt(h, [VArray(a)] + roots, b);
    }
  }

  /** Freeing an array that is empty and unreferenced leaves every other count right. */
  lemma {:induction false} FreeExact(h: Heap, a: Addr, roots: seq<Value>)
    requires IsLive(h, a) && h[a].refcount == 0 && Exact(h, roots)
    requires forall j | 0 <= j < |h[a].items| :: h[a].items[j] == VNull
    ensures Exact(h[a := Freed], roots)
  {
    var h' := h[a := Freed];
    forall b: Addr
      ensures ExactAt(h', roots, b)
    {
      RefsToNulls(h[a].items, b);
      HeapRefsUpdate(h, a, Freed, b);
      assert ExactAt(h, roots, b);
    }
  }

  lemma {:induction false} TakeItemExact(h: Heap, a: Addr, i: nat, roots: seq<Value>)
    requires IsLive(h, a) && i < |h[a].items| && Exact(h, roots)
    ensures Exact(TakeItem(h, a, i), [h[a].items[i]] + roots)
    ensures Held(TakeItem(h, a, i)) == Held(h)
  {
    var v, h1 := h[a].items[i], TakeItem(h, a, i);
    HeldUpdate(h, a, h1[a]);
    forall b: Addr
      ensures ExactAt(h1, [v] + roots, b)
    {
      HeapRefsUpdate(h, a, h1[a], b);
      RefsToAllUpdate(h[a].items, i, VNull, b);
      assert ExactAt(h, roots, b);
      RefsToAllCons(v, roots, b);
    }
  }

  lemma {:induction false} ReleaseExact(h: Heap, v: Value, roots: seq<Value>)
    requires Exact(h, [v] + roots)
    ensures Exact(Release(h, v), roots) && ReleaseFrame(h, Release(h, v))
    decreases Held(h), 0, v
  {
    match v
    case VArray(a) =>
      DropExact(h, a, roots);
      var h1 := Drop(h, a);
      if h1[a].refcount == 0 {
        ReleaseItemsExact(h1, a, 0, roots);
        FreeExact(ReleaseItems(h1, a, 0), a, roots);
      }
    case VStruct(_, _, fields) =>
      forall a: Addr
        ensures ExactAt(h, fields + roots, a)
      {
        assert ExactAt(h, [v] + roots, a);
        RefsToAllCons(v, roots, a);
        RefsToAllConcat(fields, roots, a);
      }
      ReleaseAllExact(h, fields, roots);
    case _ =>
      forall a: Addr
        ensures ExactAt(h, roots, a)
      {
        assert ExactAt(h, [v] + roots, a);
        RefsToAllCons(v, roots, a);
      }
  }

  lemma {:induction false} ReleaseAllExact(h: Heap, vs: seq<Value>, roots: seq<Value>)
    requires Exact(h, vs + roots)
    ensures Exact(ReleaseAll(h, vs), roots) && ReleaseFrame(h, ReleaseAll(h, vs))
    decreases Held(h), 0, vs
  {
    if vs == [] {
      assert vs + roots == roots;
    } else {
      assert vs + roots == [vs[0]] + (vs[1..] + roots);
      ReleaseExact(h, vs[0], vs[1..] + roots);
      ReleaseAllExact(Release(h, vs[0]), vs[1..], roots);
    }
  }

  /** Tearing down array `a`, whose slots before `i` are already empty. */
  lemma {:induction false} ReleaseItemsExact(h: Heap, a: Addr, i: nat, roots: seq<Value>)
    requires IsLive(h, a) && h[a].refcount == 0 && i <= |h[a].items|
    requires Exact(h, roots)
    requires forall j | 0 <= j < i :: h[a].items[j] == VNull
    ensures
      var h' := ReleaseItems(h, a, i);
      && Exact(h', roots)
      && IsLive(h', a) && h'[a].refcount == 0
      && (forall j | 0 <= j < |h'[a].items| :: h'[a].items[j] == VNull)
      && ReleaseFrame(h[a := Freed], h'[a := Freed])
    decreases Held(h), 1, |h[a].items| - i
  {
    if i < |h[a].items| {
      var v := h[a].items[i];
      var h1 := TakeItem(h, a, i);
      TakeItemExact(h, a, i, roots);
      ReleaseExact(h1, v, roots);
      var h2 := Release(h1, v);
      assert h2[a] == h1[a];
      ReleaseItemsExact(h2, a, i + 1, roots);
    }
  }

  /** value_release gives back exactly the references the value held. */
  lemma {:induction false} ReleaseKeepsSound(h: Heap, v: Value, roots: seq<Value>)
    requires Sound(h, [v] + roots)
    ensures Sound(Release(h, v), roots)
  {
    ReleaseExact(h, v, roots);
  }

  /** While other owners remain, a release only lowers counts. */
  lemma {:induction false} ReleaseCounts(h: Heap, v: Value)
    requires forall a: Addr | RefsTo(v, a) > 0 :: RefsTo(v, a) < Count(h, a)
    ensures SameShape(h, Release(h, v))
    ensures forall a: Addr :: Count(Release(h, v), a) == Count(h, a) - RefsTo(v, a)
    decreases v
  {
    match v
    case VArray(a) => assert RefsTo(v, a) > 0;
    case VStruct(_, _, fields) =>
      assert forall a: Addr :: RefsTo(v, a) == RefsToAll(fields, a);
      ReleaseAllCounts(h, fields);
    case _ =>
  }

  lemma {:induction false} ReleaseAllCounts(h: Heap, vs: seq<Value>)
    requires forall a: Addr | RefsToAll(vs, a) > 0 :: RefsToAll(vs, a) < Count(h, a)
    ensures SameShape(h, ReleaseAll(h, vs))
    ensures forall a: Addr :: Count(ReleaseAll(h, vs), a) == Count(h, a) - RefsToAll(vs, a)
    decreases vs
  {
    if vs != [] {
      assert forall a: Addr :: RefsToAll(vs, a) == RefsTo(vs[0], a) + RefsToAll(vs[1..], a);
      ReleaseCounts(h, vs[0]);
      ReleaseAllCounts(Release(h, vs[0]), vs[1..]);
    }
  }

  /** Releasing a fresh clone restores the heap. */
  lemma {:induction false} ReleaseUndoesClone(h: Heap, v: Value)
    requires RefsLive(h, v) && Positive(h)
    ensures Release(Clone(h, v), v) == h
  {
    CloneCounts(h, v);
    forall a: Addr | RefsTo(v, a) > 0
      ensures RefsTo(v, a) < Count(Clone(h, v), a)
    {
      assert IsLive(h, a) && Count(h, a) > 0;
    }
    ReleaseCounts(Clone(h, v), v);
    SameCountsSameHeap(h, Release(Clone(h, v), v));
  }

  // ---------- Which arrays the cascade frees ----------

  /** A set of arrays that keeps itself alive: each is referred to by a root or by another
      member of the set. */
  ghost predicate Supported(h: Heap, roots: seq<Value>, s: set<Addr>) {
    forall a <- s ::
      && IsLive(h, a)
      && (RefsToAll(roots, a) > 0 || exists b :: b in s && IsLive(h, b) && SlotRefsTo(h[b], a) > 0)
  }

  ghost predicate Untouched(h: Heap, h': Heap, s: set<Addr>) {
    forall a <- s :: IsLive(h', a) && IsLive(h, a) && h'[a].items == h[a].items
  }

  lemma {:induction false} SupportedIsCounted(h: Heap, roots: seq<Value>, s: set<Addr>, a: Addr)
    requires Exact(h, roots) && Supported(h, roots, s) && a in s
    ensures h[a].refcount > 0
  {
    assert ExactAt(h, roots, a);
    if RefsToAll(roots, a) == 0 {
      var b :| b in s && IsLive(h, b) && SlotRefsTo(h[b], a) > 0;
      SlotRefsInHeap(h, b, a);
    }
  }

  lemma {:induction false} SupportCarriesOver(h: Heap, h': Heap, roots: seq<Value>, s: set<Addr>)
    requires Supported(h, roots, s) && Untouched(h, h', s)
    ensures Supported(h', roots, s)
  {
    forall a <- s
      ensures RefsToAll(roots, a) > 0 || exists b :: b in s && IsLive(h', b) && SlotRefsTo(h'[b], a) > 0
    {
      if RefsToAll(roots, a) == 0 {
        var b :| b in s && IsLive(h, b) && SlotRefsTo(h[b], a) > 0;
        assert IsLive(h', b) && SlotRefsTo(h'[b], a) > 0;
      }
    }
  }

  lemma {:induction false} MoreRootsSupport(h: Heap, vs: seq<Value>, roots: seq<Value>, s: set<Addr>)
    requires Supported(h, roots, s)
    ensures Supported(h, vs + roots, s)
  {
    forall a <- s
      ensures RefsToAll(vs + roots, a) >= RefsToAll(roots, a)
    {
      RefsToAllConcat(vs, roots, a);
    }
  }

  lemma {:induction false} ReleaseSparesSupported(h: Heap, v: Value, roots: seq<Value>, s: set<Addr>)
    requires Exact(h, [v] + roots) && Supported(h, roots, s)
    ensures Untouched(h, Release(h, v), s)
    decreases Held(h), 0, v
  {
    match v
    case VArray(a) =>
      DropExact(h, a, roots);
      var h1 := Drop(h, a);
      SupportCarriesOver(h, h1, roots, s);
      if h1[a].refcount == 0 {
        if a in s {
          SupportedIsCounted(h1, roots, s, a);
          assert false;
        }
        ReleaseItemsSparesSupported(h1, a, 0, roots, s);
      }
    case VStruct(_, _, fields) =>
      forall a: Addr
        ensures ExactAt(h, fields + roots, a)
      {
        assert ExactAt(h, [v] + roots, a);
        RefsToAllCons(v, roots, a);
        RefsToAllConcat(fields, roots, a);
      }
      ReleaseAllSparesSupported(h, fields, roots, s);
    case _ =>
  }

  lemma {:induction false} ReleaseAllSparesSupported(
      h: Heap, vs: seq<Value>, roots: seq<Value>, s: set<Addr>)
    requires Exact(h, vs + roots) && Supported(h, roots, s)
    ensures Untouched(h, ReleaseAll(h, vs), s)
    decreases Held(h), 0, vs
  {
    if vs != [] {
      var rest := vs[1..] + roots;
      assert vs + roots == [vs[0]] + rest;
      MoreRootsSupport(h, vs[1..], roots, s);
      ReleaseSparesSupported(h, vs[0], rest, s);
      ReleaseExact(h, vs[0], rest);
      var h1 := Release(h, vs[0]);
      SupportCarriesOver(h, h1, roots, s);
      ReleaseAllSparesSupported(h1, vs[1..], roots, s);
    }
  }

  lemma {:induction false} ReleaseItemsSparesSupported(
      h: Heap, a: Addr, i: nat, roots: seq<Value>, s: set<Addr>)
    requires IsLive(h, a) && h[a].refcount == 0 && a !in s
    requires Exact(h, roots) && Supported(h, roots, s)
    ensures Untouched(h, ReleaseItems(h, a, i), s)
    decreases Held(h), 1, |h[a].items| - i
  {
    if i < |h[a].items| {
      var v := h[a].items[i];
      var h1 := TakeItem(h, a, i);
      TakeItemExact(h, a, i, roots);
      SupportCarriesOver(h, h1, roots, s);
      ReleaseSparesSupported(h1, v, roots, s);
      ReleaseExact(h1, v, roots);
      var h2 := Release(h1, v);
      assert h2[a] == h1[a];
      SupportCarriesOver(h1, h2, roots, s);
      ReleaseItemsSparesSupported(h2, a, i + 1, roots, s);
    }
  }

  /** The cascade frees exactly what can no longer be kept alive: an array survives a
      release if and only if it belongs to a set that the remaining roots support. Garbage
      that refers to itself supports itself, so it is never freed. */
  lemma {:induction false} ReleaseFreesExactly(h: Heap, v: Value, roots: seq<Value>, a: Addr)
    requires Sound(h, [v] + roots)
    ensures IsLive(Release(h, v), a) <==> exists s: set<Addr> :: a in s && Supported(h, roots, s)
  {
    var h' := Release(h, v);
    ReleaseExact(h, v, roots);
    if IsLive(h', a) {
      var survivors := set b: Addr | 0 <= b < |h'| && IsLive(h', b);
      forall b <- survivors
        ensures RefsToAll(roots, b) > 0 || exists c :: c in survivors && IsLive(h, c) && SlotRefsTo(h[c], b) > 0
      {
        assert ExactAt(h', roots, b);
        if RefsToAll(roots, b) == 0 {
          var c := HeapRefsHasHolder(h', b);
          assert c in survivors && SlotRefsTo(h[c], b) > 0;
        }
      }
      assert a in survivors && Supported(h, roots, survivors);
    }
    if s: set<Addr> :| a in s && Supported(h, roots, s) {
      ReleaseSparesSupported(h, v, roots, s);
    }
  }
}
