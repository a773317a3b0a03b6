/** The value, array and variable routines of the interpreter (src/core/interpreter.c) in
    place: each one is proved to do what RefHeap and RefMachine say, step by step. */
module Interpreter {
  import opened RefHeap
  import opened RefMachine

  class Interpreter {
    var heap: Heap
    var env: seq<Binding>
    var temps: seq<Value>

    ghost function Now(): State
      reads this
    {
      State(heap, env, temps)
    }

    constructor ()
      ensures Now() == INITIAL
    {
      heap, env, temps := [], [], [];
    }

    /** value_clone. */
    method ValueClone(v: Value)
      modifies this`heap
      ensures heap == Clone(old(heap), v)
      decreases v
    {
      match v
      case VArray(a) =>
        if a < |heap| && heap[a].Live? {
          heap := heap[a := heap[a].(refcount := heap[a].refcount + 1)];
        }
      case VStruct(_, _, fields) =>
        var i := 0;
        while i < |fields|
          invariant 0 <= i <= |fields|
          invariant CloneAll(heap, fields[i..]) == CloneAll(old(heap), fields)
        {
          ValueClone(fields[i]);
          assert fields[i..][1..] == fields[i + 1..];
          i := i + 1;
        }
      case _ =>
    }

    /** value_release; `roots` are all the other values alive at that moment. */
    method ValueRelease(v: Value, ghost roots: seq<Value>)
      requires Exact(heap, [v] + roots)
      modifies this`heap
      ensures heap == Release(old(heap), v)
      decreases Held(heap), 0, v
    {
      hide Exact, ExactAt, ReleaseFrame, SameShape;
      ReleaseExact(heap, v, roots);
      match v
      case VArray(a) =>
        DropExact(heap, a, roots);
        if heap[a].refcount > 0 {
          heap := heap[a := heap[a].(refcount := heap[a].refcount - 1)];
        }
        if heap[a].refcount == 0 {
          ReleaseEveryItem(a, roots);
          heap := heap[a := Freed];
        }
      case VStruct(_, _, fields) =>
        StructFieldRoots(heap, v, roots);
        var i := 0;
        while i < |fields|
          invariant 0 <= i <= |fields|
          invariant Held(heap) <= Held(old(heap))
          invariant Exact(heap, fields[i..] + roots)
          invariant ReleaseAll(heap, fields[i..]) == ReleaseAll(old(heap), fields)
        {
          assert fields[i..] + roots == [fields[i]] + (fields[i + 1..] + roots);
          ReleaseExact(heap, fields[i], fields[i + 1..] + roots);
          assert fields[i..][1..] == fields[i + 1..];
          assert fields[i] in fields;
          ValueRelease(fields[i], fields[i + 1..] + roots);
          i := i + 1;
        }
      case _ =>
    }

    method ReleaseEveryItem(a: Addr, ghost roots: seq<Value>)
      requires IsLive(heap, a) && heap[a].refcount == 0 && Exact(heap, roots)
      modifies this`heap
      ensures heap == ReleaseItems(old(heap), a, 0)
      ensures IsLive(heap, a)
      decreases Held(heap), 1
    {
      ReleaseItemsExact(heap, a, 0, roots);
      var i := 0;
      while i < |heap[a].items|
        invariant IsLive(heap, a) && heap[a].refcount == 0 && i <= |heap[a].items|
        invariant Held(heap) <= Held(old(heap))
        invariant Exact(heap, roots)
        invariant ReleaseItems(heap, a, i) == ReleaseItems(old(heap), a, 0)
        decreases |heap[a].items| - i
      {
        var v := heap[a].items[i];
        TakeItemExact(heap, a, i, roots);
        heap := heap[a := heap[a].(items := heap[a].items[i := VNull])];
        ReleaseExact(heap, v, roots);
        ValueRelease(v, roots);
        i := i + 1;
      }
    }

    /** array_create. */
    method ArrayCreate(capacity: nat) returns (a: Addr)
      modifies this`heap
      ensures a == |old(heap)| && heap == Create(old(heap), capacity)
    {
      a := |heap|;
      heap := heap + [Live(1, [], if capacity > 0 then capacity else 4)];
    }

    /** array_push. */
    method ArrayPush(a: Addr, v: Value)
      requires IsLive(heap, a)
      modifies this`heap
      ensures heap == Push(old(heap), a, v)
    {
      if |heap[a].items| >= heap[a].capacity {
        heap := heap[a := heap[a].(capacity := heap[a].capacity * 2)];
      }
      assert heap == Grow(old(heap), a);
      ValueClone(v);
      heap := heap[a := heap[a].(items := heap[a].items + [v])];
    }

    /** The spread loop of make_array_from_list, and the loop of a rest pattern: push the
        items of one array from `start` on onto another. */
    method PushItemsOf(target: Addr, source: Addr, start: nat)
      requires IsLive(heap, target) && IsLive(heap, source) && target != source
      modifies this`heap
      ensures start <= |old(heap)[source].items| ==>
        heap == PushAll(old(heap), target, old(heap)[source].items[start..])
      ensures start > |old(heap)[source].items| ==> heap == old(heap)
    {
      ghost var items := heap[source].items;
      var j := start;
      while j < |heap[source].items|
        invariant start <= |items| ==> start <= j <= |items|
        invariant start > |items| ==> heap == old(heap)
        invariant IsLive(heap, target) && IsLive(heap, source) && heap[source].items == items
        invariant start <= |items| ==>
          PushAll(heap, target, items[j..]) == PushAll(old(heap), target, items[start..])
        decreases |items| - j
      {
        assert items[j..][1..] == items[j + 1..];
        ArrayPush(target, heap[source].items[j]);
        j := j + 1;
      }
    }

    /** The pop of eval_call; the caller owns the result. */
    method ArrayPop(a: Addr, ghost roots: seq<Value>) returns (result: Value)
      requires Good(heap, roots) && IsLive(heap, a)
      modifies this`heap
      ensures (heap, result) == Pop(old(heap), a)
    {
      result := VNull;
      var n := |heap[a].items|;
      if n > 0 {
        result := heap[a].items[n - 1];
        PopCancels(heap, a, roots);
        CloneGood(heap, result, roots);
        TakeItemExact(Clone(heap, result), a, n - 1, [result] + roots);
        ValueClone(result);
        heap := heap[a := heap[a].(items := heap[a].items[n - 1 := VNull])];
        ValueRelease(result, [result] + roots);
        heap := heap[a := heap[a].(items := heap[a].items[..n - 1])];
      }
    }

    /** env_set. */
    method EnvironmentSet(name: string, v: Value, ghost rest: seq<Value>)
      requires Good(heap, Values(env) + rest) && RefsLive(heap, v)
      modifies this`heap, this`env
      ensures (heap, env) == EnvSet(old(heap), old(env), name, v)
    {
      CloneGood(heap, v, Values(env) + rest);
      ValueClone(v);
      var i := 0;
      while i < |env|
        invariant 0 <= i <= |env| && env == old(env) && heap == Clone(old(heap), v)
        invariant Find(env, name) >= i
      {
        FindStep(env, name, i);
        if env[i].name == name {
          EnvSlotRoots(heap, env, i, v, rest);
          ValueRelease(env[i].value, Values(env[i := Binding(name, v)]) + rest);
          env := env[i := Binding(name, v)];
          return;
        }
        i := i + 1;
      }
      env := [Binding(name, v)] + env;
    }

    /** env_get. */
    method EnvironmentGet(name: string) returns (v: Value)
      modifies this`heap
      ensures v == EnvGet(env, name) && heap == Clone(old(heap), v)
    {
      var i := 0;
      while i < |env|
        invariant 0 <= i <= |env| && heap == old(heap)
        invariant Find(env, name) >= i
      {
        FindStep(env, name, i);
        if env[i].name == name {
          ValueClone(env[i].value);
          return env[i].value;
        }
        i := i + 1;
      }
      return VNull;
    }

    // ---------- Expressions and patterns ----------

    method DoLoad(name: string)
      requires Valid(Now())
      modifies this
      ensures Now() == Apply(old(Now()), Load(name)) && Valid(Now())
    {
      ApplyValid(Now(), Load(name));
      var v := EnvironmentGet(name);
      temps := temps + [v];
    }

    method DoStore(name: string)
      requires Valid(Now()) && Enabled(Now(), Store(name))
      modifies this
      ensures Now() == Apply(old(Now()), Store(name)) && Valid(Now())
    {
      ApplyValid(Now(), Store(name));
      PeelTop(Now());
      EnvironmentSet(name, temps[|temps| - 1], temps);
    }

    method DoStoreItem(name: string, index: nat)
      requires Valid(Now()) && Enabled(Now(), StoreItem(name, index))
      modifies this
      ensures Now() == Apply(old(Now()), StoreItem(name, index)) && Valid(Now())
    {
      ApplyValid(Now(), StoreItem(name, index));
      var a := temps[|temps| - 1].addr;
      ItemOrNullLive(Now(), a, index);
      if index < |heap[a].items| {
        EnvironmentSet(name, heap[a].items[index], temps);
      } else {
        EnvironmentSet(name, VNull, temps);
      }
    }

    /** The new array of a rest pattern over the array on top. */
    method MakeRest(index: nat) returns (rest: Addr)
      requires |temps| >= 1 && IsArray(Now(), temps[|temps| - 1])
      modifies this`heap
      ensures rest == |old(heap)| && heap == RestArray(old(Now()), index)
    {
      ghost var s := Now();
      var a := temps[|temps| - 1].addr;
      rest := ArrayCreate((|heap[a].items| - index) % SIZE_LIMIT);
      assert heap[a].items == s.heap[a].items;
      PushItemsOf(rest, a, index);
    }

    method DoStoreRest(name: string, index: nat)
      requires Valid(Now()) && Enabled(Now(), StoreRest(name, index))
      modifies this
      ensures Now() == Apply(old(Now()), StoreRest(name, index)) && Valid(Now())
      ensures old(Backed(heap) && Short(heap)) && index < TOO_LONG ==>
        (Backed(heap) <==> index <= old(|heap[Top(Now()).addr].items|))
    {
      hide Backed, Short, Roomy, Positive, Release, EnvSet, RestArray;
      ghost var s := Now();
      if Backed(heap) && Short(heap) && index < TOO_LONG { StoreRestBacked(s, name, index); }
      StoreRestValid(s, name, index);
      RestArrayGood(s, index);
      var rest := MakeRest(index);
      EnvSetGood(heap, env, name, VArray(rest), temps + [VArray(rest)]);
      EnvironmentSet(name, VArray(rest), temps + [VArray(rest)]);
      LastRootFirst(heap, env, temps, VArray(rest));
      ValueRelease(VArray(rest), Values(env) + temps);
    }

    method DoDiscard()
      requires Valid(Now()) && |temps| >= 1
      modifies this
      ensures Now() == Apply(old(Now()), Discard) && Valid(Now())
    {
      ApplyValid(Now(), Discard);
      PeelTop(Now());
      var top, n := temps[|temps| - 1], |temps| - 1;
      GoodSameRefs(heap, Roots(Now()), [top] + (Values(env) + temps[..n]));
      ValueRelease(top, Values(env) + temps[..n]);
      temps := temps[..n];
    }

    method DoAppend()
      requires Valid(Now()) && Enabled(Now(), Append)
      modifies this
      ensures Now() == Apply(old(Now()), Append) && Valid(Now())
    {
      hide Valid, Push, Release;
      PushTop();
      DoDiscard();
    }

    method DoSpread()
      requires Valid(Now()) && Enabled(Now(), Spread)
      modifies this
      ensures Now() == Apply(old(Now()), Spread) && Valid(Now())
    {
      hide Valid, PushAll, Release;
      PushSpread();
      DoDiscard();
    }

    /** The pushes of a spread element. */
    method PushSpread()
      requires Valid(Now()) && Enabled(Now(), Spread)
      modifies this`heap
      ensures Valid(Now())
      ensures var s := old(Now());
        heap == if IsArray(s, Top(s)) then PushAll(s.heap, Below(s).addr, s.heap[Top(s).addr].items) else s.heap
    {
      hide PushAll;
      ghost var s := Now();
      var top := temps[|temps| - 1];
      PeelTop(s);
      if top.VArray? {
        assert RefsTo(top, top.addr) > 0;
        SpreadPushesValid(s);
        assert s.heap[top.addr].items[0..] == s.heap[top.addr].items;
        PushItemsOf(temps[|temps| - 2].addr, top.addr, 0);
      }
    }

    /** Pushes the top of the stack onto the array below it. */
    method PushTop()
      requires Valid(Now()) && |temps| >= 2 && IsArray(Now(), Below(Now()))
      modifies this`heap
      ensures Valid(Now())
      ensures var s := old(Now()); heap == Push(s.heap, Below(s).addr, Top(s))
    {
      hide Push;
      PeelTwo(Now());
      PushGood(heap, temps[|temps| - 2].addr, temps[|temps| - 1], Roots(Now()));
      ArrayPush(temps[|temps| - 2].addr, temps[|temps| - 1]);
    }

    method DoPushCall()
      requires Valid(Now()) && Enabled(Now(), PushCall)
      modifies this
      ensures Now() == Apply(old(Now()), PushCall) && Valid(Now())
    {
      hide Valid, Push, Release;
      ghost var s := Now();
      PushCallValid(s);
      PushTop();
      DoDiscard();
      assert Top(Now()) == Below(s) && Keep(Now(), 1) == Keep(s, 2);
      DoDiscard();
      temps := temps + [VNull];
    }

    method DoPopCall()
      requires Valid(Now()) && Enabled(Now(), PopCall)
      modifies this
      ensures Now() == Apply(old(Now()), PopCall) && Valid(Now())
    {
      ghost var s := Now();
      ApplyValid(s, PopCall);
      var top, kept := temps[|temps| - 1], temps[..|temps| - 1];
      PopGood(heap, top.addr, Roots(s));
      var result := ArrayPop(top.addr, Roots(s));
      UnderTop(heap, s, result);
      ValueRelease(top, [result] + Rest(s, 1));
      temps := kept + [result];
    }

    /** The bounds-checked lookup of an index expression. */
    method ElementAt(arr: Value, idx: Value) returns (result: Value)
      requires Valid(Now()) && RefsLive(heap, arr)
      ensures result == IndexResult(Now(), arr, idx) && RefsLive(heap, result)
    {
      result := VNull;
      if arr.VArray? && idx.VInt? {
        assert RefsTo(arr, arr.addr) > 0;
        if 0 <= idx.i < |heap[arr.addr].items| {
          result := heap[arr.addr].items[idx.i];
          ItemLive(heap, Roots(Now()), arr.addr, idx.i);
        }
      }
    }

    /** Index an array by the top of the stack, cloning the element. */
    method DoIndex()
      requires Valid(Now()) && Enabled(Now(), Index)
      modifies this
      ensures Now() == Apply(old(Now()), Index) && Valid(Now())
    {
      ghost var s := Now();
      PeelTwo(s);
      var arr, idx, kept := temps[|temps| - 2], temps[|temps| - 1], temps[..|temps| - 2];
      var result := ElementAt(arr, idx);
      CloneGood(heap, result, Roots(s));
      ValueClone(result);
      DiscardTwo(heap, s, result, arr, idx);
      ReleaseTwo(arr, idx, [result] + Rest(s, 2), s, result);
      temps := kept + [result];
    }

    method ReleaseTwo(x: Value, y: Value, ghost rest: seq<Value>, ghost s: State, ghost v: Value)
      requires |s.temps| >= 2 && Good(heap, [v] + Roots(s))
      requires x == Below(s) && y == Top(s) && rest == [v] + Rest(s, 2)
      modifies this`heap
      ensures heap == Release(Release(old(heap), x), y)
    {
      UnderTwo(heap, s, v);
      ReleaseGood(heap, x, [y] + rest);
      ValueRelease(x, [y] + rest);
      ValueRelease(y, rest);
    }

    method DoMember(name: string)
      requires Valid(Now()) && Enabled(Now(), Member(name))
      modifies this
      ensures Now() == Apply(old(Now()), Member(name)) && Valid(Now())
    {
      ghost var s := Now();
      ApplyValid(s, Member(name));
      PeelTop(s);
      var obj, kept := temps[|temps| - 1], temps[..|temps| - 1];
      var result := VNull;
      if HasField(obj, name) {
        FieldLive(heap, obj, name);
        result := GetField(obj, name);
      } else if obj.VArray? && name == "length" {
        assert RefsTo(obj, obj.addr) > 0;
        result := VInt(|heap[obj.addr].items|);
      }
      CloneGood(heap, result, Roots(s));
      ValueClone(result);
      UnderTop(heap, s, result);
      ValueRelease(obj, [result] + Rest(s, 1));
      temps := kept + [result];
    }

    method DoSetField(variable: string, name: string)
      requires Valid(Now()) && Enabled(Now(), SetField(variable, name))
      modifies this
      ensures Now() == Apply(old(Now()), SetField(variable, name)) && Valid(Now())
    {
      ghost var s := Now();
      ApplyValid(s, SetField(variable, name));
      var i := 0;
      while i < |env|
        invariant 0 <= i <= |env| && Now() == s
        invariant Find(env, variable) >= i
      {
        FindStep(env, variable, i);
        if env[i].name == variable {
          if HasField(env[i].value, name) {
            var top := temps[|temps| - 1];
            FieldTakenGood(s, i, name);
            ValueRelease(GetField(env[i].value, name), Roots(FieldTaken(s, i, name)));
            ValueClone(top);
            env := env[i := Binding(variable, PutField(env[i].value, name, top))];
          }
          return;
        }
        i := i + 1;
      }
    }

    /** env_free. */
    method EnvironmentFree()
      requires Valid(Now()) && temps == []
      modifies this`heap, this`env
      ensures env == [] && heap == EnvFree(old(heap), old(env)) && Good(heap, [])
    {
      assert Values(env) + temps == Values(env) + [];
      while env != []
        invariant Good(heap, Values(env) + [])
        invariant EnvFree(heap, env) == EnvFree(old(heap), old(env))
        decreases |env|
      {
        assert Values(env) + [] == [env[0].value] + (Values(env[1..]) + []);
        ReleaseGood(heap, env[0].value, Values(env[1..]) + []);
        ValueRelease(env[0].value, Values(env[1..]) + []);
        env := env[1..];
      }
      assert Values(env) + [] == [];
    }
  }

  // ---------- What the methods need to know on the way ----------

  lemma {:induction false} FindStep(env: seq<Binding>, name: string, i: nat)
    requires i < |env| && Find(env, name) >= i
    ensures env[i].name == name ==> Find(env, name) == i
    ensures env[i].name != name ==> Find(env, name) >= i + 1
  {
  }

  lemma {:induction false} StructFieldRoots(h: Heap, v: Value, roots: seq<Value>)
    requires v.VStruct? && Exact(h, [v] + roots)
    ensures Exact(h, v.fields + roots)
  {
    forall a: Addr
      ensures ExactAt(h, v.fields + roots, a)
    {
      assert ExactAt(h, [v] + roots, a);
      RefsToAllCons(v, roots, a);
      RefsToAllConcat(v.fields, roots, a);
    }
  }

  lemma {:induction false} EnvSlotRoots(h: Heap, env: seq<Binding>, i: nat, v: Value, rest: seq<Value>)
    requires i < |env| && Good(h, [v] + (Values(env) + rest))
    ensures Exact(h, [env[i].value] + (Values(env[i := Binding(env[i].name, v)]) + rest))
  {
    var env' := env[i := Binding(env[i].name, v)];
    assert Values(env') == Values(env)[i := v];
    forall a: Addr
      ensures ExactAt(h, [env[i].value] + (Values(env') + rest), a)
    {
      assert ExactAt(h, [v] + (Values(env) + rest), a);
      RefsToAllCons(v, Values(env) + rest, a);
      RefsToAllCons(env[i].value, Values(env') + rest, a);
      RefsToAllConcat(Values(env), rest, a);
      RefsToAllConcat(Values(env'), rest, a);
      RefsToAllUpdate(Values(env), i, v, a);
    }
  }
}
