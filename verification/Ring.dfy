/** The consistent-hash ring as a value (src/constellation/dfs/dht.c). */
module Ring {
  // Clockwise walks, replica lists, and what adding or removing a node does to them. Hashes are
  // positions 0 .. 2^160 - 1 compared as big-endian numbers; only their order matters here.

  datatype VNode = VNode(node: string, index: nat, hash: nat)

  predicate Sorted(ring: seq<VNode>) {
    forall i, j :: 0 <= i < j < |ring| ==> ring[i].hash <= ring[j].hash
  }

  /** No two virtual nodes share a position. */
  predicate CollisionFree(ring: seq<VNode>) {
    forall i, j :: 0 <= i < j < |ring| ==> ring[i].hash != ring[j].hash
  }

  /** The virtual nodes at or after `key`. */
  function AtOrAfter(ring: seq<VNode>, key: nat): (r: seq<VNode>) {
    if ring == [] then []
    else (if ring[0].hash >= key then [ring[0]] else []) + AtOrAfter(ring[1..], key)
  }

  function Before(ring: seq<VNode>, key: nat): (r: seq<VNode>) {
    if ring == [] then []
    else (if ring[0].hash < key then [ring[0]] else []) + Before(ring[1..], key)
  }

  /** Once around the ring from `key`: the positions from there up, then the ones below it. */
  function Clockwise(ring: seq<VNode>, key: nat): seq<VNode> {
    AtOrAfter(ring, key) + Before(ring, key)
  }

  function Without(ring: seq<VNode>, node: string): (r: seq<VNode>) {
    if ring == [] then []
    else (if ring[0].node != node then [ring[0]] else []) + Without(ring[1..], node)
  }

  /** The nodes of `ring` that are in `alive`, in order, each at its first appearance only. */
  function Walk(ring: seq<VNode>, alive: set<string>): (r: seq<string>)
    decreases |ring|
  {
    if ring == [] then []
    else if ring[0].node in alive then [ring[0].node] + Walk(ring[1..], alive - {ring[0].node})
    else Walk(ring[1..], alive)
  }

  function Take(s: seq<string>, n: int): (r: seq<string>) {
    if n <= 0 then [] else if n >= |s| then s else s[..n]
  }

  /** The replicas of `key`: the first `count` live nodes met on the way round. */
  function Replicas(ring: seq<VNode>, key: nat, count: int, alive: set<string>): seq<string> {
    Take(Walk(Clockwise(ring, key), alive), count)
  }

  function Erase(s: seq<string>, x: string): (r: seq<string>) {
    if s == [] then []
    else (if s[0] != x then [s[0]] else []) + Erase(s[1..], x)
  }

  lemma {:induction false} ConsSplits(v: VNode, rest: seq<VNode>, key: nat)
    ensures AtOrAfter([v] + rest, key) == (if v.hash >= key then [v] else []) + AtOrAfter(rest, key)
    ensures Before([v] + rest, key) == (if v.hash < key then [v] else []) + Before(rest, key)
  {
    assert ([v] + rest)[1..] == rest;
  }

  lemma {:induction false} ConsWithout(v: VNode, rest: seq<VNode>, node: string)
    ensures Without([v] + rest, node) == (if v.node != node then [v] else []) + Without(rest, node)
  {
    assert ([v] + rest)[1..] == rest;
  }

  lemma {:induction false} ConsWalk(v: VNode, rest: seq<VNode>, alive: set<string>)
    ensures Walk([v] + rest, alive)
         == if v.node in alive then [v.node] + Walk(rest, alive - {v.node}) else Walk(rest, alive)
  {
    assert ([v] + rest)[1..] == rest;
  }

  lemma {:induction false} ConsErase(x: string, rest: seq<string>, y: string)
    ensures Erase([x] + rest, y) == (if x != y then [x] else []) + Erase(rest, y)
  {
    assert ([x] + rest)[1..] == rest;
  }

  // ---------- What a walk visits ----------

  function LiveNodes(ring: seq<VNode>, alive: set<string>): set<string> {
    set v | v in ring && v.node in alive :: v.node
  }

  /** The first place of `node` in `ring`, or its length. */
  function FirstPlace(ring: seq<VNode>, node: string): (p: nat)
    ensures p <= |ring|
    ensures p < |ring| ==> ring[p].node == node
    ensures forall i :: 0 <= i < p ==> ring[i].node != node
  {
    if ring == [] || ring[0].node == node then 0 else 1 + FirstPlace(ring[1..], node)
  }

  predicate NoRepeats(s: seq<string>) {
    forall i, j :: 0 <= i < j < |s| ==> s[i] != s[j]
  }

  lemma {:induction false} WalkMembers(ring: seq<VNode>, alive: set<string>, x: string)
    ensures x in Walk(ring, alive) <==> x in LiveNodes(ring, alive)
    decreases |ring|
  {
    if ring != [] {
      var v, rest := ring[0], ring[1..];
      var alive' := if v.node in alive then alive - {v.node} else alive;
      WalkMembers(rest, alive', x);
      assert ring == [v] + rest;
      if x in LiveNodes(ring, alive) && x != v.node {
        var u :| u in ring && u.node == x && u.node in alive;
        assert u in rest;
      }
      if x in LiveNodes(rest, alive') {
        var u :| u in rest && u.node == x && u.node in alive';
        assert u in ring;
      }
      if x == v.node && v.node in alive { assert v in ring; }
    }
  }

  /** A node first met behind the first virtual node is one place nearer to the start there. */
  lemma {:induction false} PlaceBehind(ring: seq<VNode>, x: string)
    requires ring != []
    ensures FirstPlace(ring, x) == if ring[0].node == x then 0 else 1 + FirstPlace(ring[1..], x)
  {
  }

  lemma {:induction false} WalkUnfolds(ring: seq<VNode>, alive: set<string>)
    requires ring != []
    ensures Walk(ring, alive)
         == if ring[0].node in alive then [ring[0].node] + Walk(ring[1..], alive - {ring[0].node})
            else Walk(ring[1..], alive)
  {
  }

  lemma {:induction false} WalkFinds(ring: seq<VNode>, alive: set<string>, i: nat)
    requires i < |Walk(ring, alive)|
    ensures Walk(ring, alive)[i] in alive && FirstPlace(ring, Walk(ring, alive)[i]) < |ring|
  {
    hide Walk, FirstPlace;
    var x := Walk(ring, alive)[i];
    assert x in Walk(ring, alive);
    WalkMembers(ring, alive, x);
    LivePlace(ring, alive, x);
  }

  lemma {:induction false} WalkInOrder(ring: seq<VNode>, alive: set<string>, i: nat, j: nat)
    requires i < j < |Walk(ring, alive)|
    ensures var w := Walk(ring, alive);
      w[i] != w[j] && FirstPlace(ring, w[i]) < FirstPlace(ring, w[j]) < |ring|
    decreases |ring|
  {
    hide Walk, FirstPlace;
    NothingToMeet(ring, alive);
    var v, rest := ring[0], ring[1..];
    var w := Walk(ring, alive);
    WalkUnfolds(ring, alive);
    PlaceBehind(ring, w[i]);
    PlaceBehind(ring, w[j]);
    WalkFinds(ring, alive, j);
    if v.node in alive {
      WalkFinds(rest, alive - {v.node}, j - 1);
      if i > 0 {
        WalkFinds(rest, alive - {v.node}, i - 1);
        WalkInOrder(rest, alive - {v.node}, i - 1, j - 1);
      }
    } else {
      WalkFinds(rest, alive, i);
      WalkFinds(rest, alive, j);
      WalkInOrder(rest, alive, i, j);
    }
  }

  lemma {:induction false} NothingToMeet(ring: seq<VNode>, alive: set<string>)
    ensures Walk(ring, alive) != [] ==> ring != []
  {
  }

  /** A walk meets every live node of the ring exactly once, in the order of first places. */
  lemma {:induction false} WalkVisits(ring: seq<VNode>, alive: set<string>)
    ensures var w := Walk(ring, alive);
      && NoRepeats(w)
      && (forall x :: x in w <==> x in LiveNodes(ring, alive))
      && forall i, j :: 0 <= i < j < |w| ==> FirstPlace(ring, w[i]) < FirstPlace(ring, w[j]) < |ring|
  {
    hide Walk, FirstPlace, LiveNodes;
    var w := Walk(ring, alive);
    forall x ensures x in w <==> x in LiveNodes(ring, alive) { WalkMembers(ring, alive, x); }
    forall i, j | 0 <= i < j < |w|
      ensures w[i] != w[j] && FirstPlace(ring, w[i]) < FirstPlace(ring, w[j]) < |ring|
    {
      WalkInOrder(ring, alive, i, j);
    }
  }

  lemma {:induction false} LivePlace(ring: seq<VNode>, alive: set<string>, x: string)
    requires x in LiveNodes(ring, alive)
    ensures FirstPlace(ring, x) < |ring|
  {
    var v :| v in ring && v.node == x && v.node in alive;
    var i :| 0 <= i < |ring| && ring[i] == v;
  }

  lemma {:induction false} SizeOfDistinct(s: seq<string>, members: set<string>)
    requires NoRepeats(s) && forall x :: x in s <==> x in members
    ensures |s| == |members|
  {
    if s == [] {
      assert members == {};
    } else {
      var rest := s[1..];
      assert s == [s[0]] + rest;
      assert forall x :: x in rest <==> x in members - {s[0]};
      SizeOfDistinct(rest, members - {s[0]});
    }
  }

  /** `r` is the first `count` of the nodes `live`, or all of them, on the way along `around`:
      no repeats, in the order of first places, and whatever is left out comes later. */
  predicate Placed(around: seq<VNode>, live: set<string>, count: int, r: seq<string>) {
    && NoRepeats(r)
    && |r| == (if count <= 0 then 0 else if count <= |live| then count else |live|)
    && (forall x :: x in r ==> x in live)
    && (forall i, j :: 0 <= i < j < |r| ==> FirstPlace(around, r[i]) < FirstPlace(around, r[j]))
    && forall x, i :: x in live && x !in r && 0 <= i < |r| ==> FirstPlace(around, r[i]) < FirstPlace(around, x)
  }

  /** The places of all that `w` lists are in order. */
  ghost predicate InOrder(around: seq<VNode>, w: seq<string>) {
    forall i, j :: 0 <= i < j < |w| ==> FirstPlace(around, w[i]) < FirstPlace(around, w[j])
  }

  lemma {:induction false} LeftOutLater(around: seq<VNode>, w: seq<string>, n: nat, x: string, i: nat)
    requires InOrder(around, w) && i < n <= |w| && x in w && x !in w[..n]
    ensures FirstPlace(around, w[i]) < FirstPlace(around, x)
  {
    assert forall k :: 0 <= k < n ==> w[..n][k] == w[k];
    var j :| 0 <= j < |w| && w[j] == x;
  }

  lemma {:induction false} PrefixPlaced(around: seq<VNode>, live: set<string>, w: seq<string>, n: nat)
    requires NoRepeats(w) && InOrder(around, w) && (forall x :: x in w <==> x in live) && n <= |w| == |live|
    ensures Placed(around, live, n, w[..n])
  {
    hide FirstPlace, InOrder;
    var r := w[..n];
    forall x | x in r ensures x in live { assert x in w; }
    forall i, j | 0 <= i < j < |r| ensures FirstPlace(around, r[i]) < FirstPlace(around, r[j]) {
      PlaceBefore(around, w, i, j);
    }
    forall x, i | x in live && x !in r && 0 <= i < |r|
      ensures FirstPlace(around, r[i]) < FirstPlace(around, x)
    {
      LeftOutLater(around, w, n, x, i);
    }
  }

  lemma {:induction false} PlaceBefore(around: seq<VNode>, w: seq<string>, i: nat, j: nat)
    requires InOrder(around, w) && i < j < |w|
    ensures FirstPlace(around, w[i]) < FirstPlace(around, w[j])
  {
  }

  lemma {:induction false} WalkPlaced(around: seq<VNode>, count: int, alive: set<string>)
    ensures Placed(around, LiveNodes(around, alive), count, Take(Walk(around, alive), count))
  {
    hide Walk, LiveNodes, FirstPlace, NoRepeats;
    var w, live := Walk(around, alive), LiveNodes(around, alive);
    WalkVisits(around, alive);
    SizeOfDistinct(w, live);
    var n := if count <= 0 then 0 else if count >= |w| then |w| else count;
    PrefixPlaced(around, live, w, n);
    assert Take(w, count) == w[..n];
  }

  /** On every ring the replica list is placed clockwise from the key. */
  lemma {:induction false} ReplicaPlacement(ring: seq<VNode>, key: nat, count: int, alive: set<string>)
    ensures Placed(Clockwise(ring, key), LiveNodes(ring, alive), count, Replicas(ring, key, count, alive))
  {
    WalkPlaced(Clockwise(ring, key), count, alive);
    SameNodes(ring, key, alive);
  }

  lemma {:induction false} SameMembers(ring: seq<VNode>, key: nat, v: VNode)
    ensures v in ring <==> v in AtOrAfter(ring, key) || v in Before(ring, key)
  {
    if ring != [] {
      assert ring == [ring[0]] + ring[1..];
      SameMembers(ring[1..], key, v);
    }
  }

  lemma {:induction false} SameNodes(ring: seq<VNode>, key: nat, alive: set<string>)
    ensures LiveNodes(Clockwise(ring, key), alive) == LiveNodes(ring, alive)
  {
    forall v ensures v in Clockwise(ring, key) <==> v in ring {
      SameMembers(ring, key, v);
    }
  }

  // ---------- Searching a sorted ring ----------

  /** `i` is where the search for `key` ends: the successor of `key`, or index 0 when none. */
  predicate IsSuccessor(ring: seq<VNode>, key: nat, i: nat) {
    && i < |ring|
    && (if ring[i].hash >= key
        then forall j :: 0 <= j < i ==> ring[j].hash < key
        else i == 0 && forall j :: 0 <= j < |ring| ==> ring[j].hash < key)
  }

  lemma {:induction false} SplitBefore(ring: seq<VNode>, key: nat)
    requires forall j :: 0 <= j < |ring| ==> ring[j].hash < key
    ensures AtOrAfter(ring, key) == [] && Before(ring, key) == ring
  {
    if ring != [] {
      SplitBefore(ring[1..], key);
      assert ring == [ring[0]] + ring[1..];
    }
  }

  lemma {:induction false} SplitAfter(ring: seq<VNode>, key: nat)
    requires forall j :: 0 <= j < |ring| ==> ring[j].hash >= key
    ensures AtOrAfter(ring, key) == ring && Before(ring, key) == []
  {
    if ring != [] {
      SplitAfter(ring[1..], key);
      assert ring == [ring[0]] + ring[1..];
    }
  }

  lemma {:induction false} Regroup(a: seq<VNode>, b: seq<VNode>, c: seq<VNode>)
    ensures a + (b + c) == (a + b) + c
  {
  }

  lemma {:induction false} SplitConcat(a: seq<VNode>, b: seq<VNode>, key: nat)
    ensures AtOrAfter(a + b, key) == AtOrAfter(a, key) + AtOrAfter(b, key)
    ensures Before(a + b, key) == Before(a, key) + Before(b, key)
  {
    if a == [] {
      assert a + b == b;
    } else {
      SplitConcat(a[1..], b, key);
      assert (a + b)[1..] == a[1..] + b;
      Regroup(if a[0].hash >= key then [a[0]] else [], AtOrAfter(a[1..], key), AtOrAfter(b, key));
      Regroup(if a[0].hash < key then [a[0]] else [], Before(a[1..], key), Before(b, key));
    }
  }

  /** Turning a sorted ring to its successor of `key` is walking it clockwise from `key`. */
  lemma {:induction false} RotationIsClockwise(ring: seq<VNode>, key: nat, i: nat)
    requires Sorted(ring) && IsSuccessor(ring, key, i)
    ensures ring[i..] + ring[..i] == Clockwise(ring, key)
  {
    hide AtOrAfter, Before;
    if ring[i].hash >= key {
      var low, high := ring[..i], ring[i..];
      assert ring == low + high;
      SplitConcat(low, high, key);
      SplitBefore(low, key);
      forall j | 0 <= j < |high| ensures high[j].hash >= key {
        assert high[j] == ring[i + j];
      }
      SplitAfter(high, key);
    } else {
      SplitBefore(ring, key);
    }
  }

  lemma {:induction false} SuccessorExists(ring: seq<VNode>, key: nat) returns (i: nat)
    requires ring != []
    ensures IsSuccessor(ring, key, i)
  {
    i := 0;
    while i < |ring| && ring[i].hash < key
      invariant i <= |ring| && forall j :: 0 <= j < i ==> ring[j].hash < key
    {
      i := i + 1;
    }
    if i == |ring| { i := 0; }
  }

  /** Turning it to any other index is not: only from the successor is the way clockwise. */
  lemma {:induction false} OnlyRotationFromSuccessor(ring: seq<VNode>, key: nat, i: nat)
    requires Sorted(ring) && i < |ring| && forall j, k :: 0 <= j < k < |ring| ==> ring[j] != ring[k]
    ensures ring[i..] + ring[..i] == Clockwise(ring, key) <==> IsSuccessor(ring, key, i)
  {
    if IsSuccessor(ring, key, i) {
      RotationIsClockwise(ring, key, i);
    } else {
      var j := SuccessorExists(ring, key);
      RotationIsClockwise(ring, key, j);
      assert (ring[j..] + ring[..j])[0] == ring[j] && (ring[i..] + ring[..i])[0] == ring[i];
    }
  }

  // ---------- Removing a node ----------

  lemma {:induction false} WithoutSplits(ring: seq<VNode>, node: string, key: nat)
    ensures AtOrAfter(Without(ring, node), key) == Without(AtOrAfter(ring, key), node)
    ensures Before(Without(ring, node), key) == Without(Before(ring, key), node)
  {
    if ring != [] {
      var v, rest := ring[0], ring[1..];
      WithoutSplits(rest, node, key);
      ConsSplits(v, Without(rest, node), key);
      ConsWithout(v, AtOrAfter(rest, key), node);
      ConsWithout(v, Before(rest, key), node);
      assert forall s: seq<VNode> :: [] + s == s;
    }
  }

  lemma {:induction false} WithoutConcat(a: seq<VNode>, b: seq<VNode>, node: string)
    ensures Without(a + b, node) == Without(a, node) + Without(b, node)
  {
    if a == [] {
      assert a + b == b;
    } else {
      assert (a + b)[1..] == a[1..] + b;
      WithoutConcat(a[1..], b, node);
    }
  }

  lemma {:induction false} WithoutDrops(ring: seq<VNode>, node: string, v: VNode)
    ensures v in Without(ring, node) <==> v in ring && v.node != node
  {
    if ring != [] {
      assert ring == [ring[0]] + ring[1..];
      WithoutDrops(ring[1..], node, v);
    }
  }

  lemma {:induction false} WalkWithout(ring: seq<VNode>, node: string, alive: set<string>)
    ensures Walk(Without(ring, node), alive) == Erase(Walk(ring, alive), node)
    decreases |ring|
  {
    if ring != [] {
      var v, rest := ring[0], ring[1..];
      var kept := Without(rest, node);
      var alive' := if v.node in alive then alive - {v.node} else alive;
      WalkWithout(rest, node, alive');
      assert Without(ring, node) == if v.node != node then [v] + kept else kept;
      ConsWalk(v, kept, alive);
      ConsErase(v.node, Walk(rest, alive'), node);
      if v.node == node {
        forall u | u in kept ensures u.node != node { WithoutDrops(rest, node, u); }
        WalkAmong(kept, alive, node);
      }
    }
  }

  lemma {:induction false} WalkAmong(ring: seq<VNode>, alive: set<string>, node: string)
    requires forall v :: v in ring ==> v.node != node
    ensures Walk(ring, alive) == Walk(ring, alive - {node})
  {
    if ring != [] {
      var v, rest := ring[0], ring[1..];
      assert v in ring;
      if v.node in alive {
        WalkAmong(rest, alive - {v.node}, node);
        assert alive - {v.node} - {node} == alive - {node} - {v.node};
      } else {
        WalkAmong(rest, alive, node);
      }
    }
  }

  /** Minimal disruption: the walk from any key, once `node` is removed, is the walk before
      with `node` erased. */
  lemma {:induction false} MinimalDisruption(ring: seq<VNode>, key: nat, node: string, alive: set<string>)
    ensures Walk(Clockwise(Without(ring, node), key), alive) == Erase(Walk(Clockwise(ring, key), alive), node)
  {
    WithoutSplits(ring, node, key);
    WithoutConcat(AtOrAfter(ring, key), Before(ring, key), node);
    WalkWithout(Clockwise(ring, key), node, alive);
  }

  lemma {:induction false} EraseAbsent(s: seq<string>, x: string)
    requires x !in s
    ensures Erase(s, x) == s
  {
    if s != [] {
      assert s == [s[0]] + s[1..];
      EraseAbsent(s[1..], x);
    }
  }

  lemma {:induction false} EraseOnce(s: seq<string>, i: nat)
    requires i < |s| && NoRepeats(s)
    ensures Erase(s, s[i]) == s[..i] + s[i + 1..]
  {
    var rest := s[1..];
    assert s == [s[0]] + rest;
    if i == 0 {
      EraseAbsent(rest, s[0]);
    } else {
      EraseOnce(rest, i - 1);
      assert s[..i] == [s[0]] + rest[..i - 1];
    }
  }

  /** Erasing from a list and then cutting it short, against cutting it short first. */
  lemma {:induction false} TakeErase(w: seq<string>, count: int, i: nat)
    requires i < |w| && NoRepeats(w)
    ensures i >= count ==> Take(Erase(w, w[i]), count) == Take(w, count) && w[i] !in Take(w, count)
    ensures i < count ==> exists more: seq<string> ::
      |more| <= 1 && Take(Erase(w, w[i]), count) == Erase(Take(w, count), w[i]) + more
  {
    EraseOnce(w, i);
    var erased := w[..i] + w[i + 1..];
    if i < count {
      var before := Take(w, count);
      assert before[i] == w[i];
      EraseOnce(before, i);
      var more := if count < |w| then [w[count]] else [];
      assert Take(erased, count) == before[..i] + before[i + 1..] + more;
    } else {
      assert Take(erased, count) == Take(w, count);
    }
  }

  /** Removing `node` takes it out of the replica list and appends at most one other node;
      lists without it do not change at all. */
  lemma {:induction false} ReplicasChangeLittle(ring: seq<VNode>, key: nat, count: int, node: string,
          alive: set<string>)
    ensures var before := Replicas(ring, key, count, alive);
      var after := Replicas(Without(ring, node), key, count, alive);
      if node !in before then after == before
      else exists more: seq<string> :: |more| <= 1 && after == Erase(before, node) + more
  {
    var w := Walk(Clockwise(ring, key), alive);
    MinimalDisruption(ring, key, node, alive);
    WalkVisits(Clockwise(ring, key), alive);
    if node in w {
      var i :| 0 <= i < |w| && w[i] == node;
      TakeErase(w, count, i);
      if i < count { assert Take(w, count)[i] == node; }
    } else {
      EraseAbsent(w, node);
    }
  }

  /** So a key changes owner exactly when its owner is the node removed. */
  lemma {:induction false} OwnerChangesOnlyIfRemoved(ring: seq<VNode>, key: nat, node: string, alive: set<string>)
    ensures Replicas(Without(ring, node), key, 1, alive) != Replicas(ring, key, 1, alive)
      <==> Replicas(ring, key, 1, alive) == [node]
  {
    var w := Walk(Clockwise(ring, key), alive);
    MinimalDisruption(ring, key, node, alive);
    WalkVisits(Clockwise(ring, key), alive);
    if w != [] {
      if w[0] == node {
        EraseOnce(w, 0);
      } else {
        assert w == [w[0]] + w[1..];
      }
    }
  }

  // ---------- Adding a node ----------

  /** The virtual nodes of a new node, hashed by `hash` from its name and their number. */
  function VNodesOf(node: string, count: nat, hash: (string, nat) -> nat): (r: seq<VNode>)
    ensures |r| == count && forall i :: 0 <= i < count ==> r[i] == VNode(node, i, hash(node, i))
  {
    if count == 0 then []
    else VNodesOf(node, count - 1, hash) + [VNode(node, count - 1, hash(node, count - 1))]
  }

  /** Sorting leaves no choice when no two positions are equal. */
  lemma {:induction false} SortedIsUnique(a: seq<VNode>, b: seq<VNode>)
    requires Sorted(a) && Sorted(b) && CollisionFree(a) && multiset(a) == multiset(b)
    ensures a == b
  {
    assert |a| == |multiset(a)| == |multiset(b)| == |b|;
    if a != [] {
      FirstIsLeast(a, b);
      RestOfMultiset(a);
      RestOfMultiset(b);
      SortedIsUnique(a[1..], b[1..]);
      assert a == [a[0]] + a[1..] && b == [b[0]] + b[1..];
    }
  }

  lemma {:induction false} RestOfMultiset(a: seq<VNode>)
    requires a != []
    ensures multiset(a[1..]) == multiset(a) - multiset{a[0]}
  {
    assert a == [a[0]] + a[1..];
  }

  lemma {:induction false} FirstIsLeast(a: seq<VNode>, b: seq<VNode>)
    requires Sorted(a) && Sorted(b) && CollisionFree(a) && multiset(a) == multiset(b)
    requires a != [] && b != []
    ensures a[0] == b[0]
  {
    assert a[0] in multiset(b) && b[0] in multiset(a);
    assert a[0] in b && b[0] in a;
    var i :| 0 <= i < |a| && a[i] == b[0];
    var j :| 0 <= j < |b| && b[j] == a[0];
    assert a[0].hash <= a[i].hash && b[0].hash <= b[j].hash;
  }

  lemma {:induction false} WithoutSorted(ring: seq<VNode>, node: string)
    requires Sorted(ring)
    ensures Sorted(Without(ring, node))
  {
    if ring != [] {
      WithoutSorted(ring[1..], node);
      forall v | v in Without(ring[1..], node) ensures ring[0].hash <= v.hash {
        WithoutDrops(ring[1..], node, v);
        var i :| 0 <= i < |ring[1..]| && ring[1..][i] == v;
        assert ring[1 + i] == v;
      }
    }
  }

  lemma {:induction false} WithoutCounts(ring: seq<VNode>, node: string, v: VNode)
    ensures multiset(Without(ring, node))[v] == if v.node == node then 0 else multiset(ring)[v]
  {
    if ring != [] {
      assert ring == [ring[0]] + ring[1..];
      WithoutCounts(ring[1..], node, v);
    }
  }

  /** Adding a node that is not on a sorted, collision-free ring and removing it again restores
      the ring, however the sort treats equal positions. */
  lemma {:induction false} AddThenRemove(ring: seq<VNode>, added: seq<VNode>, node: string, own: seq<VNode>)
    requires Sorted(ring) && CollisionFree(ring)
    requires forall v :: v in ring ==> v.node != node
    requires forall v :: v in own ==> v.node == node
    requires Sorted(added) && multiset(added) == multiset(ring) + multiset(own)
    ensures Without(added, node) == ring
  {
    var back := Without(added, node);
    WithoutSorted(added, node);
    forall v ensures multiset(back)[v] == multiset(ring)[v] {
      WithoutCounts(added, node, v);
      if v.node == node {
        assert v !in ring;
      } else {
        assert v !in own;
      }
    }
    assert multiset(back) == multiset(ring);
    SortedIsUnique(ring, back);
  }

  /** Hence adding a node moves a key only to the new node. */
  lemma {:induction false} OwnerMovesOnlyToAdded(ring: seq<VNode>, added: seq<VNode>, node: string, own: seq<VNode>,
                              key: nat, alive: set<string>)
    requires Sorted(ring) && CollisionFree(ring)
    requires forall v :: v in ring ==> v.node != node
    requires forall v :: v in own ==> v.node == node
    requires Sorted(added) && multiset(added) == multiset(ring) + multiset(own)
    ensures Replicas(added, key, 1, alive) != Replicas(ring, key, 1, alive)
      <==> Replicas(added, key, 1, alive) == [node]
  {
    AddThenRemove(ring, added, node, own);
    OwnerChangesOnlyIfRemoved(added, key, node, alive);
  }
}
