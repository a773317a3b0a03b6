/** The distributed hash table (src/constellation/dfs/dht.c). */
module Dht {
  import opened Options
  import opened Ring

  // The ring is a sorted list of virtual nodes that nodes are added to and removed from in place.

  // ---------- The binary search ----------

  /** Where the search between `left` and `right` ends. */
  function Search(ring: seq<VNode>, key: nat, left: nat, right: int): (r: nat)
    requires left <= right + 1 <= |ring|
    ensures left <= r <= right + 1
    decreases right - left + 1
  {
    if left > right then left
    else
      var mid := (left + right) / 2;
      if key == ring[mid].hash then mid
      else if key < ring[mid].hash then Search(ring, key, left, mid - 1)
      else Search(ring, key, mid + 1, right)
  }

  /** The index at which a lookup of `key` starts, past the end wrapping to 0. */
  function StartIndex(ring: seq<VNode>, key: nat): (i: nat)
    requires ring != []
    ensures i < |ring|
  {
    var i := Search(ring, key, 0, |ring| - 1);
    if i >= |ring| then 0 else i
  }

  /** Everything below index `r` is at most `key`, everything from there on at least, and an
      index that does not hold the key itself has only smaller positions below it. */
  predicate Separates(ring: seq<VNode>, key: nat, r: nat) {
    && r <= |ring|
    && (forall i :: 0 <= i < r ==> ring[i].hash <= key)
    && (forall i :: r <= i < |ring| ==> key <= ring[i].hash)
    && (r == |ring| || ring[r].hash != key ==> forall i :: 0 <= i < r ==> ring[i].hash < key)
  }

  /** The search has still to look between `left` and `right` only. */
  predicate Bracket(ring: seq<VNode>, key: nat, left: nat, right: int) {
    && left <= right + 1 <= |ring|
    && (forall i :: 0 <= i < left ==> ring[i].hash < key)
    && (forall i :: right < i < |ring| ==> key < ring[i].hash)
  }

  lemma {:induction false} SearchSeparates(ring: seq<VNode>, key: nat, left: nat, right: int)
    requires Sorted(ring) && left <= right + 1 <= |ring| && Bracket(ring, key, left, right)
    ensures Separates(ring, key, Search(ring, key, left, right))
    decreases right - left + 1
  {
    hide Separates, Sorted, Bracket;
    if left <= right {
      var mid := (left + right) / 2;
      if key < ring[mid].hash {
        NarrowHigh(ring, key, left, right, mid);
        SearchSeparates(ring, key, left, mid - 1);
      } else if key > ring[mid].hash {
        NarrowLow(ring, key, left, right, mid);
        SearchSeparates(ring, key, mid + 1, right);
      } else {
        HitSeparates(ring, key, mid);
      }
    } else {
      MissSeparates(ring, key, left, right);
    }
  }

  lemma {:induction false} NarrowHigh(ring: seq<VNode>, key: nat, left: nat, right: int, mid: nat)
    requires Sorted(ring) && Bracket(ring, key, left, right) && left <= mid <= right && key < ring[mid].hash
    ensures Bracket(ring, key, left, mid - 1)
  {
    AroundMid(ring, mid);
  }

  lemma {:induction false} NarrowLow(ring: seq<VNode>, key: nat, left: nat, right: int, mid: nat)
    requires Sorted(ring) && Bracket(ring, key, left, right) && left <= mid <= right && key > ring[mid].hash
    ensures Bracket(ring, key, mid + 1, right)
  {
    AroundMid(ring, mid);
  }

  lemma {:induction false} MissSeparates(ring: seq<VNode>, key: nat, left: nat, right: int)
    requires Bracket(ring, key, left, right) && left > right
    ensures Separates(ring, key, left)
  {
  }

  lemma {:induction false} AroundMid(ring: seq<VNode>, mid: nat)
    requires Sorted(ring) && mid < |ring|
    ensures forall i :: 0 <= i < mid ==> ring[i].hash <= ring[mid].hash
    ensures forall i :: mid < i < |ring| ==> ring[mid].hash <= ring[i].hash
  {
  }

  lemma {:induction false} HitSeparates(ring: seq<VNode>, key: nat, mid: nat)
    requires Sorted(ring) && mid < |ring| && ring[mid].hash == key
    ensures Separates(ring, key, mid)
  {
    AroundMid(ring, mid);
  }

  /** On every sorted ring a lookup starts at a virtual node with the least position at or
      after the key, or with the least position of all when there is none. */
  lemma {:induction false} StartIsLeast(ring: seq<VNode>, key: nat)
    requires Sorted(ring) && ring != []
    ensures var h := ring[StartIndex(ring, key)].hash;
      if h >= key then forall v :: v in ring && v.hash >= key ==> h <= v.hash
      else forall v :: v in ring ==> v.hash < key && h <= v.hash
  {
    SearchSeparates(ring, key, 0, |ring| - 1);
    forall v | v in ring ensures exists i :: 0 <= i < |ring| && ring[i] == v {
    }
  }

  /** At most one virtual node sits on the key itself. */
  predicate AtMostOneOn(ring: seq<VNode>, key: nat) {
    forall i, j :: 0 <= i < j < |ring| && ring[i].hash == key ==> ring[j].hash != key
  }

  /** Then it is the first such index. */
  lemma {:induction false} StartIsFirst(ring: seq<VNode>, key: nat)
    requires Sorted(ring) && ring != [] && AtMostOneOn(ring, key)
    ensures IsSuccessor(ring, key, StartIndex(ring, key))
  {
    SearchSeparates(ring, key, 0, |ring| - 1);
  }

  /** Where a binary search for any place from `first` to `last` ends. */
  function FirstProbe(first: nat, last: nat, left: nat, right: int): (r: nat)
    requires left <= first <= last <= right
    ensures first <= r <= last
    decreases right - left
  {
    var mid := (left + right) / 2;
    if mid > last then FirstProbe(first, last, left, mid - 1)
    else if mid < first then FirstProbe(first, last, mid + 1, right)
    else mid
  }

  /** The places from `first` to `last` are those of the virtual nodes on the key itself. */
  predicate TiedFrom(ring: seq<VNode>, key: nat, first: nat, last: nat) {
    && first <= last < |ring|
    && (forall i :: 0 <= i < first ==> ring[i].hash < key)
    && (forall i :: first <= i <= last ==> ring[i].hash == key)
    && (forall i :: last < i < |ring| ==> key < ring[i].hash)
  }

  lemma {:induction false} SearchProbes(ring: seq<VNode>, key: nat, first: nat, last: nat, left: nat, right: int)
    requires TiedFrom(ring, key, first, last) && left <= first && last <= right < |ring|
    ensures Search(ring, key, left, right) == FirstProbe(first, last, left, right)
    decreases right - left
  {
    var mid := (left + right) / 2;
    if mid > last {
      SearchProbes(ring, key, first, last, left, mid - 1);
    } else if mid < first {
      SearchProbes(ring, key, first, last, mid + 1, right);
    }
  }

  /** The probes that a binary search between `left` and `right` makes to reach place `i`. */
  function Probes(left: nat, right: int, i: nat): (n: nat)
    requires left <= i <= right
    ensures n > 0
    decreases right - left
  {
    var mid := (left + right) / 2;
    if i < mid then 1 + Probes(left, mid - 1, i) else if i > mid then 1 + Probes(mid + 1, right, i) else 1
  }

  /** A search between `left` and `right` reaches `first` in fewer probes than the places
      after it up to `last`. */
  predicate ReachedFirst(first: nat, last: nat, left: nat, right: int) {
    left <= first <= last <= right &&
    forall i :: first < i <= last ==> Probes(left, right, first) < Probes(left, right, i)
  }

  lemma {:induction false} FirstProbeIsShallow(first: nat, last: nat, left: nat, right: int)
    requires left <= first <= last <= right
    ensures FirstProbe(first, last, left, right) == first <==> ReachedFirst(first, last, left, right)
    decreases right - left
  {
    var mid := (left + right) / 2;
    if mid > last {
      FirstProbeIsShallow(first, last, left, mid - 1);
      OneProbeMore(first, last, left, right, left, mid - 1);
    } else if mid < first {
      FirstProbeIsShallow(first, last, mid + 1, right);
      OneProbeMore(first, last, left, right, mid + 1, right);
    } else if mid > first {
      assert Probes(left, right, mid) == 1;
    }
  }

  /** The half that holds all places in question is searched like the whole. */
  lemma {:induction false} OneProbeMore(first: nat, last: nat, left: nat, right: int, low: nat, high: int)
    requires left <= low <= first <= last <= high <= right
    requires forall i :: first <= i <= last ==> Probes(left, right, i) == 1 + Probes(low, high, i)
    ensures ReachedFirst(first, last, left, right) <==> ReachedFirst(first, last, low, high)
  {
    hide Probes;
  }

  /** With ties on the key the search starts at the first of them exactly when it reaches that
      place in fewer probes than any of the others, whatever the hashes. */
  lemma {:induction false} TiesStartAtFirst(ring: seq<VNode>, key: nat, first: nat, last: nat)
    requires TiedFrom(ring, key, first, last)
    ensures IsSuccessor(ring, key, StartIndex(ring, key)) <==> ReachedFirst(first, last, 0, |ring| - 1)
  {
    SearchProbes(ring, key, first, last, 0, |ring| - 1);
    FirstProbeIsShallow(first, last, 0, |ring| - 1);
    assert ring[first].hash == key;
  }

  /** Three virtual nodes on one position: the middle one is probed first. */
  lemma {:induction false} TiesBreakFirst()
    ensures var ring := [VNode("a", 0, 5), VNode("b", 0, 5), VNode("c", 0, 5)];
      Sorted(ring) && StartIndex(ring, 5) == 1 && !IsSuccessor(ring, 5, 1)
  {
    var ring := [VNode("a", 0, 5), VNode("b", 0, 5), VNode("c", 0, 5)];
    assert ring[1].hash == 5 && ring[0].hash == 5;
  }

  /** The list a lookup returns: `count` slots, the nodes first and the rest empty. */
  function Slots(nodes: seq<string>, count: nat): (r: seq<Option<string>>)
    requires |nodes| <= count
  {
    seq(count, i requires 0 <= i < count => if i < |nodes| then Some(nodes[i]) else None)
  }

  /** Once around the ring from index `i`. */
  function Turned(ring: seq<VNode>, i: nat): seq<VNode>
    requires i <= |ring|
  {
    ring[i..] + ring[..i]
  }

  /** The live nodes a lookup meets on its way once around any ring. */
  function Met(ring: seq<VNode>, key: nat, alive: set<string>): seq<string> {
    if ring == [] then [] else Walk(Turned(ring, StartIndex(ring, key)), alive)
  }

  /** The nodes it collects. */
  function Found(ring: seq<VNode>, key: nat, count: int, alive: set<string>): seq<string> {
    Take(Met(ring, key, alive), count)
  }

  lemma {:induction false} TurnedNodes(ring: seq<VNode>, i: nat, alive: set<string>)
    requires i <= |ring|
    ensures LiveNodes(Turned(ring, i), alive) == LiveNodes(ring, alive)
  {
    assert ring == ring[..i] + ring[i..];
    assert forall v :: v in Turned(ring, i) <==> v in ring;
  }

  /** On every ring, sorted or not and whatever the ties, they are the first live nodes on the
      way round from where the search ends. */
  lemma {:induction false} FoundPlacement(ring: seq<VNode>, key: nat, count: int, alive: set<string>)
    requires ring != []
    ensures Placed(Turned(ring, StartIndex(ring, key)), LiveNodes(ring, alive), count, Found(ring, key, count, alive))
  {
    hide Placed, Walk, Take, StartIndex, LiveNodes;
    var i := StartIndex(ring, key);
    WalkPlaced(Turned(ring, i), count, alive);
    TurnedNodes(ring, i, alive);
  }

  /** On a sorted ring they are the replicas of the key when the search ends at its successor. */
  lemma {:induction false} FoundAreReplicas(ring: seq<VNode>, key: nat, count: int, alive: set<string>)
    requires ring != [] && Sorted(ring) && IsSuccessor(ring, key, StartIndex(ring, key))
    ensures Found(ring, key, count, alive) == Replicas(ring, key, count, alive)
  {
    RotationIsClockwise(ring, key, StartIndex(ring, key));
  }

  lemma {:induction false} WalkStep(ring: seq<VNode>, i: nat, alive: set<string>)
    requires i < |ring|
    ensures Walk(ring[i..], alive)
         == if ring[i].node in alive then [ring[i].node] + Walk(ring[i + 1..], alive - {ring[i].node})
            else Walk(ring[i + 1..], alive)
  {
    assert ring[i..][1..] == ring[i + 1..];
  }

  lemma {:induction false} Around(ring: seq<VNode>, start: nat, i: nat)
    requires start < |ring| && i < |ring|
    ensures ring[(start + i) % |ring|] == (ring[start..] + ring[..start])[i]
  {
    Remainder(start + i, |ring|);
  }

  lemma {:induction false} Remainder(k: nat, n: nat)
    requires k < 2 * n
    ensures k % n == if k < n then k else k - n
  {
  }

  lemma {:induction false} InsertKeepsSorted(sorted: seq<VNode>, p: nat, v: VNode)
    requires Sorted(sorted) && p <= |sorted|
    requires p > 0 ==> sorted[p - 1].hash <= v.hash
    requires p < |sorted| ==> v.hash <= sorted[p].hash
    ensures Sorted(sorted[..p] + [v] + sorted[p..])
  {
    hide Sorted;
    var low, high := sorted[..p], sorted[p..];
    SlicesSorted(sorted, p);
    forall u | u in low ensures u.hash <= v.hash {
      var i :| 0 <= i < p && low[i] == u;
      Ordered(sorted, i, p - 1);
    }
    forall u | u in high ensures v.hash <= u.hash {
      var i :| 0 <= i < |high| && high[i] == u;
      Ordered(sorted, p, p + i);
    }
    JoinSorted(low, v, high);
  }

  lemma {:induction false} InsertKeepsAll(sorted: seq<VNode>, p: nat, v: VNode)
    requires p <= |sorted|
    ensures multiset(sorted[..p] + [v] + sorted[p..]) == multiset(sorted) + multiset{v}
  {
    assert sorted == sorted[..p] + sorted[p..];
  }

  lemma {:induction false} Ordered(ring: seq<VNode>, i: nat, j: nat)
    requires Sorted(ring) && i <= j < |ring|
    ensures ring[i].hash <= ring[j].hash
  {
  }

  lemma {:induction false} SlicesSorted(ring: seq<VNode>, p: nat)
    requires Sorted(ring) && p <= |ring|
    ensures Sorted(ring[..p]) && Sorted(ring[p..])
  {
  }

  lemma {:induction false} JoinSorted(low: seq<VNode>, v: VNode, high: seq<VNode>)
    requires Sorted(low) && Sorted(high)
    requires (forall u :: u in low ==> u.hash <= v.hash) && forall u :: u in high ==> v.hash <= u.hash
    ensures Sorted(low + [v] + high)
  {
    var r := low + [v] + high;
    forall i, j | 0 <= i < j < |r| ensures r[i].hash <= r[j].hash {
      if i < |low| { assert r[i] in low; }
      if j > |low| { assert r[j] in high; }
    }
  }

  lemma {:induction false} CollectStep(around: seq<VNode>, i: nat, seen: seq<string>, left: set<string>, count: int)
    requires i < |around| && |seen| < count
    ensures var x := around[i].node;
      seen + Take(Walk(around[i..], left), count - |seen|)
        == if x in left then (seen + [x]) + Take(Walk(around[i + 1..], left - {x}), count - |seen| - 1)
           else seen + Take(Walk(around[i + 1..], left), count - |seen|)
  {
    WalkStep(around, i, left);
    var x := around[i].node;
    if x in left { TakeStep(seen, x, Walk(around[i + 1..], left - {x}), count); }
  }

  lemma {:induction false} CollectedAll(seen: seq<string>, rest: seq<VNode>, left: set<string>, room: int)
    requires rest == [] || room <= 0
    ensures seen + Take(Walk(rest, left), room) == seen
  {
  }

  lemma {:induction false} RemoveStep(ring: seq<VNode>, i: nat, node: string)
    requires i < |ring|
    ensures var shifted := ring[..i] + ring[i + 1..];
      ring[..i] + Without(ring[i..], node)
        == if ring[i].node == node then shifted[..i] + Without(shifted[i..], node)
           else ring[..i + 1] + Without(ring[i + 1..], node)
  {
    var shifted := ring[..i] + ring[i + 1..];
    assert ring[i..] == [ring[i]] + ring[i + 1..];
    ConsWithout(ring[i], ring[i + 1..], node);
    assert shifted[..i] == ring[..i] && shifted[i..] == ring[i + 1..];
    assert ring[..i + 1] == ring[..i] + [ring[i]];
  }

  class HashRing {
    var vnodes: seq<VNode>
    var isSorted: bool
    const vnodesPerNode: int
    const hashOf: (string, nat) -> nat

    predicate Valid()
      reads this
    {
      isSorted ==> Sorted(vnodes)
    }

    constructor (vnodesPerNode: int, hashOf: (string, nat) -> nat)
      ensures Valid() && vnodes == [] && isSorted
      ensures this.vnodesPerNode == vnodesPerNode && this.hashOf == hashOf
    {
      vnodes := [];
      isSorted := true;
      this.vnodesPerNode := vnodesPerNode;
      this.hashOf := hashOf;
    }

    /** What the library sort promises; equal positions may come out in any order. */
    method SortRing()
      requires Valid()
      modifies this
      ensures Valid() && isSorted && multiset(vnodes) == multiset(old(vnodes))
    {
      if isSorted { return; }
      var sorted: seq<VNode> := [];
      var i := 0;
      while i < |vnodes|
        invariant i <= |vnodes| && vnodes == old(vnodes)
        invariant Sorted(sorted) && multiset(sorted) == multiset(vnodes[..i])
      {
        var v := vnodes[i];
        sorted := Insert(sorted, v);
        assert vnodes[..i + 1] == vnodes[..i] + [v];
        i := i + 1;
      }
      assert vnodes[..i] == vnodes;
      vnodes := sorted;
      isSorted := true;
    }

    static method Insert(sorted: seq<VNode>, v: VNode) returns (r: seq<VNode>)
      requires Sorted(sorted)
      ensures Sorted(r) && multiset(r) == multiset(sorted) + multiset{v}
    {
      var p: int := |sorted|;
      while p > 0 && sorted[p - 1].hash > v.hash
        invariant 0 <= p <= |sorted|
        invariant p < |sorted| ==> sorted[p].hash > v.hash
      {
        p := p - 1;
      }
      hide Sorted;
      InsertKeepsSorted(sorted, p, v);
      InsertKeepsAll(sorted, p, v);
      r := sorted[..p] + [v] + sorted[p..];
    }

    method AddNode(node: string)
      requires Valid()
      modifies this
      ensures Valid() && isSorted
      ensures multiset(vnodes) == multiset(old(vnodes)) + multiset(VNodesOf(node, PerNode(), hashOf))
    {
      AppendVNodes(node);
      isSorted := false;
      SortRing();
    }

    function PerNode(): nat {
      if vnodesPerNode < 0 then 0 else vnodesPerNode
    }

    method AppendVNodes(node: string)
      modifies this`vnodes
      ensures vnodes == old(vnodes) + VNodesOf(node, PerNode(), hashOf)
    {
      var i := 0;
      ghost var own: seq<VNode> := [];
      while i < vnodesPerNode
        invariant 0 <= i <= PerNode()
        invariant own == VNodesOf(node, i, hashOf)
        invariant vnodes == old(vnodes) + own
      {
        var v := VNode(node, i, hashOf(node, i));
        own := own + [v];
        vnodes := vnodes + [v];
        i := i + 1;
      }
    }

    method RemoveNode(node: string) returns (removed: nat)
      requires Valid()
      modifies this`vnodes
      ensures Valid()
      ensures vnodes == Without(old(vnodes), node)
      ensures removed == |old(vnodes)| - |vnodes|
    {
      removed := 0;
      var i := 0;
      while i < |vnodes|
        invariant i <= |vnodes| && removed == |old(vnodes)| - |vnodes|
        invariant Without(old(vnodes), node) == vnodes[..i] + Without(vnodes[i..], node)
        decreases |vnodes| - i
      {
        RemoveStep(vnodes, i, node);
        if vnodes[i].node == node {
          vnodes := vnodes[..i] + vnodes[i + 1..];
          removed := removed + 1;
        } else {
          i := i + 1;
        }
      }
      assert vnodes[..i] == vnodes;
      assert vnodes == Without(old(vnodes), node);
      if isSorted { WithoutSorted(old(vnodes), node); }
    }

    method FindVnode(key: nat) returns (index: Option<nat>)
      ensures index == if vnodes == [] then None else Some(StartIndex(vnodes, key))
    {
      if |vnodes| == 0 { return None; }
      var left: int := 0;
      var right: int := |vnodes| - 1;
      while left <= right
        invariant 0 <= left <= right + 1 <= |vnodes|
        invariant Search(vnodes, key, left, right) == Search(vnodes, key, 0, |vnodes| - 1)
        decreases right - left + 1
      {
        var mid := (left + right) / 2;
        if key == vnodes[mid].hash {
          return Some(mid);
        } else if key < vnodes[mid].hash {
          right := mid - 1;
        } else {
          left := mid + 1;
        }
      }
      if left >= |vnodes| {
        return Some(0);
      }
      index := Some(left);
    }

    method FindReplicas(key: nat, count: int, alive: set<string>) returns (r: Option<seq<Option<string>>>)
      ensures vnodes == [] || count <= 0 ==> r == None
      ensures vnodes != [] && count > 0 ==>
        var found := Found(vnodes, key, count, alive);
        && r == (if found == [] then None else Some(Slots(found, count)))
        && Placed(Turned(vnodes, StartIndex(vnodes, key)), LiveNodes(vnodes, alive), count, found)
        && (Sorted(vnodes) && IsSuccessor(vnodes, key, StartIndex(vnodes, key)) ==>
              found == Replicas(vnodes, key, count, alive))
    {
      if |vnodes| == 0 || count <= 0 { return None; }
      var start := FindVnode(key);
      var found := CollectFrom(start.value, count, alive);
      FoundPlacement(vnodes, key, count, alive);
      if Sorted(vnodes) && IsSuccessor(vnodes, key, StartIndex(vnodes, key)) {
        FoundAreReplicas(vnodes, key, count, alive);
      }
      r := if |found| == 0 then None else Some(Slots(found, count));
    }

    /** The first `count` distinct live nodes on the way round from index `start`. */
    method CollectFrom(start: nat, count: int, alive: set<string>) returns (seen: seq<string>)
      requires start < |vnodes| && count > 0
      ensures seen == Take(Walk(Turned(vnodes, start), alive), count)
    {
      hide Walk, Take;
      seen := [];
      var i := 0;
      ghost var around := Turned(vnodes, start);
      ghost var left := alive;
      assert around[0..] == around;
      while i < |vnodes| && |seen| < count
        invariant i <= |vnodes| && |seen| <= count
        invariant forall x :: x in left <==> x in alive && x !in seen
        invariant Take(Walk(around, alive), count)
          == seen + Take(Walk(around[i..], left), count - |seen|)
        decreases |vnodes| - i
      {
        var current := vnodes[(start + i) % |vnodes|];
        Around(vnodes, start, i);
        CollectStep(around, i, seen, left, count);
        var alreadySeen := AlreadySeen(seen, current.node);
        if !alreadySeen && current.node in alive {
          seen := seen + [current.node];
          left := left - {current.node};
        }
        i := i + 1;
      }
      CollectedAll(seen, around[i..], left, count - |seen|);
    }

    method AlreadySeen(seen: seq<string>, node: string) returns (found: bool)
      ensures found == (node in seen)
    {
      found := false;
      var j := 0;
      while j < |seen|
        invariant j <= |seen| && !found && node !in seen[..j]
      {
        if seen[j] == node { return true; }
        j := j + 1;
      }
    }

    /** The nodes for a file, and their number: as many as asked for or as there are live ones. */
    method LocateFile(key: nat, factor: int, alive: set<string>)
      returns (replicas: Option<seq<Option<string>>>, count: nat)
      ensures var live := LiveNodes(vnodes, alive);
        count == if factor <= 0 then 0 else if factor <= |live| then factor else |live|
      ensures replicas
        == if count == 0 then None else Some(Slots(Found(vnodes, key, factor, alive), factor))
    {
      hide Found, Placed, LiveNodes, Turned, StartIndex, Sorted, IsSuccessor;
      replicas := FindReplicas(key, factor, alive);
      FoundSize(vnodes, key, factor, alive);
      count := 0;
      if replicas.Some? {
        ghost var nodes := Found(vnodes, key, factor, alive);
        var i := 0;
        while i < factor
          invariant 0 <= i <= factor
          invariant count == if i < |nodes| then i else |nodes|
        {
          if replicas.value[i].Some? {
            count := count + 1;
          }
          i := i + 1;
        }
      }
    }
  }

  lemma {:induction false} FoundSize(ring: seq<VNode>, key: nat, count: int, alive: set<string>)
    ensures var live := LiveNodes(ring, alive);
      |Found(ring, key, count, alive)| == if count <= 0 then 0 else if count <= |live| then count else |live|
    ensures ring == [] ==> Found(ring, key, count, alive) == []
  {
    if ring == [] {
      assert LiveNodes(ring, alive) == {};
    } else {
      hide Found, LiveNodes, NoRepeats, FirstPlace;
      FoundPlacement(ring, key, count, alive);
    }
  }

  lemma {:induction false} TakeStep(seen: seq<string>, x: string, tail: seq<string>, count: int)
    requires |seen| < count
    ensures seen + Take([x] + tail, count - |seen|) == (seen + [x]) + Take(tail, count - |seen| - 1)
  {
    assert Take([x] + tail, count - |seen|) == [x] + Take(tail, count - |seen| - 1);
  }
}
