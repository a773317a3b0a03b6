/** What removing or adding a node does to lookups (src/constellation/dfs/dht.c). */
module Lookups {
  import opened Ring
  import opened Dht

  // `Ring` says what it does to the clockwise walk from a key. Here that is carried over to what
  // the search and the walk of the code find, which may start elsewhere when virtual nodes tie.

  /** The search for `key` ends where the clockwise walk starts. */
  predicate FindsFirst(ring: seq<VNode>, key: nat) {
    ring == [] || IsSuccessor(ring, key, StartIndex(ring, key))
  }

  /** No node has two virtual nodes on the key itself. */
  predicate TiesDiffer(ring: seq<VNode>, key: nat) {
    forall i, j :: 0 <= i < j < |ring| && ring[i].hash == key && ring[j].hash == key ==> ring[i].node != ring[j].node
  }

  // ---------- When a lookup goes clockwise ----------

  lemma {:induction false} MetClockwise(ring: seq<VNode>, key: nat, alive: set<string>)
    requires Sorted(ring) && FindsFirst(ring, key)
    ensures Met(ring, key, alive) == Walk(Clockwise(ring, key), alive)
  {
    hide StartIndex;
    if ring != [] {
      RotationIsClockwise(ring, key, StartIndex(ring, key));
    }
  }

  /** A search that does not end at the successor ends on the key, behind another virtual node
      on the key. */
  lemma {:induction false} MissedTie(ring: seq<VNode>, key: nat) returns (j: nat)
    requires Sorted(ring) && !FindsFirst(ring, key)
    ensures IsSuccessor(ring, key, j) && j < StartIndex(ring, key)
    ensures ring[j].hash == key && ring[StartIndex(ring, key)].hash == key
  {
    SearchSeparates(ring, key, 0, |ring| - 1);
    j := SuccessorExists(ring, key);
  }

  lemma {:induction false} WalkStarts(v: VNode, rest: seq<VNode>, alive: set<string>)
    requires v.node in alive
    ensures Walk([v] + rest, alive) != [] && Walk([v] + rest, alive)[0] == v.node
  {
  }

  /** A lookup meets the live nodes clockwise, whichever they are, if and only if its search ends
      at the successor of the key. */
  lemma {:induction false} MetClockwiseIff(ring: seq<VNode>, key: nat)
    requires Sorted(ring) && TiesDiffer(ring, key)
    ensures FindsFirst(ring, key) <==> forall alive :: Met(ring, key, alive) == Walk(Clockwise(ring, key), alive)
  {
    hide Walk, StartIndex, Clockwise;
    if FindsFirst(ring, key) {
      forall alive ensures Met(ring, key, alive) == Walk(Clockwise(ring, key), alive) {
        MetClockwise(ring, key, alive);
      }
    } else {
      var i := StartIndex(ring, key);
      var j := MissedTie(ring, key);
      var alive := {ring[i].node, ring[j].node};
      RotationIsClockwise(ring, key, j);
      assert Turned(ring, i) == [ring[i]] + (ring[i + 1..] + ring[..i]);
      assert ring[j..] + ring[..j] == [ring[j]] + (ring[j + 1..] + ring[..j]);
      WalkStarts(ring[i], ring[i + 1..] + ring[..i], alive);
      WalkStarts(ring[j], ring[j + 1..] + ring[..j], alive);
      assert Met(ring, key, alive) != Walk(Clockwise(ring, key), alive);
    }
  }

  // ---------- Rings without a node ----------

  /** Two virtual nodes that are left stood in the same order before. */
  lemma {:induction false} WithoutPlaces(ring: seq<VNode>, node: string, i: nat, j: nat) returns (p: nat, q: nat)
    requires i < j < |Without(ring, node)|
    ensures p < q < |ring| && ring[p] == Without(ring, node)[i] && ring[q] == Without(ring, node)[j]
  {
    var rest := ring[1..];
    if ring[0].node == node {
      p, q := WithoutPlaces(rest, node, i, j);
      p, q := p + 1, q + 1;
    } else if i > 0 {
      p, q := WithoutPlaces(rest, node, i - 1, j - 1);
      p, q := p + 1, q + 1;
    } else {
      var v := Without(rest, node)[j - 1];
      WithoutDrops(rest, node, v);
      var k :| 0 <= k < |rest| && rest[k] == v;
      p, q := 0, k + 1;
    }
  }

  lemma {:induction false} WithoutTies(ring: seq<VNode>, node: string, key: nat)
    ensures AtMostOneOn(ring, key) ==> AtMostOneOn(Without(ring, node), key)
    ensures TiesDiffer(ring, key) ==> TiesDiffer(Without(ring, node), key)
  {
    hide Without;
    var left := Without(ring, node);
    forall i, j | 0 <= i < j < |left|
      ensures AtMostOneOn(ring, key) && left[i].hash == key ==> left[j].hash != key
      ensures TiesDiffer(ring, key) && left[i].hash == key && left[j].hash == key ==> left[i].node != left[j].node
    {
      var p, q := WithoutPlaces(ring, node, i, j);
    }
  }

  /** With at most one virtual node on the key, searches end at the successor before and after
      any removal. */
  lemma {:induction false} UntiedFindsFirst(ring: seq<VNode>, key: nat, node: string)
    requires Sorted(ring) && AtMostOneOn(ring, key)
    ensures FindsFirst(ring, key) && FindsFirst(Without(ring, node), key)
  {
    var left := Without(ring, node);
    WithoutSorted(ring, node);
    WithoutTies(ring, node, key);
    if ring != [] { StartIsFirst(ring, key); }
    if left != [] { StartIsFirst(left, key); }
  }

  // ---------- Removing a node ----------

  /** Minimal disruption of lookups: what is met after a removal is what was met before, with
      the node erased. */
  lemma {:induction false} RemovalErases(ring: seq<VNode>, key: nat, node: string, alive: set<string>)
    requires Sorted(ring) && FindsFirst(ring, key) && FindsFirst(Without(ring, node), key)
    ensures Met(Without(ring, node), key, alive) == Erase(Met(ring, key, alive), node)
  {
    hide Walk, Without, Erase, FindsFirst, Clockwise;
    WithoutSorted(ring, node);
    MetClockwise(ring, key, alive);
    MetClockwise(Without(ring, node), key, alive);
    MinimalDisruption(ring, key, node, alive);
  }

  /** Where searches end at the successor before a removal, the removal disrupts no lookup, with
      whatever nodes alive, if and only if they still do afterwards. */
  lemma {:induction false} RemovalErasesIff(ring: seq<VNode>, key: nat, node: string)
    requires Sorted(ring) && FindsFirst(ring, key) && TiesDiffer(ring, key)
    ensures FindsFirst(Without(ring, node), key)
      <==> forall alive :: Met(Without(ring, node), key, alive) == Erase(Met(ring, key, alive), node)
  {
    hide Walk, Without, Erase, FindsFirst, Clockwise, Met;
    var left := Without(ring, node);
    WithoutSorted(ring, node);
    WithoutTies(ring, node, key);
    MetClockwiseIff(left, key);
    forall alive ensures Erase(Met(ring, key, alive), node) == Walk(Clockwise(left, key), alive) {
      MetClockwise(ring, key, alive);
      MinimalDisruption(ring, key, node, alive);
    }
  }

  /** A removal takes the node out of the list a lookup returns and appends at most one other;
      lists without it do not change. */
  lemma {:induction false} RemovalChangesLittle(ring: seq<VNode>, key: nat, count: int, node: string,
          alive: set<string>)
    requires Sorted(ring) && FindsFirst(ring, key) && FindsFirst(Without(ring, node), key)
    ensures var before := Found(ring, key, count, alive);
      var after := Found(Without(ring, node), key, count, alive);
      if node !in before then after == before
      else exists more: seq<string> :: |more| <= 1 && after == Erase(before, node) + more
  {
    hide Walk, Without, Erase, FindsFirst, Clockwise, Take;
    WithoutSorted(ring, node);
    MetClockwise(ring, key, alive);
    MetClockwise(Without(ring, node), key, alive);
    ReplicasChangeLittle(ring, key, count, node, alive);
  }

  /** A key changes owner if and only if its owner is the node removed. */
  lemma {:induction false} RemovalMovesOwner(ring: seq<VNode>, key: nat, node: string, alive: set<string>)
    requires Sorted(ring) && FindsFirst(ring, key) && FindsFirst(Without(ring, node), key)
    ensures Found(Without(ring, node), key, 1, alive) != Found(ring, key, 1, alive)
      <==> Found(ring, key, 1, alive) == [node]
  {
    hide Walk, Without, FindsFirst, Clockwise, Take;
    WithoutSorted(ring, node);
    MetClockwise(ring, key, alive);
    MetClockwise(Without(ring, node), key, alive);
    OwnerChangesOnlyIfRemoved(ring, key, node, alive);
  }

  // ---------- Adding a node ----------

  /** Adding a node changes the owner of a key if and only if the new owner is that node, when
      searches in the new ring end at the successor. */
  lemma {:induction false} AdditionMovesOwner(ring: seq<VNode>, added: seq<VNode>, node: string, own: seq<VNode>,
                              key: nat, alive: set<string>)
    requires Sorted(ring) && CollisionFree(ring)
    requires forall v :: v in ring ==> v.node != node
    requires forall v :: v in own ==> v.node == node
    requires Sorted(added) && multiset(added) == multiset(ring) + multiset(own) && FindsFirst(added, key)
    ensures Found(added, key, 1, alive) != Found(ring, key, 1, alive) <==> Found(added, key, 1, alive) == [node]
  {
    hide FindsFirst, Found;
    AddThenRemove(ring, added, node, own);
    UntiedFindsFirst(ring, key, node);
    RemovalMovesOwner(added, key, node, alive);
  }

  // ---------- A tied ring ----------

  /** Three nodes on one position. The lookup starts at b; once c is removed it starts at a, so
      the key moves although its owner is still there. */
  lemma {:induction false} TiedOwnerMoves()
    ensures var ring := [VNode("a", 0, 5), VNode("b", 0, 5), VNode("c", 0, 5)];
      var alive := {"a", "b", "c"};
      && Sorted(ring) && TiesDiffer(ring, 5)
      && Found(ring, 5, 1, alive) == ["b"] && Found(Without(ring, "c"), 5, 1, alive) == ["a"]
  {
    var a, b, c := VNode("a", 0, 5), VNode("b", 0, 5), VNode("c", 0, 5);
    var ring, alive := [a, b, c], {"a", "b", "c"};
    TiesBreakFirst();
    assert "a"[0] != "b"[0] && "a"[0] != "c"[0] && "b"[0] != "c"[0];
    assert Turned(ring, 1) == [b] + [c, a];
    assert ring[1..] == [b, c] && [b, c][1..] == [c] && [c][1..] == [];
    assert Without(ring, "c") == [a, b];
    assert StartIndex([a, b], 5) == 0;
    assert Turned([a, b], 0) == [a] + [b];
    WalkStarts(b, [c, a], alive);
    WalkStarts(a, [b], alive);
  }
}
