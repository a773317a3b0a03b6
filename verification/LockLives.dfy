/** How long a lock stays in the table (src/constellation/dfs/locks.c). */
module LockLives {
  import opened LockRuns

  /** What takes lock `l` away: its release, the unlocking of its resource, and a cleanup after it
      has expired. A lock without an expiry never expires. */
  predicate Takes(a: Action, l: Lock) {
    match a
    case Release(id) => id == l.id
    case ForceUnlock(resource) => resource == l.resource
    case Cleanup(now) => l.expiresAt > 0 && now > l.expiresAt
    case _ => false
  }

  /** A renewal of this lock by a positive time moves its expiry, if it has one, by whole seconds.
      Nothing else changes a lock. */
  function Renewed(a: Action, s: System, l: Lock): Lock {
    if a.Renew? && a.place < |s.locks| && s.locks[a.place] == l && a.additionalMs > 0 && l.expiresAt > 0
    then l.(expiresAt := l.expiresAt + a.additionalMs / 1000) else l
  }

  /** Only new locks draw an id, which is fresh when no lock of the table has it. */
  lemma {:induction false} FreshIff(s: System, a: Action)
    ensures Fresh(s, a) <==>
      match a
      case Acquire(_, id, _) => forall l :: l in s.locks ==> l.id != id
      case Wake(_, id, _) => forall l :: l in s.locks ==> l.id != id
      case _ => true
  {
    forall i | 0 <= i < |s.locks| ensures s.locks[i] in s.locks { }
  }

  // ---------- The removals keep everything else ----------

  lemma {:induction false} MembersLeft(locks: seq<Lock>, l: Lock, id: string, resource: string, now: int)
    ensures l in DropResource(locks, resource) <==> l in locks && l.resource != resource
    ensures l in DropExpired(locks, now) <==> l in locks && !(l.expiresAt > 0 && now > l.expiresAt)
    ensures l.id != id ==> (l in DropFirst(locks, id) <==> l in locks)
    ensures l in DropFirst(locks, id) ==> l in locks
  {
    if locks != [] {
      MembersLeft(locks[1..], l, id, resource, now);
      assert locks == [locks[0]] + locks[1..];
    }
  }

  lemma {:induction false} ReleaseTakes(locks: seq<Lock>, id: string)
    requires UniqueIds(locks)
    ensures forall l :: l in DropFirst(locks, id) ==> l.id != id
  {
    if locks != [] && locks[0].id != id {
      forall i, j | 0 <= i < j < |locks[1..]| ensures locks[1..][i].id != locks[1..][j].id {
        assert locks[1..][i] == locks[i + 1] && locks[1..][j] == locks[j + 1];
      }
      ReleaseTakes(locks[1..], id);
    } else if locks != [] {
      forall l | l in locks[1..] ensures l.id != id {
        var k :| 0 <= k < |locks[1..]| && locks[1..][k] == l;
        assert locks[k + 1] == l;
      }
    }
  }

  lemma {:induction false} SameLock(locks: seq<Lock>, l: Lock, k: Lock)
    requires UniqueIds(locks) && l in locks && k in locks && l.id == k.id
    ensures l == k
  {
    var i :| 0 <= i < |locks| && locks[i] == l;
    var j :| 0 <= j < |locks| && locks[j] == k;
  }

  lemma {:induction false} InUse(locks: seq<Lock>, l: Lock)
    requires l in locks
    ensures HasId(locks, l.id)
  {
    var i :| 0 <= i < |locks| && locks[i] == l;
  }

  // ---------- One action ----------

  /** The lock with id `id`, if there is one, is this one. */
  predicate OnlyOf(locks: seq<Lock>, l: Lock) {
    l in locks && forall k :: k in locks && k.id == l.id ==> k == l
  }

  lemma {:induction false} RenewKeeps(s: System, a: Action, rescan: bool, l: Lock)
    requires UniqueIds(s.locks) && l in s.locks && a.Renew?
    ensures OnlyOf(Step(s, a, rescan).locks, Renewed(a, s, l))
  {
    var (locks, after, r) := (s.locks, Step(s, a, rescan).locks, Renewed(a, s, l));
    var i :| 0 <= i < |locks| && locks[i] == l;
    assert after[i] == r by {
      if a.place < |locks| && a.place != i { assert locks[a.place].id != l.id; }
    }
    RenewUnique(locks, a.place, a.additionalMs);
    forall k | k in after && k.id == r.id ensures k == r { SameLock(after, k, r); }
  }

  lemma {:induction false} GrantKeeps(s: System, a: Action, rescan: bool, l: Lock)
    requires UniqueIds(s.locks) && Fresh(s, a) && l in s.locks && (a.Acquire? || a.Wake? || a.TimeOut?)
    ensures OnlyOf(Step(s, a, rescan).locks, l)
  {
    var after := Step(s, a, rescan).locks;
    InUse(s.locks, l);
    forall k | k in after && k.id == l.id ensures k == l { SameLock(s.locks, k, l); }
  }

  /** One action with a fresh id takes away exactly the locks that it is meant to; every other
      lock stays, renewed at most. */
  lemma {:induction false} StepKeepsOrTakes(s: System, a: Action, rescan: bool, l: Lock)
    requires UniqueIds(s.locks) && Fresh(s, a) && l in s.locks
    ensures var after := Step(s, a, rescan).locks;
      if Takes(a, l) then !HasId(after, l.id) else OnlyOf(after, Renewed(a, s, l))
  {
    hide UniqueIds, Fresh, HasId, DropFirst, DropExpired, DropResource;
    var after := Step(s, a, rescan).locks;
    if a.Renew? {
      RenewKeeps(s, a, rescan, l);
    } else if a.Acquire? || a.Wake? || a.TimeOut? {
      GrantKeeps(s, a, rescan, l);
    } else {
      TakesOrLeaves(s, a, rescan, l);
      if HasId(after, l.id) { SomeLock(after, l.id); }
    }
  }

  lemma {:induction false} SomeLock(locks: seq<Lock>, id: string)
    requires HasId(locks, id)
    ensures exists l :: l in locks && l.id == id
  {
    var i :| 0 <= i < |locks| && locks[i].id == id;
    assert locks[i] in locks;
  }

  lemma {:induction false} TakesOrLeaves(s: System, a: Action, rescan: bool, l: Lock)
    requires UniqueIds(s.locks) && l in s.locks && (a.Release? || a.Cleanup? || a.ForceUnlock?)
    ensures var after := Step(s, a, rescan).locks;
      && (l in after <==> !Takes(a, l))
      && forall k :: k in after && k.id == l.id ==> k == l
  {
    hide UniqueIds, DropFirst, DropExpired, DropResource;
    var after := Step(s, a, rescan).locks;
    forall k | k in after && k.id == l.id ensures k == l {
      match a {
        case Release(id) => MembersLeft(s.locks, k, id, "", 0);
        case Cleanup(now) => MembersLeft(s.locks, k, "", "", now);
        case ForceUnlock(resource) => MembersLeft(s.locks, k, "", resource, 0);
      }
      SameLock(s.locks, k, l);
    }
    match a
    case Release(id) =>
      MembersLeft(s.locks, l, id, "", 0);
      ReleaseTakes(s.locks, id);
    case Cleanup(now) => MembersLeft(s.locks, l, "", "", now);
    case ForceUnlock(resource) => MembersLeft(s.locks, l, "", resource, 0);
  }

  // ---------- Whole runs ----------

  /** Lock `l` as the actions leave it; nothing when one of them takes it away. */
  function Survivor(s: System, actions: seq<Action>, rescan: bool, l: Lock): seq<Lock>
    decreases |actions|
  {
    if actions == [] then [l]
    else if Takes(actions[0], l) then []
    else Survivor(Step(s, actions[0], rescan), actions[1..], rescan, Renewed(actions[0], s, l))
  }

  /** In a run with fresh ids a lock is in the table until an action takes it away, renewed by the
      renewals of it and otherwise as it was granted. */
  lemma {:induction false} LivesUntilTaken(s: System, actions: seq<Action>, rescan: bool, l: Lock)
    requires UniqueIds(s.locks) && AlwaysFresh(s, actions, rescan) && OnlyOf(s.locks, l)
    ensures var left := Survivor(s, actions, rescan, l);
      if left != [] then OnlyOf(Run(s, actions, rescan).locks, left[0])
      else exists k :: 0 <= k < |actions| && TakenAt(s, actions, rescan, l.id, k)
    decreases |actions|
  {
    hide UniqueIds, Fresh, Step, Takes, Renewed, OnlyOf;
    if actions != [] {
      var (a, rest) := (actions[0], actions[1..]);
      var next := Step(s, a, rescan);
      assert l in s.locks by { OnlyOfIn(s.locks, l); }
      StepKeepsOrTakes(s, a, rescan, l);
      StepUnique(s, a, rescan);
      if Takes(a, l) {
        RunFirst(s, actions, rescan, 1);
        assert TakenAt(s, actions, rescan, l.id, 0);
      } else {
        var l' := Renewed(a, s, l);
        RenewedId(a, s, l);
        LivesUntilTaken(next, rest, rescan, l');
        if Survivor(next, rest, rescan, l') == [] {
          var k :| 0 <= k < |rest| && TakenAt(next, rest, rescan, l.id, k);
          RunFirst(s, actions, rescan, k + 1 + 1);
          assert TakenAt(s, actions, rescan, l.id, k + 1);
        }
      }
    }
  }

  /** After action number `k` no lock has the id any more. */
  predicate TakenAt(s: System, actions: seq<Action>, rescan: bool, id: string, k: nat) {
    k < |actions| && !HasId(Run(s, actions[..k + 1], rescan).locks, id)
  }

  lemma {:induction false} RunFirst(s: System, actions: seq<Action>, rescan: bool, k: nat)
    requires 0 < k <= |actions|
    ensures Run(s, actions[..k], rescan) == Run(Step(s, actions[0], rescan), actions[1..][..k - 1], rescan)
    ensures k == 1 ==> Run(s, actions[..k], rescan) == Step(s, actions[0], rescan)
  {
    hide Step;
    assert actions[..k][0] == actions[0] && actions[..k][1..] == actions[1..][..k - 1];
    if k == 1 { assert actions[..k][1..] == []; }
  }

  lemma {:induction false} OnlyOfIn(locks: seq<Lock>, l: Lock)
    requires OnlyOf(locks, l)
    ensures l in locks
  {
  }

  lemma {:induction false} RenewedId(a: Action, s: System, l: Lock)
    ensures Renewed(a, s, l).id == l.id
  {
  }

  /** A lock granted at `now` with a positive timeout goes with the first cleanup that comes later
      than the whole seconds of its timeout, and one granted without goes with none; before that it
      is exclusive or shared, and on the resource, as asked for. */
  lemma {:induction false} GrantedFor(s: System, r: Request, id: string, now: int, rescan: bool, later: int)
    requires Compatible(s.locks, r.resource, r.mode) && now > 0
    ensures var locks := Step(s, Acquire(r, id, now), rescan).locks;
      && |locks| == |s.locks| + 1 && locks[..|s.locks|] == s.locks
      && var l := locks[|s.locks|];
      && l.id == id && l.resource == r.resource && l.mode == r.mode && l.isAcquired && l.acquiredAt == now
      && (Takes(Cleanup(later), l) <==> r.timeoutMs > 0 && later > now + r.timeoutMs / 1000)
  {
  }

  /** A call that finds its resource taken changes no lock: without a timeout it gives up and with
      one, also with a negative one, it waits behind those that wait already. */
  lemma {:induction false} WaitsOrGivesUp(s: System, r: Request, id: string, now: int, rescan: bool)
    requires !Compatible(s.locks, r.resource, r.mode)
    ensures var t := Step(s, Acquire(r, id, now), rescan);
      t.locks == s.locks && t.waiting == if r.timeoutMs == 0 then s.waiting else s.waiting + [r]
  {
  }
}
