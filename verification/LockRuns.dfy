/** The lock table and its callers over time (src/constellation/dfs/locks.c). */
module LockRuns {
  // The table as a value and as a state machine of calls and waiting callers. Times are in seconds,
  // timeouts in milliseconds.

  datatype Mode = Shared | Exclusive

  datatype Lock = Lock(id: string, resource: string, mode: Mode, acquiredAt: int, expiresAt: int, isAcquired: bool)

  /** The scan finds nothing in the way of a lock on `resource` in `mode`. */
  predicate Compatible(locks: seq<Lock>, resource: string, mode: Mode) {
    forall l :: l in locks && l.resource == resource && l.isAcquired ==> mode == Shared && l.mode == Shared
  }

  /** No resource has an exclusive lock together with any other lock. */
  predicate NoConflict(locks: seq<Lock>) {
    forall i, j :: 0 <= i < j < |locks| && locks[i].resource == locks[j].resource
      ==> locks[i].mode == Shared && locks[j].mode == Shared
  }

  predicate AllAcquired(locks: seq<Lock>) {
    forall l :: l in locks ==> l.isAcquired
  }

  function NewLock(id: string, resource: string, mode: Mode, timeoutMs: int, now: int): Lock {
    Lock(id, resource, mode, now, if timeoutMs > 0 then now + timeoutMs / 1000 else 0, true)
  }

  // ---------- Removals ----------

  function DropResource(locks: seq<Lock>, resource: string): seq<Lock> {
    if locks == [] then []
    else (if locks[0].resource != resource then [locks[0]] else []) + DropResource(locks[1..], resource)
  }

  predicate Expired(l: Lock, now: int) {
    0 < l.expiresAt < now
  }

  function DropExpired(locks: seq<Lock>, now: int): seq<Lock> {
    if locks == [] then []
    else (if !Expired(locks[0], now) then [locks[0]] else []) + DropExpired(locks[1..], now)
  }

  function DropId(locks: seq<Lock>, id: string): seq<Lock> {
    if locks == [] then []
    else (if locks[0].id != id then [locks[0]] else []) + DropId(locks[1..], id)
  }

  /** What a release does: only the first lock with the id goes. */
  function DropFirst(locks: seq<Lock>, id: string): seq<Lock> {
    if locks == [] then []
    else if locks[0].id == id then locks[1..]
    else [locks[0]] + DropFirst(locks[1..], id)
  }

  predicate HasId(locks: seq<Lock>, id: string) {
    exists i :: 0 <= i < |locks| && locks[i].id == id
  }

  lemma {:induction false} DropIdAbsent(locks: seq<Lock>, id: string)
    ensures DropId(locks, id) == locks <==> !HasId(locks, id)
    ensures |DropId(locks, id)| <= |locks|
  {
    if locks != [] {
      var rest := locks[1..];
      DropIdAbsent(rest, id);
      assert locks == [locks[0]] + rest;
      if HasId(rest, id) {
        var i :| 0 <= i < |rest| && rest[i].id == id;
        assert locks[i + 1].id == id;
      }
      if HasId(locks, id) && locks[0].id != id {
        var i :| 0 <= i < |locks| && locks[i].id == id;
        assert rest[i - 1].id == id;
      }
      if locks[0].id == id {
        assert locks[0].id == id;
      } else {
        assert DropId(locks, id)[1..] == DropId(rest, id);
      }
    }
  }

  /** No two locks share the id. */
  predicate AtMostOne(locks: seq<Lock>, id: string) {
    forall i, j :: 0 <= i < j < |locks| ==> locks[i].id != id || locks[j].id != id
  }

  lemma {:induction false} AtMostOneBelow(locks: seq<Lock>, id: string)
    requires locks != [] && locks[0].id != id
    ensures AtMostOne(locks, id) <==> AtMostOne(locks[1..], id)
  {
    var rest := locks[1..];
    if AtMostOne(rest, id) {
      forall i, j | 0 <= i < j < |locks| ensures locks[i].id != id || locks[j].id != id {
        if i > 0 { assert rest[i - 1].id != id || rest[j - 1].id != id; }
      }
    }
    if AtMostOne(locks, id) {
      forall i, j | 0 <= i < j < |rest| ensures rest[i].id != id || rest[j].id != id {
        assert locks[i + 1].id != id || locks[j + 1].id != id;
      }
    }
  }

  /** A release removes all locks with its id exactly when there is at most one. */
  lemma {:induction false} ReleaseIsExact(locks: seq<Lock>, id: string)
    ensures DropFirst(locks, id) == DropId(locks, id) <==> AtMostOne(locks, id)
  {
    if locks != [] {
      var rest := locks[1..];
      assert locks == [locks[0]] + rest;
      if locks[0].id == id {
        DropIdAbsent(rest, id);
        if HasId(rest, id) {
          var i :| 0 <= i < |rest| && rest[i].id == id;
          assert locks[i + 1].id == id && locks[0].id == id;
        }
      } else {
        ReleaseIsExact(rest, id);
        AtMostOneBelow(locks, id);
        hide AtMostOne;
        assert DropFirst(locks, id)[1..] == DropFirst(rest, id);
        assert DropId(locks, id)[1..] == DropId(rest, id);
      }
    }
  }

  // ---------- Which lock a release drops ----------

  /** The place of the first lock with the id, or the length. */
  function PlaceOf(locks: seq<Lock>, id: string): (p: nat)
    ensures p <= |locks| && (p < |locks| ==> locks[p].id == id)
    ensures forall i :: 0 <= i < p ==> locks[i].id != id
  {
    if locks == [] || locks[0].id == id then 0 else 1 + PlaceOf(locks[1..], id)
  }

  function Without(locks: seq<Lock>, p: nat): seq<Lock>
    requires p < |locks|
  {
    locks[..p] + locks[p + 1..]
  }

  lemma {:induction false} WithoutCons(l: Lock, rest: seq<Lock>, p: nat)
    requires p < |rest|
    ensures Without([l] + rest, p + 1) == [l] + Without(rest, p)
  {
  }

  lemma {:induction false} DropsFirstPlace(locks: seq<Lock>, id: string)
    requires PlaceOf(locks, id) < |locks|
    ensures DropFirst(locks, id) == Without(locks, PlaceOf(locks, id))
  {
    if locks[0].id == id {
      assert locks[..0] + locks[1..] == locks[1..];
    } else {
      hide Without;
      DropsFirstPlace(locks[1..], id);
      WithoutCons(locks[0], locks[1..], PlaceOf(locks[1..], id));
      assert locks == [locks[0]] + locks[1..];
    }
  }

  /** Some lock before place `p` has the id of the one there. */
  predicate Shadowed(locks: seq<Lock>, p: nat)
    requires p < |locks|
  {
    exists i :: 0 <= i < p && locks[i].id == locks[p].id
  }

  /** The caller's lock at place `p` is the one its release drops if and only if no lock before it
      has the same id; otherwise that lock is dropped and the caller's own stays, one place down. */
  lemma {:induction false} ReleaseDropsOwnIff(locks: seq<Lock>, p: nat)
    requires p < |locks|
    ensures var left := DropFirst(locks, locks[p].id);
      var q := PlaceOf(locks, locks[p].id);
      && left == Without(locks, q) && (q == p <==> !Shadowed(locks, p))
      && (Shadowed(locks, p) ==> q < p && left[p - 1] == locks[p])
  {
    DropsFirstPlace(locks, locks[p].id);
  }

  // ---------- Runs ----------

  /** A caller blocked on the condition variable. */
  datatype Request = Request(resource: string, mode: Mode, timeoutMs: int)

  datatype System = System(locks: seq<Lock>, waiting: seq<Request>)

  datatype Action =
    | Acquire(request: Request, id: string, now: int)
    | Wake(waiter: nat, id: string, now: int)       // signalled or spuriously
    | TimeOut(waiter: nat)
    | Release(id: string)
    | Renew(place: nat, additionalMs: int)
    | Cleanup(now: int)
    | ForceUnlock(resource: string)

  function Grant(s: System, r: Request, id: string, now: int): System {
    s.(locks := s.locks + [NewLock(id, r.resource, r.mode, r.timeoutMs, now)])
  }

  function RemoveAt(rs: seq<Request>, i: nat): seq<Request>
    requires i < |rs|
  {
    rs[..i] + rs[i + 1..]
  }

  function RenewOne(l: Lock, additionalMs: int): Lock {
    if l.expiresAt > 0 then l.(expiresAt := l.expiresAt + additionalMs / 1000) else l
  }

  /** The caller's lock, at place `i`, is kept for longer. */
  function RenewAt(locks: seq<Lock>, i: nat, additionalMs: int): (r: seq<Lock>)
    ensures |r| == |locks|
  {
    if i < |locks| && additionalMs > 0 then locks[i := RenewOne(locks[i], additionalMs)] else locks
  }

  /** A caller scans the table and gets its lock, gives up, or waits. */
  function Scan(s: System, r: Request, id: string, now: int): System {
    if Compatible(s.locks, r.resource, r.mode) then Grant(s, r, id, now)
    else if r.timeoutMs == 0 then s
    else s.(waiting := s.waiting + [r])
  }

  /** With `rescan` a woken caller scans again; without it, as the code stands, it goes on to
      take the lock. */
  function Step(s: System, a: Action, rescan: bool): System {
    match a
    case Acquire(r, id, now) => Scan(s, r, id, now)
    case Wake(k, id, now) =>
      if k >= |s.waiting| then s
      else
        var r := s.waiting[k];
        var s' := s.(waiting := RemoveAt(s.waiting, k));
        if rescan then Scan(s', r, id, now) else Grant(s', r, id, now)
    case TimeOut(k) => if k >= |s.waiting| then s else s.(waiting := RemoveAt(s.waiting, k))
    case Release(id) => s.(locks := DropFirst(s.locks, id))
    case Renew(i, ms) => s.(locks := RenewAt(s.locks, i, ms))
    case Cleanup(now) => s.(locks := DropExpired(s.locks, now))
    case ForceUnlock(resource) => s.(locks := DropResource(s.locks, resource))
  }

  function Run(s: System, actions: seq<Action>, rescan: bool): System
    decreases |actions|
  {
    if actions == [] then s else Run(Step(s, actions[0], rescan), actions[1..], rescan)
  }

  predicate Safe(s: System) {
    NoConflict(s.locks) && AllAcquired(s.locks)
  }

  /** Adding a lock to a safe table keeps it safe exactly when the scan finds nothing in the way. */
  lemma {:induction false} GrantIsSafe(locks: seq<Lock>, l: Lock)
    requires NoConflict(locks) && AllAcquired(locks) && l.isAcquired
    ensures NoConflict(locks + [l]) <==> Compatible(locks, l.resource, l.mode)
  {
    var all := locks + [l];
    if Compatible(locks, l.resource, l.mode) {
      forall i, j | 0 <= i < j < |all| && all[i].resource == all[j].resource
        ensures all[i].mode == Shared && all[j].mode == Shared
      {
        if j == |locks| { assert all[i] in locks; }
      }
    }
    if NoConflict(all) {
      forall k | k in locks && k.resource == l.resource && k.isAcquired
        ensures l.mode == Shared && k.mode == Shared
      {
        var i :| 0 <= i < |locks| && locks[i] == k;
        assert all[i] == k && all[|locks|] == l;
      }
    }
  }

  /** A waiter woken in a safe table may take its lock without a new scan exactly when a scan
      would have let it. */
  lemma {:induction false} WakeIsSafe(s: System, k: nat, id: string, now: int)
    requires Safe(s) && k < |s.waiting|
    ensures Safe(Step(s, Wake(k, id, now), false))
      <==> Compatible(s.locks, s.waiting[k].resource, s.waiting[k].mode)
  {
    var r := s.waiting[k];
    GrantIsSafe(s.locks, NewLock(id, r.resource, r.mode, r.timeoutMs, now));
  }

  // ---------- Every table that keeps the order keeps the safety ----------

  /** `sub` is what is left of `locks` after removals. */
  predicate Left(sub: seq<Lock>, locks: seq<Lock>) {
    sub == [] || (locks != [] && ((sub[0] == locks[0] && Left(sub[1..], locks[1..])) || Left(sub, locks[1..])))
  }

  lemma {:induction false} LeftMembers(sub: seq<Lock>, locks: seq<Lock>, l: Lock)
    requires Left(sub, locks) && l in sub
    ensures l in locks
    decreases |locks|
  {
    assert locks == [locks[0]] + locks[1..];
    if sub[0] == locks[0] && Left(sub[1..], locks[1..]) {
      if l != sub[0] {
        assert sub == [sub[0]] + sub[1..];
        LeftMembers(sub[1..], locks[1..], l);
      }
    } else {
      LeftMembers(sub, locks[1..], l);
    }
  }

  lemma {:induction false} TailSafe(locks: seq<Lock>)
    requires locks != [] && NoConflict(locks)
    ensures NoConflict(locks[1..])
    ensures forall l :: l in locks[1..] && l.resource == locks[0].resource ==>
      l.mode == Shared && locks[0].mode == Shared
  {
    var rest := locks[1..];
    forall i, j | 0 <= i < j < |rest| && rest[i].resource == rest[j].resource
      ensures rest[i].mode == Shared && rest[j].mode == Shared
    {
      assert rest[i] == locks[i + 1] && rest[j] == locks[j + 1];
    }
    forall l | l in rest && l.resource == locks[0].resource ensures l.mode == Shared && locks[0].mode == Shared {
      var i :| 0 <= i < |rest| && rest[i] == l;
      assert locks[i + 1] == l;
    }
  }

  lemma {:induction false} LeftSafe(sub: seq<Lock>, locks: seq<Lock>)
    requires Left(sub, locks) && NoConflict(locks)
    ensures NoConflict(sub)
    decreases |locks|
  {
    if sub != [] {
      TailSafe(locks);
      if sub[0] == locks[0] && Left(sub[1..], locks[1..]) {
        var more := sub[1..];
        LeftSafe(more, locks[1..]);
        forall i, j | 0 <= i < j < |sub| && sub[i].resource == sub[j].resource
          ensures sub[i].mode == Shared && sub[j].mode == Shared
        {
          assert sub[j] == more[j - 1] && sub[j] in more;
          if i == 0 {
            LeftMembers(more, locks[1..], sub[j]);
          } else {
            assert sub[i] == more[i - 1];
          }
        }
      } else {
        LeftSafe(sub, locks[1..]);
      }
    }
  }

  lemma {:induction false} LeftSelf(locks: seq<Lock>)
    ensures Left(locks, locks)
  {
    if locks != [] { LeftSelf(locks[1..]); }
  }

  lemma {:induction false} LeftKeep(keep: bool, sub: seq<Lock>, locks: seq<Lock>)
    requires locks != [] && Left(sub, locks[1..])
    ensures Left((if keep then [locks[0]] else []) + sub, locks)
  {
    if keep {
      assert ([locks[0]] + sub)[1..] == sub;
    } else {
      assert [] + sub == sub;
      LeftSkip(sub, locks);
    }
  }

  lemma {:induction false} LeftSkip(sub: seq<Lock>, locks: seq<Lock>)
    requires locks != [] && Left(sub, locks[1..])
    ensures Left(sub, locks)
  {
  }

  lemma {:induction false} DropsAreLeft(locks: seq<Lock>, resource: string, id: string, now: int)
    ensures Left(DropResource(locks, resource), locks)
    ensures Left(DropExpired(locks, now), locks)
    ensures Left(DropFirst(locks, id), locks)
  {
    if locks != [] {
      var rest := locks[1..];
      DropsAreLeft(rest, resource, id, now);
      LeftKeep(locks[0].resource != resource, DropResource(rest, resource), locks);
      LeftKeep(!Expired(locks[0], now), DropExpired(rest, now), locks);
      if locks[0].id == id {
        LeftSelf(rest);
        LeftSkip(rest, locks);
      } else {
        LeftKeep(true, DropFirst(rest, id), locks);
      }
    }
  }

  lemma {:induction false} RemovalSafe(s: System, sub: seq<Lock>)
    requires Safe(s) && Left(sub, s.locks)
    ensures Safe(s.(locks := sub))
  {
    LeftSafe(sub, s.locks);
    forall l | l in sub ensures l.isAcquired { LeftMembers(sub, s.locks, l); }
  }

  lemma {:induction false} RenewSafe(s: System, i: nat, ms: int)
    requires Safe(s)
    ensures Safe(s.(locks := RenewAt(s.locks, i, ms)))
  {
    var r := RenewAt(s.locks, i, ms);
    forall k | 0 <= k < |r|
      ensures r[k].isAcquired && r[k].mode == s.locks[k].mode && r[k].resource == s.locks[k].resource
    {
      assert s.locks[k] in s.locks;
    }
  }

  lemma {:induction false} ScanSafe(s: System, r: Request, id: string, now: int)
    requires Safe(s)
    ensures Safe(Scan(s, r, id, now))
  {
    GrantIsSafe(s.locks, NewLock(id, r.resource, r.mode, r.timeoutMs, now));
  }

  lemma {:induction false} StepSafe(s: System, a: Action)
    requires Safe(s)
    ensures Safe(Step(s, a, true))
  {
    match a
    case Acquire(r, id, now) => ScanSafe(s, r, id, now);
    case Wake(k, id, now) =>
      if k < |s.waiting| { ScanSafe(s.(waiting := RemoveAt(s.waiting, k)), s.waiting[k], id, now); }
    case TimeOut(k) =>
    case Release(id) =>
      DropsAreLeft(s.locks, "", id, 0);
      RemovalSafe(s, DropFirst(s.locks, id));
    case Renew(i, ms) => RenewSafe(s, i, ms);
    case Cleanup(now) =>
      DropsAreLeft(s.locks, "", "", now);
      RemovalSafe(s, DropExpired(s.locks, now));
    case ForceUnlock(resource) =>
      DropsAreLeft(s.locks, resource, "", 0);
      RemovalSafe(s, DropResource(s.locks, resource));
  }

  /** With rescanning, no run of calls, wake-ups, expiries and unlocks ever leaves an exclusive
      lock beside another lock on its resource. */
  lemma {:induction false} RunSafe(s: System, actions: seq<Action>)
    requires Safe(s)
    ensures Safe(Run(s, actions, true))
    decreases |actions|
  {
    if actions != [] {
      StepSafe(s, actions[0]);
      RunSafe(Step(s, actions[0], true), actions[1..]);
    }
  }

  // ---------- Fresh ids ----------

  predicate UniqueIds(locks: seq<Lock>) {
    forall i, j :: 0 <= i < j < |locks| ==> locks[i].id != locks[j].id
  }

  /** The id drawn for a new lock is not in use. */
  predicate Fresh(s: System, a: Action) {
    match a
    case Acquire(_, id, _) => !HasId(s.locks, id)
    case Wake(_, id, _) => !HasId(s.locks, id)
    case _ => true
  }

  predicate AlwaysFresh(s: System, actions: seq<Action>, rescan: bool)
    decreases |actions|
  {
    actions == [] || (Fresh(s, actions[0]) && AlwaysFresh(Step(s, actions[0], rescan), actions[1..], rescan))
  }

  lemma {:induction false} LeftUnique(sub: seq<Lock>, locks: seq<Lock>)
    requires Left(sub, locks) && UniqueIds(locks)
    ensures UniqueIds(sub)
    decreases |locks|
  {
    if sub != [] {
      var rest := locks[1..];
      if sub[0] == locks[0] && Left(sub[1..], rest) {
        var more := sub[1..];
        LeftUnique(more, rest);
        forall i, j | 0 <= i < j < |sub| ensures sub[i].id != sub[j].id {
          assert sub[j] == more[j - 1] && sub[j] in more;
          if i == 0 {
            LeftMembers(more, rest, sub[j]);
            var k :| 0 <= k < |rest| && rest[k] == sub[j];
            assert locks[k + 1] == sub[j];
          } else {
            assert sub[i] == more[i - 1];
          }
        }
      } else {
        LeftUnique(sub, rest);
      }
    }
  }

  lemma {:induction false} GrantUnique(locks: seq<Lock>, l: Lock)
    requires UniqueIds(locks) && !HasId(locks, l.id)
    ensures UniqueIds(locks + [l])
  {
  }

  /** Fresh ids stay unique, with rescanning or without. */
  lemma {:induction false} StepUnique(s: System, a: Action, rescan: bool)
    requires UniqueIds(s.locks) && Fresh(s, a)
    ensures UniqueIds(Step(s, a, rescan).locks)
  {
    hide UniqueIds, HasId, Left, DropFirst, DropExpired, DropResource;
    match a
    case Acquire(r, id, now) => GrantUnique(s.locks, NewLock(id, r.resource, r.mode, r.timeoutMs, now));
    case Wake(k, id, now) =>
      if k < |s.waiting| {
        var r := s.waiting[k];
        GrantUnique(s.locks, NewLock(id, r.resource, r.mode, r.timeoutMs, now));
      }
    case TimeOut(k) =>
    case Release(id) =>
      DropsAreLeft(s.locks, "", id, 0);
      LeftUnique(DropFirst(s.locks, id), s.locks);
    case Renew(i, ms) => RenewUnique(s.locks, i, ms);
    case Cleanup(now) =>
      DropsAreLeft(s.locks, "", "", now);
      LeftUnique(DropExpired(s.locks, now), s.locks);
    case ForceUnlock(resource) =>
      DropsAreLeft(s.locks, resource, "", 0);
      LeftUnique(DropResource(s.locks, resource), s.locks);
  }

  lemma {:induction false} RenewUnique(locks: seq<Lock>, i: nat, ms: int)
    requires UniqueIds(locks)
    ensures UniqueIds(RenewAt(locks, i, ms))
  {
  }

  lemma {:induction false} RunUnique(s: System, actions: seq<Action>, rescan: bool)
    requires UniqueIds(s.locks) && AlwaysFresh(s, actions, rescan)
    ensures UniqueIds(Run(s, actions, rescan).locks)
    decreases |actions|
  {
    hide UniqueIds, Step, Fresh;
    if actions != [] {
      StepUnique(s, actions[0], rescan);
      RunUnique(Step(s, actions[0], rescan), actions[1..], rescan);
    }
  }

  /** So after any run with fresh ids a release drops the caller's lock and no other. */
  lemma {:induction false} FreshReleasesOwn(s: System, actions: seq<Action>, rescan: bool, p: nat)
    requires UniqueIds(s.locks) && AlwaysFresh(s, actions, rescan) && p < |Run(s, actions, rescan).locks|
    ensures var locks := Run(s, actions, rescan).locks;
      DropFirst(locks, locks[p].id) == Without(locks, p)
  {
    hide Run, AlwaysFresh, DropFirst;
    RunUnique(s, actions, rescan);
    ReleaseDropsOwnIff(Run(s, actions, rescan).locks, p);
  }

  /** Two callers that drew the same id: the second one's release drops the first one's lock, and
      a third gets the resource that the first still relies on. */
  lemma {:induction false} SharedIdReleasesAnother()
    ensures var first := NewLock("x", "r", Exclusive, 0, 0);
      var second := NewLock("x", "s", Exclusive, 0, 0);
      var third := Request("r", Exclusive, 0);
      var s := System([first, second], []);
      && Safe(s) && Step(s, Release(second.id), true).locks == [second]
      && Step(Step(s, Release(second.id), true), Acquire(third, "y", 1), true).locks
           == [second, NewLock("y", "r", Exclusive, 0, 1)]
  {
    var first, second := NewLock("x", "r", Exclusive, 0, 0), NewLock("x", "s", Exclusive, 0, 0);
    assert "r"[0] != "s"[0];
    assert DropFirst([first, second], "x") == [second];
    assert Compatible([second], "r", Exclusive);
  }

  /** Without it two waiters for the same exclusive lock both get it after one release. */
  lemma {:induction false} TwoWaitersBothEnter()
    ensures var r := Request("r", Exclusive, 1000);
      var actions := [Acquire(r, "a", 0), Acquire(r, "b", 0), Acquire(r, "c", 0),
                      Release("a"), Wake(0, "b", 1), Wake(0, "c", 1)];
      var s := Run(System([], []), actions, false);
      |s.locks| == 2 && !NoConflict(s.locks)
  {
    var r := Request("r", Exclusive, 1000);
    var a := NewLock("a", "r", Exclusive, 1000, 0);
    var b := NewLock("b", "r", Exclusive, 1000, 1);
    var c := NewLock("c", "r", Exclusive, 1000, 1);
    var s0 := System([], []);
    var s1 := System([a], []);
    var s2 := System([a], [r]);
    var s3 := System([a], [r, r]);
    var s4 := System([], [r, r]);
    var s5 := System([b], [r]);
    var s6 := System([b, c], []);
    assert Step(s0, Acquire(r, "a", 0), false) == s1;
    assert a in [a];
    assert Step(s1, Acquire(r, "b", 0), false) == s2;
    assert Step(s2, Acquire(r, "c", 0), false) == s3;
    assert Step(s3, Release("a"), false) == s4;
    assert Step(s4, Wake(0, "b", 1), false) == s5 by { assert RemoveAt([r, r], 0) == [r]; }
    assert Step(s5, Wake(0, "c", 1), false) == s6 by { assert RemoveAt([r], 0) == []; }
    RunSix(s0, Acquire(r, "a", 0), Acquire(r, "b", 0), Acquire(r, "c", 0),
           Release("a"), Wake(0, "b", 1), Wake(0, "c", 1));
    assert s6.locks[0].resource == s6.locks[1].resource && s6.locks[0].mode == Exclusive;
  }

  lemma {:induction false} RunSix(s: System, a: Action, b: Action, c: Action, d: Action, e: Action, f: Action)
    ensures Run(s, [a, b, c, d, e, f], false)
         == Step(Step(Step(Step(Step(Step(s, a, false), b, false), c, false), d, false), e, false), f, false)
  {
    assert [a, b, c, d, e, f][1..] == [b, c, d, e, f];
    assert [b, c, d, e, f][1..] == [c, d, e, f];
    assert [c, d, e, f][1..] == [d, e, f];
    assert [d, e, f][1..] == [e, f];
    assert [e, f][1..] == [f];
    assert [f][1..] == [];
    hide Step;
    RunOne(s, [a, b, c, d, e, f]);
    RunOne(Step(s, a, false), [b, c, d, e, f]);
    RunOne(Step(Step(s, a, false), b, false), [c, d, e, f]);
    RunOne(Step(Step(Step(s, a, false), b, false), c, false), [d, e, f]);
    RunOne(Step(Step(Step(Step(s, a, false), b, false), c, false), d, false), [e, f]);
    RunOne(Step(Step(Step(Step(Step(s, a, false), b, false), c, false), d, false), e, false), [f]);
  }

  lemma {:induction false} RunOne(s: System, actions: seq<Action>)
    requires actions != []
    ensures Run(s, actions, false) == Run(Step(s, actions[0], false), actions[1..], false)
    ensures |actions| == 1 ==> Run(s, actions, false) == Step(s, actions[0], false)
  {
  }
}
