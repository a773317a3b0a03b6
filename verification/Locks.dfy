/** The lock manager's calls over its array of locks (src/constellation/dfs/locks.c). Lock ids and
    the time are inputs; a call that has to wait says so, and goes on in `AfterWait`. */
module Locks {
  import opened Options
  import opened LockRuns

  datatype Answer = Granted(lock: Lock) | Refused | MustWait

  class LockTable {
    var locks: seq<Lock>

    constructor ()
      ensures locks == []
    {
      locks := [];
    }

    /** Looks for a lock on the resource that excludes this one. */
    method Scan(resource: string, mode: Mode) returns (isLocked: bool, compatible: bool)
      ensures isLocked && !compatible <==> !Compatible(locks, resource, mode)
    {
      isLocked, compatible := false, true;
      for i := 0 to |locks|
        invariant compatible && Compatible(locks[..i], resource, mode)
      {
        var l := locks[i];
        assert locks[..i + 1] == locks[..i] + [l];
        if l.resource == resource && l.isAcquired {
          isLocked := true;
          if mode == Exclusive || l.mode == Exclusive {
            compatible := false;
            assert l in locks;
            return;
          }
        }
      }
      assert locks[..|locks|] == locks;
    }

    method Acquire(resource: string, mode: Mode, timeoutMs: int, id: string, now: int) returns (r: Answer)
      modifies this
      ensures var l := NewLock(id, resource, mode, timeoutMs, now);
        if Compatible(old(locks), resource, mode) then r == Granted(l) && locks == old(locks) + [l]
        else r == (if timeoutMs == 0 then Refused else MustWait) && locks == old(locks)
    {
      var isLocked, compatible := Scan(resource, mode);
      if isLocked && !compatible {
        return if timeoutMs == 0 then Refused else MustWait;
      }
      var l := AfterWait(resource, mode, timeoutMs, id, now);
      r := Granted(l);
    }

    /** Where a waiting call goes on when it is woken: it does not scan again. */
    method AfterWait(resource: string, mode: Mode, timeoutMs: int, id: string, now: int) returns (l: Lock)
      modifies this
      ensures l == NewLock(id, resource, mode, timeoutMs, now) && locks == old(locks) + [l]
      ensures NoConflict(old(locks)) && AllAcquired(old(locks)) ==>
        (NoConflict(locks) <==> Compatible(old(locks), resource, mode))
    {
      l := NewLock(id, resource, mode, timeoutMs, now);
      if NoConflict(locks) && AllAcquired(locks) { GrantIsSafe(locks, l); }
      locks := locks + [l];
    }

    method TryAcquire(resource: string, mode: Mode, id: string, now: int) returns (l: Option<Lock>)
      modifies this
      ensures l.Some? <==> Compatible(old(locks), resource, mode)
      ensures locks == if l.Some? then old(locks) + [l.value] else old(locks)
      ensures l.Some? ==> l.value == NewLock(id, resource, mode, 0, now)
    {
      var r := Acquire(resource, mode, 0, id, now);
      l := if r.Granted? then Some(r.lock) else None;
    }

    /** Removes the lock at `i` by moving the later ones down. */
    method RemoveAt(i: nat)
      requires i < |locks|
      modifies this
      ensures locks == old(locks[..i] + locks[i + 1..])
    {
      var j := i;
      ghost var was := locks;
      while j < |locks| - 1
        invariant i <= j <= |locks| - 1 && |locks| == |was|
        invariant forall k :: 0 <= k < i ==> locks[k] == was[k]
        invariant forall k :: i <= k < j ==> locks[k] == was[k + 1]
        invariant forall k :: j <= k < |locks| ==> locks[k] == was[k]
      {
        locks := locks[j := locks[j + 1]];
        j := j + 1;
      }
      locks := locks[..|locks| - 1];
      assert locks == was[..i] + was[i + 1..];
    }

    method Release(id: string) returns (status: int)
      modifies this
      ensures locks == DropFirst(old(locks), id)
      ensures status == if HasId(old(locks), id) then 0 else -1
    {
      var i := 0;
      ghost var was := locks;
      while i < |locks|
        invariant i <= |locks| && locks == was
        invariant forall k :: 0 <= k < i ==> was[k].id != id
        invariant DropFirst(was, id) == was[..i] + DropFirst(was[i..], id)
      {
        FirstStep(was, i, id);
        if locks[i].id == id {
          RemoveAt(i);
          return 0;
        }
        i := i + 1;
      }
      assert was[..i] == was;
      status := -1;
    }

    /** `place` is where the caller's lock is in the table. */
    method Renew(place: nat, additionalMs: int) returns (status: int)
      requires place < |locks|
      modifies this
      ensures locks == RenewAt(old(locks), place, additionalMs)
      ensures |locks| == |old(locks)| && forall i :: 0 <= i < |locks| && i != place ==> locks[i] == old(locks)[i]
      ensures locks[place].expiresAt - old(locks)[place].expiresAt
        == if additionalMs > 0 && old(locks)[place].expiresAt > 0 then additionalMs / 1000 else 0
      ensures status == if additionalMs <= 0 then -1 else 0
    {
      if additionalMs <= 0 { return -1; }
      if locks[place].expiresAt > 0 {
        locks := locks[place := locks[place].(expiresAt := locks[place].expiresAt + additionalMs / 1000)];
      }
      status := 0;
    }

    method CleanupExpired(now: int) returns (cleaned: nat)
      modifies this
      ensures locks == DropExpired(old(locks), now)
      ensures cleaned == |old(locks)| - |locks|
    {
      cleaned := 0;
      var i := 0;
      while i < |locks|
        invariant i <= |locks| && cleaned == |old(locks)| - |locks|
        invariant DropExpired(old(locks), now) == locks[..i] + DropExpired(locks[i..], now)
        decreases |locks| - i
      {
        ExpiredStep(locks, i, now);
        if locks[i].expiresAt > 0 && locks[i].expiresAt < now {
          RemoveAt(i);
          cleaned := cleaned + 1;
        } else {
          i := i + 1;
        }
      }
      assert locks[..i] == locks;
    }

    method ForceUnlock(resource: string) returns (unlocked: nat)
      modifies this
      ensures locks == DropResource(old(locks), resource)
      ensures unlocked == |old(locks)| - |locks|
    {
      unlocked := 0;
      var i := 0;
      while i < |locks|
        invariant i <= |locks| && unlocked == |old(locks)| - |locks|
        invariant DropResource(old(locks), resource) == locks[..i] + DropResource(locks[i..], resource)
        decreases |locks| - i
      {
        ResourceStep(locks, i, resource);
        if locks[i].resource == resource {
          RemoveAt(i);
          unlocked := unlocked + 1;
        } else {
          i := i + 1;
        }
      }
      assert locks[..i] == locks;
    }

    method IsHeld(resource: string) returns (held: bool)
      ensures held <==> exists l :: l in locks && l.resource == resource && l.isAcquired
    {
      for i := 0 to |locks|
        invariant forall k :: 0 <= k < i ==> !(locks[k].resource == resource && locks[k].isAcquired)
      {
        if locks[i].resource == resource && locks[i].isAcquired {
          assert locks[i] in locks;
          return true;
        }
      }
      held := false;
    }
  }

  lemma {:induction false} FirstStep(locks: seq<Lock>, i: nat, id: string)
    requires i < |locks|
    ensures locks[..i] + DropFirst(locks[i..], id)
         == if locks[i].id == id then locks[..i] + locks[i + 1..]
            else locks[..i + 1] + DropFirst(locks[i + 1..], id)
  {
    assert locks[i..][1..] == locks[i + 1..];
    assert locks[..i + 1] == locks[..i] + [locks[i]];
  }

  lemma {:induction false} ExpiredStep(locks: seq<Lock>, i: nat, now: int)
    requires i < |locks|
    ensures var shifted := locks[..i] + locks[i + 1..];
      locks[..i] + DropExpired(locks[i..], now)
        == if Expired(locks[i], now) then shifted[..i] + DropExpired(shifted[i..], now)
           else locks[..i + 1] + DropExpired(locks[i + 1..], now)
  {
    var shifted := locks[..i] + locks[i + 1..];
    assert locks[i..][1..] == locks[i + 1..];
    assert shifted[..i] == locks[..i] && shifted[i..] == locks[i + 1..];
    assert locks[..i + 1] == locks[..i] + [locks[i]];
  }

  lemma {:induction false} ResourceStep(locks: seq<Lock>, i: nat, resource: string)
    requires i < |locks|
    ensures var shifted := locks[..i] + locks[i + 1..];
      locks[..i] + DropResource(locks[i..], resource)
        == if locks[i].resource == resource then shifted[..i] + DropResource(shifted[i..], resource)
           else locks[..i + 1] + DropResource(locks[i + 1..], resource)
  {
    var shifted := locks[..i] + locks[i + 1..];
    assert locks[i..][1..] == locks[i + 1..];
    assert shifted[..i] == locks[..i] && shifted[i..] == locks[i + 1..];
    assert locks[..i + 1] == locks[..i] + [locks[i]];
  }
}
