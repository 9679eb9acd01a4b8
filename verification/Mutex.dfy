/**
 nthread::mutex, a recursive lock over a mutex and a condition variable, at
 critical-section granularity. Threads inside lock() are blocked, woken or
 expired as in the Event module. depth is not part of the program: it counts, per
 thread, the locks granted and not yet given back.
 */
module Mutex {
  import opened Event

  datatype Lock = Lock(
    locked: nat, owner: Holder, waiting: nat,
    blocked: set<Tid>, woken: set<Tid>, expired: set<Tid>,
    depth: map<Tid, nat>)

  datatype Holder = NoOne | By(t: Tid)

  const FREE := Lock(0, NoOne, 0, {}, {}, {}, map[])

  datatype Call =
    | LockEnter(t: Tid)               // lock() up to its first sleep or its return
    | LockRerun(t: Tid)               // a woken locker runs again
    | LockGiveUp(t: Tid)              // an expired locker runs again and returns false
    | LockExpire(t: Tid)
    | LockSpurious(t: Tid)
    | TryLock(t: Tid)
    | Unlock(t: Tid, moved: set<Tid>) // moved: the threads its signal woke
    | RecursiveUnlock(t: Tid)

  predicate InLock(s: Lock, t: Tid) {
    t in s.blocked || t in s.woken || t in s.expired
  }

  function DepthOf(s: Lock, t: Tid): nat {
    if t in s.depth then s.depth[t] else 0
  }

  /** is_locked_nl() == false || is_locked_by_me_nl() == true. */
  predicate MayTake(s: Lock, t: Tid) {
    s.locked == 0 || s.owner == By(t)
  }

  /** ++locked_, with its wrap-around, and locked_by_ = me. */
  function Taken(s: Lock, t: Tid): Lock {
    s.(locked := (s.locked + 1) % UINT_RANGE, owner := By(t), depth := s.depth[t := DepthOf(s, t) + 1])
  }

  function TakeOrBlock(s: Lock, t: Tid): Lock
    requires s.waiting > 0
  {
    if MayTake(s, t) then Taken(s.(waiting := s.waiting - 1), t) else s.(blocked := s.blocked + {t})
  }

  /** The calls that unlock() and recursive_unlock() refuse: not locked, or not locked by the caller. */
  predicate Refused(s: Lock, t: Tid) {
    s.locked == 0 || s.owner != By(t)
  }

  predicate CanDo(s: Lock, c: Call) {
    match c
    case LockEnter(t) => !InLock(s, t)
    case LockRerun(t) => t in s.woken && s.waiting > 0
    case LockGiveUp(t) => t in s.expired && s.waiting > 0
    case LockExpire(t) => t in s.blocked
    case LockSpurious(t) => t in s.blocked
    case TryLock(t) => !InLock(s, t)
    case Unlock(t, moved) =>
      !InLock(s, t) && moved <= s.blocked &&
      if Refused(s, t) || s.waiting == 0 then moved == {} else s.blocked != {} ==> moved != {}
    case RecursiveUnlock(t) => !InLock(s, t)
  }

  function Do(s: Lock, c: Call): Lock
    requires CanDo(s, c)
  {
    match c
    case LockEnter(t) => TakeOrBlock(s.(waiting := s.waiting + 1), t)
    case LockRerun(t) => TakeOrBlock(s.(woken := s.woken - {t}), t)
    case LockGiveUp(t) => s.(waiting := s.waiting - 1, expired := s.expired - {t})
    case LockExpire(t) => s.(blocked := s.blocked - {t}, expired := s.expired + {t})
    case LockSpurious(t) => s.(blocked := s.blocked - {t}, woken := s.woken + {t})
    case TryLock(t) => if MayTake(s, t) then Taken(s, t) else s
    case Unlock(t, moved) =>
      if Refused(s, t) then s else
        s.(locked := s.locked - 1, owner := if s.locked == 1 then NoOne else s.owner,
           depth := s.depth[t := if DepthOf(s, t) > 0 then DepthOf(s, t) - 1 else 0],
           blocked := s.blocked - moved, woken := s.woken + moved)
    case RecursiveUnlock(t) =>
      if Refused(s, t) then s else
        s.(locked := 0, owner := NoOne, depth := s.depth[t := 0])
  }

  // ---- mutual exclusion ----

  /** At most one thread has positive depth; it is locked_by_ and its depth is locked_. */
  ghost predicate Exclusive(s: Lock) {
    && (s.locked == 0 <==> s.owner == NoOne)
    && s.locked < UINT_RANGE
    && forall t: Tid {:trigger DepthOf(s, t)} :: DepthOf(s, t) == if s.owner == By(t) then s.locked else 0
  }

  ghost predicate Queued(s: Lock) {
    && s.blocked !! s.woken && s.blocked !! s.expired && s.woken !! s.expired
    && s.waiting == |s.blocked| + |s.woken| + |s.expired|
    && (s.owner.By? ==> !InLock(s, s.owner.t))
  }

  /** While the lock is free, a thread asleep for it implies a thread already woken for it. */
  ghost predicate NoneStranded(s: Lock) {
    s.locked == 0 && s.blocked != {} ==> s.woken != {}
  }

  ghost predicate Safe(s: Lock) {
    Exclusive(s) && Queued(s)
  }

  /** The call that would take the lock for the 2^32th time in a row. */
  predicate Overflows(s: Lock, c: Call) {
    match c
    case LockEnter(t) => s.owner == By(t) && s.locked == UINT_RANGE - 1
    case TryLock(t) => s.owner == By(t) && s.locked == UINT_RANGE - 1
    case _ => false
  }

  lemma TakenExclusive(s: Lock, t: Tid)
    requires Exclusive(s) && MayTake(s, t)
    ensures Exclusive(Taken(s, t)) <==> s.locked < UINT_RANGE - 1
  {
    var n := Taken(s, t);
    if s.locked < UINT_RANGE - 1 {
      forall u: Tid
        ensures DepthOf(n, u) == if n.owner == By(u) then n.locked else 0
      {
        assert DepthOf(s, u) == if s.owner == By(u) then s.locked else 0;
      }
    }
  }

  lemma UnlockExclusive(s: Lock, c: Call)
    requires Exclusive(s) && CanDo(s, c) && (c.Unlock? || c.RecursiveUnlock?)
    ensures Exclusive(Do(s, c))
  {
    var n := Do(s, c);
    forall u: Tid
      ensures DepthOf(n, u) == if n.owner == By(u) then n.locked else 0
    {
      assert DepthOf(s, u) == if s.owner == By(u) then s.locked else 0;
    }
  }

  lemma {:induction false} SameExclusive(s: Lock, n: Lock)
    requires Exclusive(s) && n.locked == s.locked && n.owner == s.owner && n.depth == s.depth
    ensures Exclusive(n)
  {
    forall u: Tid
      ensures DepthOf(n, u) == if n.owner == By(u) then n.locked else 0
    {
      assert DepthOf(s, u) == if s.owner == By(u) then s.locked else 0;
    }
  }

  /** Mutual exclusion survives a critical section exactly when it is not the 2^32th nested lock. */
  lemma StepExclusive(s: Lock, c: Call)
    requires Safe(s) && CanDo(s, c)
    ensures Exclusive(Do(s, c)) <==> !Overflows(s, c)
  {
    var n := Do(s, c);
    match c
    case LockEnter(t) =>
      if MayTake(s, t) {
        TakenExclusive(s, t);
        if !Overflows(s, c) {
          SameExclusive(Taken(s, t), n);
        }
      } else {
        SameExclusive(s, n);
      }
    case LockRerun(t) =>
      if MayTake(s, t) {
        TakenExclusive(s, t);
        SameExclusive(Taken(s, t), n);
      } else {
        SameExclusive(s, n);
      }
    case TryLock(t) =>
      if MayTake(s, t) {
        TakenExclusive(s, t);
      }
    case Unlock(t, moved) => UnlockExclusive(s, c);
    case RecursiveUnlock(t) => UnlockExclusive(s, c);
    case _ => SameExclusive(s, n);
  }

  lemma EnterQueued(s: Lock, t: Tid)
    requires Safe(s) && CanDo(s, LockEnter(t))
    ensures Queued(Do(s, LockEnter(t)))
  {
    assert |s.blocked + {t}| == |s.blocked| + 1;
  }

  lemma RerunQueued(s: Lock, t: Tid)
    requires Safe(s) && CanDo(s, LockRerun(t))
    ensures Queued(Do(s, LockRerun(t)))
  {
    assert |s.woken - {t}| == |s.woken| - 1;
    assert |s.blocked + {t}| == |s.blocked| + 1;
  }

  lemma LeaveQueued(s: Lock, c: Call)
    requires Safe(s) && CanDo(s, c) && (c.LockGiveUp? || c.LockExpire? || c.LockSpurious?)
    ensures Queued(Do(s, c))
  {
    match c
    case LockGiveUp(t) => assert |s.expired - {t}| == |s.expired| - 1;
    case LockExpire(t) => MoveSize(s.blocked, s.expired, {t});
    case LockSpurious(t) => MoveSize(s.blocked, s.woken, {t});
  }

  lemma StepQueued(s: Lock, c: Call)
    requires Safe(s) && CanDo(s, c)
    ensures Queued(Do(s, c))
  {
    match c
    case LockEnter(t) => EnterQueued(s, t);
    case LockRerun(t) => RerunQueued(s, t);
    case LockGiveUp(t) => LeaveQueued(s, c);
    case LockExpire(t) => LeaveQueued(s, c);
    case LockSpurious(t) => LeaveQueued(s, c);
    case Unlock(t, moved) => MoveSize(s.blocked, s.woken, moved);
    case _ =>
  }

  /** recursive_unlock() signals no one; every other critical section leaves no sleeper stranded. */
  lemma StepNotStranded(s: Lock, c: Call)
    requires Safe(s) && NoneStranded(s) && CanDo(s, c)
    ensures !c.RecursiveUnlock? ==> NoneStranded(Do(s, c)) || Overflows(s, c)
    ensures c.RecursiveUnlock? ==> (NoneStranded(Do(s, c)) <==> Refused(s, c.t) || s.blocked == {} || s.woken != {})
  {}

  // ---- whole runs ----

  ghost predicate IsRun(cs: seq<Call>)
    decreases |cs|, 0
  {
    |cs| > 0 ==> IsRun(cs[..|cs| - 1]) && CanDo(After(cs[..|cs| - 1]), cs[|cs| - 1])
  }

  ghost function After(cs: seq<Call>): Lock
    requires IsRun(cs)
    decreases |cs|, 1
  {
    if |cs| == 0 then FREE else Do(After(cs[..|cs| - 1]), cs[|cs| - 1])
  }

  /** No thread nests the lock 2^32 deep. */
  ghost predicate Shallow(cs: seq<Call>)
    requires IsRun(cs)
  {
    |cs| > 0 ==> Shallow(cs[..|cs| - 1]) && !Overflows(After(cs[..|cs| - 1]), cs[|cs| - 1])
  }

  lemma {:induction false} RunSafe(cs: seq<Call>)
    requires IsRun(cs) && Shallow(cs)
    ensures Safe(After(cs))
  {
    if |cs| > 0 {
      var before := cs[..|cs| - 1];
      RunSafe(before);
      StepExclusive(After(before), cs[|cs| - 1]);
      StepQueued(After(before), cs[|cs| - 1]);
    }
  }

  /** In every run, no two threads hold the lock, and locked_ and locked_by_ describe the one that does. */
  lemma MutualExclusion(cs: seq<Call>, t: Tid, u: Tid)
    requires IsRun(cs) && Shallow(cs)
    ensures var s := After(cs);
            && (DepthOf(s, t) > 0 && DepthOf(s, u) > 0 ==> t == u)
            && (DepthOf(s, t) > 0 ==> s.owner == By(t) && s.locked == DepthOf(s, t))
            && (s.locked > 0 ==> s.owner.By? && DepthOf(s, s.owner.t) == s.locked)
  {
    RunSafe(cs);
  }

  // ---- locks granted and given back ----

  /** lock() or try_lock() returns true in this critical section. */
  predicate Grants(s: Lock, c: Call) {
    (c.LockEnter? || c.LockRerun? || c.TryLock?) && MayTake(s, c.t)
  }

  /** recursive_unlock() by t returns true in this critical section. */
  predicate FreesAll(s: Lock, c: Call, t: Tid) {
    c == RecursiveUnlock(t) && !Refused(s, t)
  }

  /** How often the run has answered true to lock() and try_lock() of t, since its last recursive_unlock() with true. */
  ghost function Granted(cs: seq<Call>, t: Tid): nat
    requires IsRun(cs)
  {
    if |cs| == 0 then 0 else
      var before, c := cs[..|cs| - 1], cs[|cs| - 1];
      if FreesAll(After(before), c, t) then 0 else
        Granted(before, t) + if Grants(After(before), c) && c.t == t then 1 else 0
  }

  /** How often it has answered true to unlock() of t, since then. */
  ghost function GivenBack(cs: seq<Call>, t: Tid): nat
    requires IsRun(cs)
  {
    if |cs| == 0 then 0 else
      var before, c := cs[..|cs| - 1], cs[|cs| - 1];
      if FreesAll(After(before), c, t) then 0 else
        GivenBack(before, t) + if c.Unlock? && c.t == t && !Refused(After(before), t) then 1 else 0
  }

  /** locked_ may be less than the depth of its owner, after a wrap-around, but never more. */
  ghost predicate Deep(s: Lock) {
    s.owner.By? ==> s.locked <= DepthOf(s, s.owner.t)
  }

  lemma {:induction false} RunDeep(cs: seq<Call>)
    requires IsRun(cs)
    ensures Deep(After(cs))
  {
    if |cs| > 0 {
      RunDeep(cs[..|cs| - 1]);
    }
  }

  /** What one critical section does to a thread's depth. */
  lemma DepthStep(s: Lock, c: Call, t: Tid)
    requires CanDo(s, c) && Deep(s)
    ensures DepthOf(Do(s, c), t) ==
            if FreesAll(s, c, t) then 0
            else if Grants(s, c) && c.t == t then DepthOf(s, t) + 1
            else if c.Unlock? && c.t == t && !Refused(s, t) then DepthOf(s, t) - 1
            else DepthOf(s, t)
  {}

  /** In every run a thread's depth is the locks granted to it less those given back: one unlock, one level. */
  lemma {:induction false} DepthIsCount(cs: seq<Call>, t: Tid)
    requires IsRun(cs)
    ensures Granted(cs, t) == GivenBack(cs, t) + DepthOf(After(cs), t)
  {
    if |cs| > 0 {
      var before := cs[..|cs| - 1];
      DepthIsCount(before, t);
      RunDeep(before);
      DepthStep(After(before), cs[|cs| - 1], t);
    }
  }

  /**
   In every run, by the answers alone: a thread may take the mutex exactly if every other one has given back all
   it was granted; its unlock is refused exactly if it has; and locked_ is what its holder still has to give back.
   */
  lemma HeldByCounts(cs: seq<Call>, t: Tid)
    requires IsRun(cs) && Shallow(cs)
    ensures MayTake(After(cs), t) <==>
              forall u: Tid {:trigger Granted(cs, u)} :: u != t ==> Granted(cs, u) == GivenBack(cs, u)
    ensures Refused(After(cs), t) <==> Granted(cs, t) == GivenBack(cs, t)
    ensures Granted(cs, t) > GivenBack(cs, t) ==> After(cs).locked == Granted(cs, t) - GivenBack(cs, t)
  {
    var s := After(cs);
    RunSafe(cs);
    DepthIsCount(cs, t);
    forall u: Tid
      ensures Granted(cs, u) - GivenBack(cs, u) == if s.owner == By(u) then s.locked else 0
    {
      DepthIsCount(cs, u);
    }
    if s.owner.By? {
      assert Granted(cs, s.owner.t) != GivenBack(cs, s.owner.t);
    }
  }

  /** One recursive_unlock() of the owner frees the mutex, however deep it was, for every thread. */
  lemma FreedAtOnce(cs: seq<Call>, t: Tid, u: Tid)
    requires IsRun(cs) && CanDo(After(cs), RecursiveUnlock(t)) && !Refused(After(cs), t)
    ensures IsRun(cs + [RecursiveUnlock(t)]) && Granted(cs + [RecursiveUnlock(t)], t) == 0
    ensures var s := After(cs + [RecursiveUnlock(t)]);
            MayTake(s, u) && Refused(s, u) && DepthOf(s, t) == 0 && s.blocked == After(cs).blocked
  {
    OneMore(cs, RecursiveUnlock(t));
    assert (cs + [RecursiveUnlock(t)])[..|cs|] == cs;
  }

  /** How often t has entered lock(), and how often it has left it: with the mutex, or when its timeout ended. */
  ghost function Enters(cs: seq<Call>, t: Tid): nat {
    if |cs| == 0 then 0 else Enters(cs[..|cs| - 1], t) + if cs[|cs| - 1] == LockEnter(t) then 1 else 0
  }

  ghost function Leaves(cs: seq<Call>, t: Tid): nat
    requires IsRun(cs)
  {
    if |cs| == 0 then 0 else
      var before, c := cs[..|cs| - 1], cs[|cs| - 1];
      var left := c == LockGiveUp(t) || ((c == LockEnter(t) || c == LockRerun(t)) && Grants(After(before), c));
      Leaves(before, t) + if left then 1 else 0
  }

  /** A thread is inside lock() from when it enters until it is granted the mutex or its timeout ends. */
  lemma {:induction false} InsideUntilLeft(cs: seq<Call>, t: Tid)
    requires IsRun(cs) && Shallow(cs)
    ensures Enters(cs, t) == Leaves(cs, t) + if InLock(After(cs), t) then 1 else 0
  {
    if |cs| > 0 {
      InsideUntilLeft(cs[..|cs| - 1], t);
      RunSafe(cs[..|cs| - 1]);
    }
  }

  /**
   In every run without recursive_unlock, whenever the mutex is free and a thread sleeps for it, a thread is
   already woken.
   */
  lemma {:induction false} NoSleeperStranded(cs: seq<Call>)
    requires IsRun(cs) && Shallow(cs)
    requires forall i :: 0 <= i < |cs| ==> !cs[i].RecursiveUnlock?
    ensures NoneStranded(After(cs))
  {
    if |cs| > 0 {
      var before := cs[..|cs| - 1];
      NoSleeperStranded(before);
      RunSafe(before);
      StepNotStranded(After(before), cs[|cs| - 1]);
    }
  }

  /** With recursive_unlock a sleeper can be left on a free mutex with no one woken. */
  lemma RecursiveUnlockStrands(t: Tid, u: Tid)
    requires t != u
    ensures var cs := [LockEnter(t), LockEnter(u), RecursiveUnlock(t)];
            IsRun(cs) && Shallow(cs) && !NoneStranded(After(cs))
  {
    var c1, c2, c3 := [LockEnter(t)], [LockEnter(t), LockEnter(u)], [LockEnter(t), LockEnter(u), RecursiveUnlock(t)];
    assert IsRun([]) && After([]) == FREE && Shallow([]);
    assert c1[..0] == [];
    assert IsRun(c1) && Shallow(c1) && After(c1) == Lock(1, By(t), 0, {}, {}, {}, map[t := 1]);
    assert c2[..1] == c1;
    assert IsRun(c2) && Shallow(c2) && After(c2) == Lock(1, By(t), 1, {u}, {}, {}, map[t := 1]);
    assert c3[..2] == c2;
  }

  /** n times try_lock by t. */
  function Nested(t: Tid, n: nat): seq<Call> {
    seq(n, _ => TryLock(t))
  }

  lemma OneMore(cs: seq<Call>, c: Call)
    requires IsRun(cs) && CanDo(After(cs), c)
    ensures IsRun(cs + [c]) && After(cs + [c]) == Do(After(cs), c)
  {
    assert (cs + [c])[..|cs|] == cs;
  }

  /** The mutex after n nested locks by t. */
  function HeldBy(t: Tid, n: nat): Lock {
    if n == 0 then FREE else Lock(n % UINT_RANGE, By(t), 0, {}, {}, {}, map[t := n])
  }

  lemma HeldAgain(t: Tid, n: nat)
    ensures CanDo(HeldBy(t, n), TryLock(t)) && Do(HeldBy(t, n), TryLock(t)) == HeldBy(t, n + 1)
  {
    assert (n % UINT_RANGE + 1) % UINT_RANGE == (n + 1) % UINT_RANGE;
  }

  /** locked_ after n nested locks by t is n without its wrap-arounds. */
  lemma {:induction false} NestedRun(t: Tid, n: nat)
    ensures IsRun(Nested(t, n)) && After(Nested(t, n)) == HeldBy(t, n)
  {
    if n > 0 {
      NestedRun(t, n - 1);
      HeldAgain(t, n - 1);
      OneMore(Nested(t, n - 1), TryLock(t));
      assert Nested(t, n) == Nested(t, n - 1) + [TryLock(t)];
    }
  }

  /** k times unlock by t, with no one asleep for the mutex. */
  function Unlocks(t: Tid, k: nat): seq<Call> {
    seq(k, _ => Unlock(t, {}))
  }

  /** n nested locks and k unlocks by t. */
  function Unwound(t: Tid, n: nat, k: nat): seq<Call> {
    Nested(t, n) + Unlocks(t, k)
  }

  /** The mutex with t's lock d levels deep and no one waiting. */
  function Level(t: Tid, d: nat): Lock {
    Lock(d, if d > 0 then By(t) else NoOne, 0, {}, {}, {}, map[t := d])
  }

  lemma LevelDown(t: Tid, d: nat)
    requires d > 0
    ensures CanDo(Level(t, d), Unlock(t, {})) && Do(Level(t, d), Unlock(t, {})) == Level(t, d - 1)
  {
    assert map[t := d][t := d - 1] == map[t := d - 1];
  }

  lemma {:induction false} UnwoundRun(t: Tid, n: nat, k: nat)
    requires 0 < n < UINT_RANGE && k <= n
    ensures IsRun(Unwound(t, n, k)) && After(Unwound(t, n, k)) == Level(t, n - k)
  {
    if k == 0 {
      NestedRun(t, n);
      assert Unwound(t, n, 0) == Nested(t, n);
    } else {
      var before := Unwound(t, n, k - 1);
      assert Unwound(t, n, k) == before + [Unlock(t, {})] by {
        assert Unlocks(t, k) == Unlocks(t, k - 1) + [Unlock(t, {})];
      }
      UnwoundRun(t, n, k - 1);
      LevelDown(t, n - k + 1);
      OneMore(before, Unlock(t, {}));
    }
  }

  /**
   After n nested locks and k unlocks by t the mutex is n - k deep: it is t's, and no one else's for the taking,
   until the last of the n.
   */
  lemma NestedUnlocks(t: Tid, n: nat, k: nat)
    requires 0 < n < UINT_RANGE && k <= n
    ensures IsRun(Unwound(t, n, k)) && After(Unwound(t, n, k)) == Level(t, n - k)
    ensures forall u: Tid :: u != t ==> (MayTake(After(Unwound(t, n, k)), u) <==> k == n)
  {
    UnwoundRun(t, n, k);
  }

  /** The 2^32th nested lock frees the mutex under its holder: another thread takes it, and both hold it. */
  lemma TwoHolders(t: Tid, u: Tid)
    requires t != u
    ensures var cs := Nested(t, UINT_RANGE) + [TryLock(u)];
            IsRun(cs) && DepthOf(After(cs), t) == UINT_RANGE && DepthOf(After(cs), u) == 1 && After(cs).owner == By(u)
  {
    NestedRun(t, UINT_RANGE);
    OneMore(Nested(t, UINT_RANGE), TryLock(u));
  }

  // ---- the object ----

  class MutexImpl {
    var locked: nat
    var lockedBy: Holder
    var waiting: nat
    ghost var blocked: set<Tid>
    ghost var woken: set<Tid>
    ghost var expired: set<Tid>
    ghost var depth: map<Tid, nat>

    ghost function Snapshot(): Lock
      reads this
    {
      Lock(locked, lockedBy, waiting, blocked, woken, expired, depth)
    }

    constructor ()
      ensures Snapshot() == FREE
    {
      locked, lockedBy, waiting := 0, NoOne, 0;
      blocked, woken, expired, depth := {}, {}, {}, map[];
    }

    method Take(me: Tid)
      modifies this`locked, this`lockedBy, this`depth
      ensures Snapshot() == Taken(old(Snapshot()), me)
    {
      depth := depth[me := DepthOf(Snapshot(), me) + 1];
      locked := (locked + 1) % UINT_RANGE;
      lockedBy := By(me);
    }

    /** The loop test of lock() and, when the lock may be taken, its exit. Says whether lock() returned true. */
    method LockOrSleep(me: Tid) returns (r: bool)
      requires waiting > 0
      modifies this
      ensures Snapshot() == TakeOrBlock(old(Snapshot()), me)
      ensures r <==> MayTake(old(Snapshot()), me)
    {
      if locked > 0 && lockedBy != By(me) {
        blocked := blocked + {me};
        return false;
      }
      waiting := waiting - 1;
      Take(me);
      r := true;
    }

    method LockBegin(me: Tid) returns (r: bool)
      requires CanDo(Snapshot(), LockEnter(me))
      modifies this
      ensures Snapshot() == Do(old(Snapshot()), LockEnter(me))
      ensures r <==> MayTake(old(Snapshot()), me)
    {
      waiting := waiting + 1;
      r := LockOrSleep(me);
    }

    method LockResume(me: Tid) returns (r: bool)
      requires CanDo(Snapshot(), LockRerun(me))
      modifies this
      ensures Snapshot() == Do(old(Snapshot()), LockRerun(me))
      ensures r <==> MayTake(old(Snapshot()), me)
    {
      woken := woken - {me};
      r := LockOrSleep(me);
    }

    method LockTimedOut(me: Tid) returns (r: bool)
      requires CanDo(Snapshot(), LockGiveUp(me))
      modifies this
      ensures !r && Snapshot() == Do(old(Snapshot()), LockGiveUp(me))
    {
      expired := expired - {me};
      waiting := waiting - 1;
      r := false;
    }

    method TryLockNow(me: Tid) returns (r: bool)
      requires CanDo(Snapshot(), TryLock(me))
      modifies this
      ensures Snapshot() == Do(old(Snapshot()), TryLock(me))
      ensures r <==> MayTake(old(Snapshot()), me)
    {
      r := false;
      if locked == 0 || lockedBy == By(me) {
        Take(me);
        r := true;
      }
    }

    method UnlockOnce(me: Tid) returns (r: bool, ghost moved: set<Tid>)
      requires !InLock(Snapshot(), me)
      modifies this
      ensures CanDo(old(Snapshot()), Unlock(me, moved)) && Snapshot() == Do(old(Snapshot()), Unlock(me, moved))
      ensures r <==> !Refused(old(Snapshot()), me)
    {
      moved := {};
      if locked == 0 || lockedBy != By(me) {
        return false, {};
      }
      depth := depth[me := if DepthOf(Snapshot(), me) > 0 then DepthOf(Snapshot(), me) - 1 else 0];
      locked := locked - 1;
      if locked == 0 {
        lockedBy := NoOne;
      }
      if waiting > 0 {
        ghost var some := if blocked == {} then {} else var t :| t in blocked; {t};
        moved := some;
        blocked := blocked - some;
        woken := woken + some;
      }
      r := true;
    }

    method UnlockAll(me: Tid) returns (r: bool)
      requires CanDo(Snapshot(), RecursiveUnlock(me))
      modifies this
      ensures Snapshot() == Do(old(Snapshot()), RecursiveUnlock(me))
      ensures r <==> !Refused(old(Snapshot()), me)
    {
      if locked == 0 || lockedBy != By(me) {
        return false;
      }
      locked := 0;
      lockedBy := NoOne;
      depth := depth[me := 0];
      r := true;
    }
  }
}
