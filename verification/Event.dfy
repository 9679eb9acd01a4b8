/**
 nthread::event over a mutex and a condition variable, at critical-section
 granularity. A thread inside wait() is asleep on the condition variable (blocked),
 signalled but not yet running again (woken), or timed out but not yet running
 again (expired). Spurious wake-ups are allowed; a signalled waiter does not also
 time out.
 */
module Event {
  /** Fewer than 2^32 threads, so that waiting_ does not wrap. */
  type Tid = t: nat | t < 0xFFFF_FFFF

  const UINT_RANGE: nat := 0x1_0000_0000

  /** Tokens notified, added by notify_all, cleared and taken by waits, and how often available_ wrapped around. */
  datatype Ledger = Ledger(notified: nat, topped: nat, cleared: nat, consumed: nat, wraps: nat)

  datatype Snap = Snap(
    waiting: nat, available: nat, blocked: set<Tid>, woken: set<Tid>, expired: set<Tid>, ledger: Ledger)

  const INIT := Snap(0, 0, {}, {}, {}, Ledger(0, 0, 0, 0, 0))

  /** A critical section. moved: the waiters a notify woke up. */
  datatype Label =
    | Notify(n: nat, moved: set<Tid>)
    | NotifyAll
    | Clear
    | WaitNb
    | Enter(t: Tid)      // wait() up to its first sleep or its return
    | Rerun(t: Tid)      // a woken waiter runs again
    | GiveUp(t: Tid)     // an expired waiter runs again and returns false
    | Expire(t: Tid)     // the timeout of a sleeping waiter ends
    | Spurious(t: Tid)   // a sleeping waiter wakes up unasked

  predicate Inside(s: Snap, t: Tid) {
    t in s.blocked || t in s.woken || t in s.expired
  }

  /** A waiter that holds the lock takes a token if there is one, else sleeps (again). */
  function TokenOrSleep(s: Snap, t: Tid): Snap
    requires s.waiting > 0
  {
    if s.available == 0 then
      s.(blocked := s.blocked + {t})
    else
      s.(waiting := s.waiting - 1, available := s.available - 1,
         ledger := s.ledger.(consumed := s.ledger.consumed + 1))
  }

  /** Which waiters a notify may wake: all, or at least one per signal as long as there are any. */
  predicate Wakes(s: Snap, moved: set<Tid>) {
    moved <= s.blocked &&
    if s.waiting == 0 then moved == {}
    else if s.available >= s.waiting then moved == s.blocked
    else moved == s.blocked || |moved| >= s.available
  }

  function Added(s: Snap, n: nat): Snap {
    var sum := s.available + n;
    s.(available := sum % UINT_RANGE,
       ledger := s.ledger.(notified := s.ledger.notified + n, wraps := s.ledger.wraps + sum / UINT_RANGE))
  }

  predicate Enabled(s: Snap, l: Label) {
    match l
    case Notify(n, moved) => n < UINT_RANGE && if n == 0 then moved == {} else Wakes(Added(s, n), moved)
    case Enter(t) => !Inside(s, t)
    case Rerun(t) => t in s.woken && s.waiting > 0
    case GiveUp(t) => t in s.expired && s.waiting > 0
    case Expire(t) => t in s.blocked
    case Spurious(t) => t in s.blocked
    case _ => true
  }

  /** The state when the lock is released again. */
  function Next(s: Snap, l: Label): Snap
    requires Enabled(s, l)
  {
    match l
    case Notify(n, moved) =>
      if n == 0 then s else
        var a := Added(s, n);
        a.(blocked := a.blocked - moved, woken := a.woken + moved)
    case NotifyAll =>
      var a := if s.available <= s.waiting
               then s.(available := s.waiting, ledger := s.ledger.(topped := s.ledger.topped + s.waiting - s.available))
               else s;
      if a.waiting > 0 then a.(blocked := {}, woken := a.woken + a.blocked) else a
    case Clear =>
      s.(available := 0, ledger := s.ledger.(cleared := s.ledger.cleared + s.available))
    case WaitNb =>
      if s.available == 0 then s
      else s.(available := s.available - 1, ledger := s.ledger.(consumed := s.ledger.consumed + 1))
    case Enter(t) =>
      TokenOrSleep(s.(waiting := s.waiting + 1), t)
    case Rerun(t) =>
      TokenOrSleep(s.(woken := s.woken - {t}), t)
    case GiveUp(t) =>
      s.(waiting := s.waiting - 1, expired := s.expired - {t})
    case Expire(t) =>
      s.(blocked := s.blocked - {t}, expired := s.expired + {t})
    case Spurious(t) =>
      s.(blocked := s.blocked - {t}, woken := s.woken + {t})
  }

  /** wait() or wait_nb() returns true in this critical section. */
  predicate ReturnsTrue(s: Snap, l: Label) {
    (l.Enter? || l.Rerun? || l.WaitNb?) && s.available > 0
  }

  // ---- what every critical section keeps ----

  /** waiting_ counts the threads inside wait(). */
  ghost predicate Counted(s: Snap) {
    && s.blocked !! s.woken && s.blocked !! s.expired && s.woken !! s.expired
    && s.waiting == |s.blocked| + |s.woken| + |s.expired|
  }

  /** Tokens are conserved: what came in went out or is available, or was lost 2^32 at a time to wrap-around. */
  ghost predicate Balanced(s: Snap) {
    && s.available < UINT_RANGE
    && s.ledger.notified + s.ledger.topped ==
       s.ledger.cleared + s.ledger.consumed + s.available + UINT_RANGE * s.ledger.wraps
  }

  /** No wake-up is lost: while a waiter sleeps, every available token has a woken thread coming for it. */
  ghost predicate NoneLost(s: Snap) {
    s.blocked != {} ==> |s.woken| >= s.available
  }

  ghost predicate Inv(s: Snap) {
    Counted(s) && Balanced(s) && NoneLost(s) && s.waiting < UINT_RANGE
  }

  lemma {:induction false} TidBound(ts: set<Tid>, n: nat)
    requires forall t :: t in ts ==> t < n
    ensures |ts| <= n
  {
    if n > 0 {
      var rest := set t | t in ts && t < n - 1;
      TidBound(rest, n - 1);
      if n - 1 in ts {
        assert ts == rest + {(n - 1) as Tid};
      } else {
        assert ts == rest;
      }
    } else {
      assert ts == {};
    }
  }

  lemma WaitingFits(s: Snap)
    requires Counted(s)
    ensures s.waiting < UINT_RANGE
  {
    var all := s.blocked + s.woken + s.expired;
    assert |all| == s.waiting;
    TidBound(all, 0xFFFF_FFFF);
  }

  lemma MoveSize(a: set<Tid>, b: set<Tid>, moved: set<Tid>)
    requires a !! b && moved <= a
    ensures |a - moved| + |b + moved| == |a| + |b|
    ensures |a - moved| == |a| - |moved| && |b + moved| == |b| + |moved|
  {
    assert a == (a - moved) + moved;
  }

  lemma NotifyKeeps(s: Snap, n: nat, moved: set<Tid>)
    requires Inv(s) && n > 0 && Enabled(s, Notify(n, moved))
    ensures Inv(Next(s, Notify(n, moved)))
  {
    var a := Added(s, n);
    var sum := s.available + n;
    assert sum == UINT_RANGE * (sum / UINT_RANGE) + sum % UINT_RANGE;
    MoveSize(a.blocked, a.woken, moved);
    if moved == s.blocked {
      assert a.blocked - moved == {};
    }
  }

  lemma NotifyAllKeeps(s: Snap)
    requires Inv(s)
    ensures Inv(Next(s, NotifyAll))
  {
    MoveSize(s.blocked, s.woken, s.blocked);
    assert s.blocked - s.blocked == {};
  }

  lemma TakeKeeps(s: Snap, l: Label)
    requires Inv(s) && Enabled(s, l) && (l.Enter? || l.Rerun?)
    ensures Inv(Next(s, l))
  {
    WaitingFits(Next(s, l));
  }

  /** Every critical section keeps the count, the token balance and the no-lost-wake-up property. */
  lemma StepKeeps(s: Snap, l: Label)
    requires Inv(s) && Enabled(s, l)
    ensures Inv(Next(s, l))
  {
    match l
    case Notify(n, moved) =>
      if n > 0 {
        NotifyKeeps(s, n, moved);
      }
    case NotifyAll => NotifyAllKeeps(s);
    case Enter(t) => TakeKeeps(s, l);
    case Rerun(t) => TakeKeeps(s, l);
    case Expire(t) => MoveSize(s.blocked, s.expired, {t});
    case Spurious(t) => MoveSize(s.blocked, s.woken, {t});
    case _ =>
  }

  // ---- whole runs ----

  ghost predicate IsRun(ls: seq<Label>)
    decreases |ls|, 0
  {
    |ls| > 0 ==> IsRun(ls[..|ls| - 1]) && Enabled(After(ls[..|ls| - 1]), ls[|ls| - 1])
  }

  /** The state after a run from the fresh event. */
  ghost function After(ls: seq<Label>): Snap
    requires IsRun(ls)
    decreases |ls|, 1
  {
    if |ls| == 0 then INIT else Next(After(ls[..|ls| - 1]), ls[|ls| - 1])
  }

  lemma {:induction false} RunKeeps(ls: seq<Label>)
    requires IsRun(ls)
    ensures Inv(After(ls))
  {
    if |ls| > 0 {
      RunKeeps(ls[..|ls| - 1]);
      StepKeeps(After(ls[..|ls| - 1]), ls[|ls| - 1]);
    }
  }

  /** How many waits returned true. */
  ghost function TrueReturns(ls: seq<Label>): nat
    requires IsRun(ls)
  {
    if |ls| == 0 then 0 else
      var before := ls[..|ls| - 1];
      TrueReturns(before) + if ReturnsTrue(After(before), ls[|ls| - 1]) then 1 else 0
  }

  /** The tokens passed to notify. */
  ghost function Notified(ls: seq<Label>): nat {
    if |ls| == 0 then 0 else
      var l := ls[|ls| - 1];
      Notified(ls[..|ls| - 1]) + if l.Notify? then l.n else 0
  }

  /** The tokens that clear_available took away: those available when it was called. */
  ghost function Cleared(ls: seq<Label>): nat
    requires IsRun(ls)
  {
    if |ls| == 0 then 0 else
      var before := ls[..|ls| - 1];
      Cleared(before) + if ls[|ls| - 1].Clear? then After(before).available else 0
  }

  /** The tokens that notify_all added: one for each waiter that had none. */
  ghost function ToppedUp(ls: seq<Label>): nat
    requires IsRun(ls)
  {
    if |ls| == 0 then 0 else
      var before := ls[..|ls| - 1];
      var s := After(before);
      ToppedUp(before) + if ls[|ls| - 1].NotifyAll? && s.waiting > s.available then s.waiting - s.available else 0
  }

  /** How often a notify took available_ past 2^32 - 1; one notify adds less than 2^32. */
  ghost function WrapArounds(ls: seq<Label>): nat
    requires IsRun(ls)
  {
    if |ls| == 0 then 0 else
      var before := ls[..|ls| - 1];
      var l := ls[|ls| - 1];
      WrapArounds(before) + if l.Notify? && After(before).available + l.n >= UINT_RANGE then 1 else 0
  }

  /** What one critical section enters in the ledger. */
  lemma LedgerStep(s: Snap, l: Label)
    requires Enabled(s, l) && s.available < UINT_RANGE
    ensures var e := s.ledger;
            Next(s, l).ledger == Ledger(
              e.notified + (if l.Notify? then l.n else 0),
              e.topped + (if l.NotifyAll? && s.waiting > s.available then s.waiting - s.available else 0),
              e.cleared + (if l.Clear? then s.available else 0),
              e.consumed + (if ReturnsTrue(s, l) then 1 else 0),
              e.wraps + (if l.Notify? && s.available + l.n >= UINT_RANGE then 1 else 0))
  {
    match l
    case Notify(n, moved) => assert (s.available + n) / UINT_RANGE == if s.available + n >= UINT_RANGE then 1 else 0;
    case _ =>
  }

  /** The ledger is what the run did, entry by entry. */
  lemma {:induction false} LedgerIsRun(ls: seq<Label>)
    requires IsRun(ls)
    ensures After(ls).ledger == Ledger(Notified(ls), ToppedUp(ls), Cleared(ls), TrueReturns(ls), WrapArounds(ls))
  {
    if |ls| > 0 {
      var before := ls[..|ls| - 1];
      LedgerIsRun(before);
      RunKeeps(before);
      LedgerStep(After(before), ls[|ls| - 1]);
    }
  }

  /**
   In every run: notified + topped up = true returns + cleared + available, up to whole wrap-arounds of
   available_.
   */
  lemma TokensConserved(ls: seq<Label>)
    requires IsRun(ls)
    ensures Notified(ls) + ToppedUp(ls) ==
            TrueReturns(ls) + Cleared(ls) + After(ls).available + UINT_RANGE * WrapArounds(ls)
    ensures After(ls).available < UINT_RANGE
    ensures WrapArounds(ls) == 0 ==> TrueReturns(ls) <= Notified(ls) + ToppedUp(ls)
  {
    RunKeeps(ls);
    LedgerIsRun(ls);
  }

  /** In every run a wait returns true exactly if more tokens came in than have been taken, cleared or lost. */
  lemma TrueIfTokenLeft(ls: seq<Label>, l: Label)
    requires IsRun(ls) && (l.Enter? || l.Rerun? || l.WaitNb?)
    ensures ReturnsTrue(After(ls), l) <==>
              Notified(ls) + ToppedUp(ls) > TrueReturns(ls) + Cleared(ls) + UINT_RANGE * WrapArounds(ls)
  {
    TokensConserved(ls);
  }

  /** The calls that can make a token available: notify of a positive number, and notify_all with a waiter. */
  predicate Supplies(s: Snap, l: Label) {
    (l.Notify? && l.n > 0) || (l.NotifyAll? && s.waiting > 0)
  }

  /** Nothing in the run from its step k on makes a token available. */
  ghost predicate DryFrom(ls: seq<Label>, k: nat)
    requires IsRun(ls)
  {
    |ls| > k ==> DryFrom(ls[..|ls| - 1], k) && !Supplies(After(ls[..|ls| - 1]), ls[|ls| - 1])
  }

  /** When there is no token, there is one after the next critical section exactly if that supplies it. */
  lemma SupplyOnly(s: Snap, l: Label)
    requires Enabled(s, l) && s.available == 0
    ensures Next(s, l).available > 0 <==> Supplies(s, l)
  {}

  /**
   After clear_available there is no token, and no wait returns true before the next notify of a positive number
   or notify_all with a waiter.
   */
  lemma {:induction false} ClearTakesAll(ls: seq<Label>, k: nat)
    requires IsRun(ls) && k < |ls| && ls[k].Clear? && DryFrom(ls, k + 1)
    ensures After(ls).available == 0 && IsRun(ls[..k]) && TrueReturns(ls) == TrueReturns(ls[..k])
    ensures forall l :: !ReturnsTrue(After(ls), l)
  {
    var n := |ls| - 1;
    if k < n {
      assert ls[..n][..k] == ls[..k];
      ClearTakesAll(ls[..n], k);
      SupplyOnly(After(ls[..n]), ls[n]);
    }
  }

  /** How often t has entered wait(), and how often it has left it: with true, or when its timeout ended. */
  ghost function Enters(ls: seq<Label>, t: Tid): nat {
    if |ls| == 0 then 0 else Enters(ls[..|ls| - 1], t) + if ls[|ls| - 1] == Enter(t) then 1 else 0
  }

  ghost function Leaves(ls: seq<Label>, t: Tid): nat
    requires IsRun(ls)
  {
    if |ls| == 0 then 0 else
      var before := ls[..|ls| - 1];
      var l := ls[|ls| - 1];
      var left := l == GiveUp(t) || ((l == Enter(t) || l == Rerun(t)) && ReturnsTrue(After(before), l));
      Leaves(before, t) + if left then 1 else 0
  }

  /** A thread is inside wait() from when it enters until it takes a token or its timeout ends. */
  lemma {:induction false} InsideUntilLeft(ls: seq<Label>, t: Tid)
    requires IsRun(ls)
    ensures Enters(ls, t) == Leaves(ls, t) + if Inside(After(ls), t) then 1 else 0
  {
    if |ls| > 0 {
      InsideUntilLeft(ls[..|ls| - 1], t);
      RunKeeps(ls[..|ls| - 1]);
    }
  }

  /** In every run, woken threads are at least min(available_, threads asleep or woken): no wake-up is lost. */
  lemma NoWakeUpLost(ls: seq<Label>)
    requires IsRun(ls)
    ensures var s := After(ls);
            var waiters := |s.blocked| + |s.woken|;
            |s.woken| >= (if s.available < waiters then s.available else waiters)
    ensures var s := After(ls);
            |s.woken| + |s.expired| >= (if s.available < s.waiting then s.available else s.waiting)
    ensures var s := After(ls);
            |s.woken| >= (if s.available < s.waiting then s.available else s.waiting) <==>
              s.expired == {} || s.available <= |s.woken|
    ensures var s := After(ls); s.available > 0 && s.blocked != {} ==> s.woken != {}
  {
    RunKeeps(ls);
  }

  /** waiting_ also counts waiters that have timed out but not run again, so with it the bound fails. */
  lemma ExpiredWaitersCount(t: Tid)
    ensures var ls := [Enter(t), Expire(t), Notify(1, {})];
            IsRun(ls) && var s := After(ls); s.available == 1 && s.waiting == 1 && s.woken == {}
  {
    var l1, l2, l3 := [Enter(t)], [Enter(t), Expire(t)], [Enter(t), Expire(t), Notify(1, {})];
    assert IsRun([]) && After([]) == INIT;
    assert l1[..0] == [];
    assert IsRun(l1) && After(l1) == INIT.(waiting := 1, blocked := {t});
    assert l2[..1] == l1;
    assert IsRun(l2) && After(l2) == INIT.(waiting := 1, blocked := {}, expired := {t});
    assert l3[..2] == l2;
  }

  /**
   notify_all is documented to leave exactly one token per waiter; it does so exactly when there were not more
   before.
   */
  lemma NotifyAllAsDocumented(s: Snap)
    ensures Next(s, NotifyAll).available == s.waiting <==> s.available <= s.waiting
    ensures s.waiting == 0 && s.available > 0 ==> Next(s, NotifyAll) == s
  {}

  /** A token notified while no one waits is still there after notify_all. */
  lemma TokenOutlivesNotifyAll()
    ensures var ls := [Notify(1, {}), NotifyAll];
            IsRun(ls) && After(ls).waiting == 0 && After(ls).available == 1
  {
    var l1, l2 := [Notify(1, {})], [Notify(1, {}), NotifyAll];
    assert IsRun([]) && After([]) == INIT;
    assert l1[..0] == [];
    assert IsRun(l1) && After(l1) == INIT.(available := 1, ledger := Ledger(1, 0, 0, 0, 0));
    assert l2[..1] == l1;
  }

  // ---- the object ----

  /** The threads of moved, some of the sleepers, are woken: as many as there were signals, or all. */
  ghost predicate Woke(blocked: set<Tid>, woken: set<Tid>, moved: set<Tid>,
                       blocked': set<Tid>, woken': set<Tid>, signals: nat)
  {
    && moved <= blocked && (moved == blocked || |moved| >= signals)
    && blocked' == blocked - moved && woken' == woken + moved
  }

  /** One more signal: one more sleeper is woken, unless none is left. */
  lemma MoreWoken(blocked: set<Tid>, woken: set<Tid>, moved: set<Tid>,
                  b: set<Tid>, w: set<Tid>, signals: nat, one: set<Tid>)
    requires Woke(blocked, woken, moved, b, w, signals) && one <= b && |one| == if b == {} then 0 else 1
    ensures Woke(blocked, woken, moved + one, b - one, w + one, signals + 1)
  {
    assert |moved + one| == |moved| + |one|;
    assert w + one == woken + (moved + one);
  }

  class EventImpl {
    var waiting: nat
    var available: nat
    ghost var blocked: set<Tid>   // the condition variable's queue
    ghost var woken: set<Tid>
    ghost var expired: set<Tid>
    ghost var ledger: Ledger

    ghost function Snapshot(): Snap
      reads this
    {
      Snap(waiting, available, blocked, woken, expired, ledger)
    }

    constructor ()
      ensures Snapshot() == INIT
    {
      waiting, available := 0, 0;
      blocked, woken, expired := {}, {}, {};
      ledger := Ledger(0, 0, 0, 0, 0);
    }

    /** pthread_cond_signal: wakes one sleeping thread, if there is one. */
    ghost method Signal() returns (moved: set<Tid>)
      modifies this`blocked, this`woken
      ensures moved <= old(blocked) && |moved| == if old(blocked) == {} then 0 else 1
      ensures blocked == old(blocked) - moved && woken == old(woken) + moved
    {
      moved := {};
      if blocked != {} {
        var t :| t in blocked;
        moved := {t};
        blocked := blocked - {t};
        woken := woken + {t};
      }
    }

    /** for( i=0;i<available_;++i ) pthread_cond_signal: wakes that many sleeping threads, or all. */
    method SignalAvailable() returns (ghost moved: set<Tid>)
      modifies this`blocked, this`woken
      ensures moved <= old(blocked) && (moved == old(blocked) || |moved| >= available)
      ensures blocked == old(blocked) - moved && woken == old(woken) + moved
    {
      moved := {};
      for i := 0 to available
        invariant Woke(old(blocked), old(woken), moved, blocked, woken, i)
      {
        ghost var b, w := blocked, woken;
        ghost var one := Signal();
        MoreWoken(old(blocked), old(woken), moved, b, w, i, one);
        moved := moved + one;
      }
    }

    method Notify(n: nat) returns (r: bool, ghost l: Label)
      requires n < UINT_RANGE
      modifies this
      ensures r <==> n != 0
      ensures l.Notify? && l.n == n && Enabled(old(Snapshot()), l) && Snapshot() == Next(old(Snapshot()), l)
    {
      ghost var moved: set<Tid> := {};
      if n != 0 {
        ledger := Added(Snapshot(), n).ledger;
        available := (available + n) % UINT_RANGE;
        if waiting == 0 {
          /* no one is waiting */
        } else if available >= waiting {
          moved := blocked;
          woken := woken + blocked;
          blocked := {};
        } else {
          moved := SignalAvailable();
        }
      }
      l := Label.Notify(n, moved);
      r := n != 0;
    }

    method NotifyAll() returns (r: bool)
      modifies this
      ensures r && Snapshot() == Next(old(Snapshot()), Label.NotifyAll)
    {
      if available <= waiting {
        ledger := ledger.(topped := ledger.topped + waiting - available);
        available := waiting;
      }
      if waiting > 0 {
        woken := woken + blocked;
        blocked := {};
      }
      r := true;
    }

    method ClearAvailable()
      modifies this
      ensures Snapshot() == Next(old(Snapshot()), Clear)
      ensures available == 0 && waiting == old(waiting) && blocked == old(blocked) && woken == old(woken)
    {
      ledger := ledger.(cleared := ledger.cleared + available);
      available := 0;
    }

    method WaitNb() returns (r: bool)
      modifies this
      ensures Snapshot() == Next(old(Snapshot()), Label.WaitNb)
      ensures r <==> ReturnsTrue(old(Snapshot()), Label.WaitNb)
    {
      r := false;
      if available != 0 {
        r := true;
        available := available - 1;
        ledger := ledger.(consumed := ledger.consumed + 1);
      }
    }

    /** The loop test of wait() and, when a token is available, its exit. Says whether wait() returned true. */
    method TakeOrSleep(t: Tid) returns (r: bool)
      requires waiting > 0
      modifies this
      ensures Snapshot() == TokenOrSleep(old(Snapshot()), t)
      ensures r <==> old(available) > 0
    {
      if available == 0 {
        blocked := blocked + {t};
        return false;
      }
      waiting := waiting - 1;
      available := available - 1;
      ledger := ledger.(consumed := ledger.consumed + 1);
      r := true;
    }

    method WaitEnter(t: Tid) returns (r: bool)
      requires Enabled(Snapshot(), Enter(t))
      modifies this
      ensures Snapshot() == Next(old(Snapshot()), Enter(t))
      ensures r <==> ReturnsTrue(old(Snapshot()), Enter(t))
    {
      waiting := waiting + 1;
      r := TakeOrSleep(t);
    }

    method WaitResume(t: Tid) returns (r: bool)
      requires Enabled(Snapshot(), Rerun(t))
      modifies this
      ensures Snapshot() == Next(old(Snapshot()), Rerun(t))
      ensures r <==> ReturnsTrue(old(Snapshot()), Rerun(t))
    {
      woken := woken - {t};
      r := TakeOrSleep(t);
    }

    method WaitTimedOut(t: Tid) returns (r: bool)
      requires Enabled(Snapshot(), GiveUp(t))
      modifies this
      ensures !r && Snapshot() == Next(old(Snapshot()), GiveUp(t))
    {
      expired := expired - {t};
      waiting := waiting - 1;
      r := false;
    }
  }
}
