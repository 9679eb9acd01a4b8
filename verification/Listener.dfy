/**
 The hand-off of connections in the TCP listener, for runs without a stop request.
 One loop thread and any number of pool workers take turns at the granularity of
 critical sections. A connection is an ev_data object in a slot of ev_pool_; a
 pointer to it is its slot. It goes from the loop's watchers to the new-data queue,
 to a worker, to the idle queue, and back to the watchers, unless it is removed.
 */
module Listener {
  import opened Event
  import Slots = InpVec

  /** ev_data; id_ is the pool position it was created with. */
  datatype Conn = Conn(id: nat)

  /** Where the loop thread is. */
  datatype LoopPc =
    | Idle               // in ev_loop
    | Accepted(p: nat)   // accept_cb, object created, before the answer of on_connected
    | GotData(p: nat)    // new_data_cb, watcher stopped
    | Appended           // new_data_queue_.push, unlocked, before notify
    | Draining           // wakeup_cb, before idle_data_queue_.pop
    | Requeue(p: nat)    // wakeup_cb, popped p
    | TakeToken          // wakeup_cb, watcher started, before wait_nb

  /** Where a pool worker is. */
  datatype WorkerPc =
    | Out                // outside wait
    | In                 // inside the new-data event's wait
    | Got                // wait returned true, before pop
    | Holding(p: nat)    // process_data_cb
    | IdleAppended       // idle_data_queue_.push, unlocked, before notify
    | IdleNotified       // before ev_async_send

  datatype Sys = Sys(
    pool: map<nat, Conn>, watched: set<nat>, loop: LoopPc,
    newQ: seq<nat>, newEv: Snap, idleQ: seq<nat>, idleEv: Snap,
    workers: map<Tid, WorkerPc>, wakeup: bool,
    failures: nat)       // how often wait_nb returned false in wakeup_cb

  const START := Sys(map[], {}, Idle, [], INIT, [], INIT, map[], false, 0)

  /** accept() fails when the process is out of descriptors, which are positive ints. */
  const MAX_CONNS: nat := 0x7FFF_FFFF

  datatype Act =
    | Accept(p: nat) | Connected(ok: bool) | Data(p: nat) | Received(ok: bool) | NotifyNew(moved: set<Tid>)
    | Wakeup | DrainPop | DrainEnd | Restart | Token
    | WorkerStart(w: Tid) | WorkerStop(w: Tid)
    | Wait(l: Label)     // Enter, Rerun, GiveUp, Expire or Spurious of a worker
    | Pop(w: Tid) | Drop(w: Tid) | Keep(w: Tid) | NotifyIdle(w: Tid) | Async(w: Tid)

  predicate At(s: Sys, w: Tid, pc: WorkerPc) {
    w in s.workers && s.workers[w] == pc
  }

  predicate IsHolding(s: Sys, w: Tid) {
    w in s.workers && s.workers[w].Holding? && s.workers[w].p in s.pool
  }

  /** remove_connection: frees the pool position the object says it has. */
  function Removed(pool: map<nat, Conn>, p: nat): map<nat, Conn>
    requires p in pool
  {
    pool - {pool[p].id}
  }

  ghost predicate Can(s: Sys, a: Act) {
    match a
    case Accept(p) => s.loop == Idle && |s.pool| < MAX_CONNS && Slots.IsFirstFree(s.pool, p)
    case Connected(ok) => s.loop.Accepted?
    case Data(p) => s.loop == Idle && p in s.watched
    case Received(ok) => s.loop.GotData? && s.loop.p in s.pool
    case NotifyNew(moved) => s.loop == Appended && Enabled(s.newEv, Notify(1, moved))
    case Wakeup => s.loop == Idle && s.wakeup
    case DrainPop => s.loop == Draining && s.idleQ != []
    case DrainEnd => s.loop == Draining && s.idleQ == []
    case Restart => s.loop.Requeue?
    case Token => s.loop == TakeToken
    case WorkerStart(w) => w !in s.workers
    case WorkerStop(w) => At(s, w, Out)
    case Wait(l) =>
      match l {
        case Enter(t) => At(s, t, Out) && Enabled(s.newEv, l)
        case Rerun(t) => Enabled(s.newEv, l)
        case GiveUp(t) => Enabled(s.newEv, l)
        case Expire(t) => Enabled(s.newEv, l)
        case Spurious(t) => Enabled(s.newEv, l)
        case _ => false
      }
    case Pop(w) => At(s, w, Got)
    case Drop(w) => IsHolding(s, w)
    case Keep(w) => IsHolding(s, w)
    case NotifyIdle(w) => At(s, w, IdleAppended) && Enabled(s.idleEv, Notify(1, {}))
    case Async(w) => At(s, w, IdleNotified)
  }

  /** Where a worker is after a critical section of wait(). */
  function AfterWait(s: Sys, l: Label): WorkerPc {
    match l
    case GiveUp(t) => Out
    case _ => if ReturnsTrue(s.newEv, l) then Got else In
  }

  predicate MovesWorker(l: Label) {
    l.Enter? || l.Rerun? || l.GiveUp?
  }

  ghost function Step(s: Sys, a: Act): Sys
    requires Can(s, a)
  {
    match a
    case Accept(p) => s.(pool := s.pool[p := Conn(p)], loop := Accepted(p))
    case Connected(ok) =>
      if ok then s.(watched := s.watched + {s.loop.p}, loop := Idle)
      else s.(pool := s.pool - {s.loop.p}, loop := Idle)
    case Data(p) => s.(watched := s.watched - {p}, loop := GotData(p))
    case Received(ok) =>
      if ok then s.(newQ := s.newQ + [s.loop.p], loop := Appended)
      else s.(pool := Removed(s.pool, s.loop.p), loop := Idle)
    case NotifyNew(moved) => s.(newEv := Next(s.newEv, Notify(1, moved)), loop := Idle)
    case Wakeup => s.(wakeup := false, loop := Draining)
    case DrainPop => s.(idleQ := s.idleQ[1..], loop := Requeue(s.idleQ[0]))
    case DrainEnd => s.(loop := Idle)
    case Restart => s.(watched := s.watched + {s.loop.p}, loop := TakeToken)
    case Token =>
      if ReturnsTrue(s.idleEv, WaitNb) then s.(idleEv := Next(s.idleEv, WaitNb), loop := Draining)
      else s.(failures := s.failures + 1, loop := Draining)
    case WorkerStart(w) => s.(workers := s.workers[w := Out])
    case WorkerStop(w) => s.(workers := s.workers - {w})
    case Wait(l) =>
      var s' := s.(newEv := Next(s.newEv, l));
      if MovesWorker(l) then s'.(workers := s.workers[l.t := AfterWait(s, l)]) else s'
    case Pop(w) =>
      if s.newQ == [] then s.(workers := s.workers[w := Out])
      else s.(newQ := s.newQ[1..], workers := s.workers[w := Holding(s.newQ[0])])
    case Drop(w) => s.(pool := Removed(s.pool, s.workers[w].p), workers := s.workers[w := Out])
    case Keep(w) => s.(idleQ := s.idleQ + [s.workers[w].p], workers := s.workers[w := IdleAppended])
    case NotifyIdle(w) => s.(idleEv := Next(s.idleEv, Notify(1, {})), workers := s.workers[w := IdleNotified])
    case Async(w) => s.(wakeup := true, workers := s.workers[w := Out])
  }

  // ---- one stage per connection ----

  datatype Stage = Watched | OnLoop | InNew | With(w: Tid) | InIdle

  ghost predicate OnStage(s: Sys, p: nat, g: Stage) {
    match g
    case Watched => p in s.watched
    case OnLoop => s.loop == Accepted(p) || s.loop == GotData(p) || s.loop == Requeue(p)
    case InNew => p in s.newQ
    case With(w) => At(s, w, Holding(p))
    case InIdle => p in s.idleQ
  }

  ghost predicate NoDup(q: seq<nat>) {
    forall i, j :: 0 <= i < j < |q| ==> q[i] != q[j]
  }

  /** at gives the stage of every connection in the pool, the only one it is on; nothing else is on a stage. */
  ghost predicate Staged(s: Sys, at: map<nat, Stage>) {
    && at.Keys == s.pool.Keys
    && (forall p, g {:trigger OnStage(s, p, g)} :: OnStage(s, p, g) <==> p in at && at[p] == g)
    && NoDup(s.newQ) && NoDup(s.idleQ)
    && (forall p :: p in s.pool ==> s.pool[p].id == p)
  }

  /** How an action moves connections between stages. */
  ghost function Moved(s: Sys, at: map<nat, Stage>, a: Act): map<nat, Stage>
    requires Can(s, a)
  {
    match a
    case Accept(p) => at[p := OnLoop]
    case Connected(ok) => if ok then at[s.loop.p := Watched] else at - {s.loop.p}
    case Data(p) => at[p := OnLoop]
    case Received(ok) => if ok then at[s.loop.p := InNew] else at - {s.loop.p}
    case DrainPop => at[s.idleQ[0] := OnLoop]
    case Restart => at[s.loop.p := Watched]
    case Pop(w) => if s.newQ == [] then at else at[s.newQ[0] := With(w)]
    case Drop(w) => at - {s.workers[w].p}
    case Keep(w) => at[s.workers[w].p := InIdle]
    case _ => at
  }

  lemma TailOf(q: seq<nat>)
    requires NoDup(q) && q != []
    ensures NoDup(q[1..]) && forall x :: x in q[1..] <==> x in q && x != q[0]
  {
    forall x | x in q && x != q[0]
      ensures x in q[1..]
    {
      var i :| 0 <= i < |q| && q[i] == x;
      assert q[1..][i - 1] == x;
    }
  }

  lemma AcceptStaged(s: Sys, at: map<nat, Stage>, a: Act)
    requires Staged(s, at) && Can(s, a) && a.Accept?
    ensures Staged(Step(s, a), Moved(s, at, a))
  {
    var s', at' := Step(s, a), Moved(s, at, a);
    forall p, g
      ensures OnStage(s', p, g) <==> p in at' && at'[p] == g
    {
      assert OnStage(s, p, g) <==> p in at && at[p] == g;
    }
  }

  lemma ConnectedStaged(s: Sys, at: map<nat, Stage>, a: Act)
    requires Staged(s, at) && Can(s, a) && a.Connected?
    ensures Staged(Step(s, a), Moved(s, at, a))
  {
    var s', at' := Step(s, a), Moved(s, at, a);
    assert OnStage(s, s.loop.p, OnLoop);
    forall p, g
      ensures OnStage(s', p, g) <==> p in at' && at'[p] == g
    {
      assert OnStage(s, p, g) <==> p in at && at[p] == g;
    }
  }

  lemma DataStaged(s: Sys, at: map<nat, Stage>, a: Act)
    requires Staged(s, at) && Can(s, a) && a.Data?
    ensures Staged(Step(s, a), Moved(s, at, a))
  {
    var s', at' := Step(s, a), Moved(s, at, a);
    assert OnStage(s, a.p, Watched);
    forall p, g
      ensures OnStage(s', p, g) <==> p in at' && at'[p] == g
    {
      assert OnStage(s, p, g) <==> p in at && at[p] == g;
    }
  }

  lemma ReceivedStaged(s: Sys, at: map<nat, Stage>, a: Act)
    requires Staged(s, at) && Can(s, a) && a.Received?
    ensures Staged(Step(s, a), Moved(s, at, a))
  {
    var s', at' := Step(s, a), Moved(s, at, a);
    assert OnStage(s, s.loop.p, OnLoop);
    assert !OnStage(s, s.loop.p, InNew);
    forall p, g
      ensures OnStage(s', p, g) <==> p in at' && at'[p] == g
    {
      assert OnStage(s, p, g) <==> p in at && at[p] == g;
    }
  }

  lemma RestartStaged(s: Sys, at: map<nat, Stage>, a: Act)
    requires Staged(s, at) && Can(s, a) && a.Restart?
    ensures Staged(Step(s, a), Moved(s, at, a))
  {
    var s', at' := Step(s, a), Moved(s, at, a);
    assert OnStage(s, s.loop.p, OnLoop);
    forall p, g
      ensures OnStage(s', p, g) <==> p in at' && at'[p] == g
    {
      assert OnStage(s, p, g) <==> p in at && at[p] == g;
    }
  }

  lemma DrainPopStaged(s: Sys, at: map<nat, Stage>, a: Act)
    requires Staged(s, at) && Can(s, a) && a.DrainPop?
    ensures Staged(Step(s, a), Moved(s, at, a))
  {
    var s', at' := Step(s, a), Moved(s, at, a);
    TailOf(s.idleQ);
    assert OnStage(s, s.idleQ[0], InIdle);
    forall p, g
      ensures OnStage(s', p, g) <==> p in at' && at'[p] == g
    {
      assert OnStage(s, p, g) <==> p in at && at[p] == g;
    }
  }

  lemma PopStaged(s: Sys, at: map<nat, Stage>, a: Act)
    requires Staged(s, at) && Can(s, a) && a.Pop? && s.newQ != []
    ensures Staged(Step(s, a), Moved(s, at, a))
  {
    var s', at' := Step(s, a), Moved(s, at, a);
    TailOf(s.newQ);
    assert OnStage(s, s.newQ[0], InNew);
    forall p, g
      ensures OnStage(s', p, g) <==> p in at' && at'[p] == g
    {
      assert OnStage(s, p, g) <==> p in at && at[p] == g;
    }
  }

  lemma DropStaged(s: Sys, at: map<nat, Stage>, a: Act)
    requires Staged(s, at) && Can(s, a) && a.Drop?
    ensures Staged(Step(s, a), Moved(s, at, a))
  {
    var s', at' := Step(s, a), Moved(s, at, a);
    assert OnStage(s, s.workers[a.w].p, With(a.w));
    forall p, g
      ensures OnStage(s', p, g) <==> p in at' && at'[p] == g
    {
      assert OnStage(s, p, g) <==> p in at && at[p] == g;
    }
  }

  lemma KeepStaged(s: Sys, at: map<nat, Stage>, a: Act)
    requires Staged(s, at) && Can(s, a) && a.Keep?
    ensures Staged(Step(s, a), Moved(s, at, a))
  {
    var s', at' := Step(s, a), Moved(s, at, a);
    assert OnStage(s, s.workers[a.w].p, With(a.w));
    assert !OnStage(s, s.workers[a.w].p, InIdle);
    forall p, g
      ensures OnStage(s', p, g) <==> p in at' && at'[p] == g
    {
      assert OnStage(s, p, g) <==> p in at && at[p] == g;
    }
  }

  /** A step that moves no connection. */
  lemma SameStages(s: Sys, s': Sys, at: map<nat, Stage>)
    requires Staged(s, at)
    requires s'.pool == s.pool && s'.watched == s.watched && s'.newQ == s.newQ && s'.idleQ == s.idleQ
    requires forall p :: OnStage(s', p, OnLoop) <==> OnStage(s, p, OnLoop)
    requires forall w, p :: At(s', w, Holding(p)) <==> At(s, w, Holding(p))
    ensures Staged(s', at)
  {
    forall p, g
      ensures OnStage(s', p, g) <==> p in at && at[p] == g
    {
      assert OnStage(s, p, g) <==> p in at && at[p] == g;
      assert g.OnLoop? ==> (OnStage(s', p, OnLoop) <==> OnStage(s, p, OnLoop));
      assert g.With? ==> (At(s', g.w, Holding(p)) <==> At(s, g.w, Holding(p)));
    }
  }

  lemma LoopStill(s: Sys, at: map<nat, Stage>, a: Act)
    requires Staged(s, at) && Can(s, a) && (a.NotifyNew? || a.Wakeup? || a.DrainEnd? || a.Token?)
    ensures Staged(Step(s, a), at)
  {
    SameStages(s, Step(s, a), at);
  }

  /** A worker that holds no connection before or after moves none. */
  lemma WorkerStill(s: Sys, at: map<nat, Stage>, s': Sys, w: Tid)
    requires Staged(s, at)
    requires s' == s.(newEv := s'.newEv, idleEv := s'.idleEv, workers := s'.workers, wakeup := s'.wakeup)
    requires forall u :: u != w ==>
               (u in s'.workers <==> u in s.workers) && (u in s.workers ==> s'.workers[u] == s.workers[u])
    requires w in s.workers ==> !s.workers[w].Holding?
    requires w in s'.workers ==> !s'.workers[w].Holding?
    ensures Staged(s', at)
  {
    SameStages(s, s', at);
  }

  lemma WaitStaged(s: Sys, at: map<nat, Stage>, a: Act)
    requires Staged(s, at) && Can(s, a) && a.Wait? && a.l.t in s.workers && !s.workers[a.l.t].Holding?
    ensures Staged(Step(s, a), at)
  {
    WorkerStill(s, at, Step(s, a), a.l.t);
  }

  lemma WorkerActStaged(s: Sys, at: map<nat, Stage>, a: Act)
    requires Staged(s, at) && Can(s, a)
    requires a.WorkerStart? || a.WorkerStop? || a.NotifyIdle? || a.Async? || (a.Pop? && s.newQ == [])
    ensures Staged(Step(s, a), at)
  {
    WorkerStill(s, at, Step(s, a), a.w);
  }

  lemma LoopActStaged(s: Sys, at: map<nat, Stage>, a: Act)
    requires Staged(s, at) && Can(s, a)
    requires a.Accept? || a.Connected? || a.Data? || a.Received? || a.Restart? || a.DrainPop?
    ensures Staged(Step(s, a), Moved(s, at, a))
  {
    match a
    case Accept(p) => AcceptStaged(s, at, a);
    case Connected(ok) => ConnectedStaged(s, at, a);
    case Data(p) => DataStaged(s, at, a);
    case Received(ok) => ReceivedStaged(s, at, a);
    case Restart => RestartStaged(s, at, a);
    case DrainPop => DrainPopStaged(s, at, a);
  }

  /** No action gives a connection two stages, or a stage to something outside the pool. */
  lemma StepStaged(s: Sys, at: map<nat, Stage>, a: Act)
    requires Staged(s, at) && Can(s, a)
    requires a.Wait? ==> a.l.t in s.workers && !s.workers[a.l.t].Holding?
    ensures Staged(Step(s, a), Moved(s, at, a))
  {
    if a.Pop? && s.newQ != [] {
      PopStaged(s, at, a);
    } else if a.Drop? {
      DropStaged(s, at, a);
    } else if a.Keep? {
      KeepStaged(s, at, a);
    } else if a.Wait? {
      WaitStaged(s, at, a);
    } else if a.WorkerStart? || a.WorkerStop? || a.NotifyIdle? || a.Async? || a.Pop? {
      WorkerActStaged(s, at, a);
    } else if a.NotifyNew? || a.Wakeup? || a.DrainEnd? || a.Token? {
      LoopStill(s, at, a);
    } else {
      LoopActStaged(s, at, a);
    }
  }

  // ---- tokens ----

  /** The workers at pc. */
  ghost function AtPc(workers: map<Tid, WorkerPc>, pc: WorkerPc): set<Tid> {
    set w | w in workers && workers[w] == pc
  }

  lemma AtPcUpdate(workers: map<Tid, WorkerPc>, w: Tid, next: WorkerPc, pc: WorkerPc)
    ensures |AtPc(workers[w := next], pc)| ==
            |AtPc(workers, pc)| - (if w in workers && workers[w] == pc then 1 else 0) + (if next == pc then 1 else 0)
  {
    var rest := AtPc(workers, pc) - {w};
    if next == pc {
      assert AtPc(workers[w := next], pc) == rest + {w};
    } else {
      assert AtPc(workers[w := next], pc) == rest;
    }
  }

  lemma AtPcRemove(workers: map<Tid, WorkerPc>, w: Tid, pc: WorkerPc)
    requires w in workers && workers[w] != pc
    ensures AtPc(workers - {w}, pc) == AtPc(workers, pc)
  {}

  /** The threads inside the new-data event's wait are the workers at In. */
  ghost predicate WaitersKnown(s: Sys) {
    forall w {:trigger Inside(s.newEv, w)} {:trigger At(s, w, In)} :: Inside(s.newEv, w) <==> At(s, w, In)
  }

  /** Each queued connection has an available token, a notify on its way, or a worker on its way to pop it. */
  ghost predicate TokensMatch(s: Sys) {
    |s.newQ| == s.newEv.available + (if s.loop == Appended then 1 else 0) + |AtPc(s.workers, Got)|
  }

  /**
   What was pushed to the idle queue and not yet taken out has been notified or is about to be; each failed
   wait_nb leaves one over.
   */
  ghost predicate IdleTokensMatch(s: Sys) {
    |s.idleQ| + (if s.loop.Requeue? || s.loop == TakeToken then 1 else 0) + s.failures + s.idleEv.ledger.consumed ==
    s.idleEv.ledger.notified + |AtPc(s.workers, IdleAppended)|
  }

  /** An idle connection waits for a wake-up that is pending, under way, or about to be sent. */
  ghost predicate IdleNotStranded(s: Sys) {
    s.idleQ != [] ==>
      s.wakeup || s.loop == Draining || s.loop.Requeue? || s.loop == TakeToken ||
      AtPc(s.workers, IdleAppended) != {} || AtPc(s.workers, IdleNotified) != {}
  }

  ghost predicate EventsOk(s: Sys) {
    && Inv(s.newEv) && s.newEv.ledger.wraps == 0
    && Inv(s.idleEv) && s.idleEv.waiting == 0 && s.idleEv.ledger.topped == 0 && s.idleEv.ledger.cleared == 0
  }

  ghost predicate Good(s: Sys, at: map<nat, Stage>) {
    && Staged(s, at) && |s.pool| <= MAX_CONNS
    && EventsOk(s) && WaitersKnown(s) && TokensMatch(s) && IdleTokensMatch(s) && IdleNotStranded(s)
  }

  lemma {:induction false} NoDupSize(q: seq<nat>, keys: set<nat>)
    requires NoDup(q) && forall i :: 0 <= i < |q| ==> q[i] in keys
    ensures |q| <= |keys|
  {
    if q != [] {
      var n := |q| - 1;
      NoDupSize(q[..n], keys - {q[n]});
    }
  }

  lemma QueueFits(s: Sys, at: map<nat, Stage>)
    requires Staged(s, at)
    ensures |s.newQ| <= |s.pool|
  {
    forall i | 0 <= i < |s.newQ|
      ensures s.newQ[i] in s.pool.Keys
    {
      assert OnStage(s, s.newQ[i], InNew);
    }
    NoDupSize(s.newQ, s.pool.Keys);
  }

  // ---- what every action keeps ----

  lemma NotifyTokens(s: Sys, at: map<nat, Stage>, a: Act)
    requires Good(s, at) && Can(s, a) && a.NotifyNew?
    ensures TokensMatch(Step(s, a)) && EventsOk(Step(s, a)) && WaitersKnown(Step(s, a))
  {
    QueueFits(s, at);
    StepKeeps(s.newEv, Notify(1, a.moved));
    var s' := Step(s, a);
    forall w
      ensures Inside(s'.newEv, w) <==> At(s', w, In)
    {
      assert Inside(s.newEv, w) <==> At(s, w, In);
    }
  }

  lemma WaitTokens(s: Sys, a: Act)
    requires Can(s, a) && a.Wait?
    requires EventsOk(s) && WaitersKnown(s) && TokensMatch(s)
    ensures a.l.t in s.workers && (s.workers[a.l.t] == In || s.workers[a.l.t] == Out)
    ensures TokensMatch(Step(s, a)) && EventsOk(Step(s, a))
  {
    StepKeeps(s.newEv, a.l);
    assert a.l.Enter? || Inside(s.newEv, a.l.t);
    assert a.l.Enter? || At(s, a.l.t, In);
    if MovesWorker(a.l) {
      AtPcUpdate(s.workers, a.l.t, AfterWait(s, a.l), Got);
    }
  }

  /** Who is inside wait() after one of its critical sections. */
  lemma InsideAfter(s: Sys, l: Label, w: Tid)
    requires Can(s, Wait(l)) && Event.Counted(s.newEv)
    ensures Inside(Next(s.newEv, l), w) <==>
              if MovesWorker(l) && w == l.t then AfterWait(s, l) == In else Inside(s.newEv, w)
  {}

  lemma WaitWaiters(s: Sys, a: Act)
    requires Can(s, a) && a.Wait? && EventsOk(s) && WaitersKnown(s)
    ensures WaitersKnown(Step(s, a))
  {
    var s' := Step(s, a);
    forall w
      ensures Inside(s'.newEv, w) <==> At(s', w, In)
    {
      InsideAfter(s, a.l, w);
      assert Inside(s.newEv, w) <==> At(s, w, In);
    }
  }

  /** A worker whose wait returned true finds a connection: pop does not fail. */
  lemma GotFindsOne(s: Sys, w: Tid)
    requires TokensMatch(s) && At(s, w, Got)
    ensures s.newQ != []
  {
    assert w in AtPc(s.workers, Got);
  }

  lemma PopTokens(s: Sys, a: Act)
    requires Can(s, a) && a.Pop? && TokensMatch(s)
    ensures TokensMatch(Step(s, a))
  {
    GotFindsOne(s, a.w);
    AtPcUpdate(s.workers, a.w, Holding(s.newQ[0]), Got);
  }

  /** Everything but the stages. */
  ghost predicate Counted(s: Sys) {
    EventsOk(s) && WaitersKnown(s) && TokensMatch(s) && IdleTokensMatch(s) && IdleNotStranded(s)
  }

  lemma LoopWaiters(s: Sys, s': Sys)
    requires WaitersKnown(s) && s'.newEv == s.newEv && s'.workers == s.workers
    ensures WaitersKnown(s')
  {
    forall w
      ensures Inside(s'.newEv, w) <==> At(s', w, In)
    {
      assert Inside(s.newEv, w) <==> At(s, w, In);
    }
  }

  /** A step of the loop that touches no event, no worker and not the idle queue. */
  lemma LoopSame(s: Sys, s': Sys)
    requires Counted(s) && TokensMatch(s')
    requires s' == s.(pool := s'.pool, watched := s'.watched, newQ := s'.newQ, loop := s'.loop)
    requires s.loop != Draining && !s.loop.Requeue? && s.loop != TakeToken
    requires s'.loop != Draining && !s'.loop.Requeue? && s'.loop != TakeToken
    ensures Counted(s')
  {
    LoopWaiters(s, s');
  }

  lemma LoopCounted(s: Sys, a: Act)
    requires Counted(s) && Can(s, a) && (a.Accept? || a.Connected? || a.Data? || a.Received?)
    ensures Counted(Step(s, a))
  {
    LoopSame(s, Step(s, a));
  }

  lemma DrainCounted(s: Sys, a: Act)
    requires Counted(s) && Can(s, a) && (a.Wakeup? || a.DrainPop? || a.DrainEnd? || a.Restart?)
    ensures Counted(Step(s, a))
  {
    LoopWaiters(s, Step(s, a));
  }

  lemma TokenCounted(s: Sys, a: Act)
    requires Counted(s) && Can(s, a) && a.Token?
    ensures Counted(Step(s, a))
  {
    StepKeeps(s.idleEv, WaitNb);
    LoopWaiters(s, Step(s, a));
  }

  lemma NotifyCounted(s: Sys, at: map<nat, Stage>, a: Act)
    requires Good(s, at) && Can(s, a) && a.NotifyNew?
    ensures Counted(Step(s, a))
  {
    NotifyTokens(s, at, a);
  }

  /** A worker goes from pc to next, neither of them In or Got. */
  lemma WorkerTokens(s: Sys, s': Sys, w: Tid, next: WorkerPc)
    requires WaitersKnown(s) && TokensMatch(s)
    requires s'.newQ == s.newQ && s'.newEv == s.newEv && s'.loop == s.loop && s'.workers == s.workers[w := next]
    requires next != In && next != Got && !At(s, w, In) && !At(s, w, Got)
    ensures WaitersKnown(s') && TokensMatch(s')
  {
    AtPcUpdate(s.workers, w, next, Got);
    forall u
      ensures Inside(s'.newEv, u) <==> At(s', u, In)
    {
      assert Inside(s.newEv, u) <==> At(s, u, In);
    }
  }

  lemma IdleCounted(s: Sys, a: Act)
    requires Counted(s) && Can(s, a) && (a.Keep? || a.NotifyIdle? || a.Async? || a.Drop? || a.WorkerStart?)
    ensures Counted(Step(s, a))
  {
    var s' := Step(s, a);
    WorkerTokens(s, s', a.w, s'.workers[a.w]);
    AtPcUpdate(s.workers, a.w, s'.workers[a.w], IdleAppended);
    AtPcUpdate(s.workers, a.w, s'.workers[a.w], IdleNotified);
    if a.NotifyIdle? {
      StepKeeps(s.idleEv, Notify(1, {}));
    }
    if a.Keep? || a.NotifyIdle? {
      assert a.w in AtPc(s'.workers, s'.workers[a.w]);
    }
  }

  lemma StopCounted(s: Sys, a: Act)
    requires Counted(s) && Can(s, a) && a.WorkerStop?
    ensures Counted(Step(s, a))
  {
    var s' := Step(s, a);
    AtPcRemove(s.workers, a.w, Got);
    AtPcRemove(s.workers, a.w, IdleAppended);
    AtPcRemove(s.workers, a.w, IdleNotified);
    forall u
      ensures Inside(s'.newEv, u) <==> At(s', u, In)
    {
      assert Inside(s.newEv, u) <==> At(s, u, In);
    }
  }

  lemma WaitCounted(s: Sys, a: Act)
    requires Counted(s) && Can(s, a) && a.Wait?
    ensures Counted(Step(s, a))
  {
    WaitTokens(s, a);
    WaitWaiters(s, a);
    if MovesWorker(a.l) {
      AtPcUpdate(s.workers, a.l.t, AfterWait(s, a.l), IdleAppended);
      AtPcUpdate(s.workers, a.l.t, AfterWait(s, a.l), IdleNotified);
    }
  }

  lemma PopCounted(s: Sys, a: Act)
    requires Counted(s) && Can(s, a) && a.Pop?
    ensures Counted(Step(s, a))
  {
    var s' := Step(s, a);
    PopTokens(s, a);
    GotFindsOne(s, a.w);
    AtPcUpdate(s.workers, a.w, Holding(s.newQ[0]), IdleAppended);
    AtPcUpdate(s.workers, a.w, Holding(s.newQ[0]), IdleNotified);
    forall u
      ensures Inside(s'.newEv, u) <==> At(s', u, In)
    {
      assert Inside(s.newEv, u) <==> At(s, u, In);
    }
  }

  lemma PoolFits(s: Sys, a: Act)
    requires Can(s, a) && |s.pool| <= MAX_CONNS
    ensures |Step(s, a).pool| <= MAX_CONNS
  {
    var s' := Step(s, a);
    if !a.Accept? {
      assert s'.pool.Keys <= s.pool.Keys;
      Subset(s'.pool.Keys, s.pool.Keys);
    }
  }

  lemma Subset(a: set<nat>, b: set<nat>)
    requires a <= b
    ensures |a| <= |b|
  {
    assert b == a + (b - a);
  }

  /** Every action of the loop thread and of every worker keeps all of it. */
  lemma StepGood(s: Sys, at: map<nat, Stage>, a: Act)
    requires Good(s, at) && Can(s, a)
    ensures Good(Step(s, a), Moved(s, at, a))
  {
    PoolFits(s, a);
    if a.Wait? {
      WaitTokens(s, a);
      WaitCounted(s, a);
    } else if a.Pop? {
      PopCounted(s, a);
    } else if a.WorkerStop? {
      StopCounted(s, a);
    } else if a.Keep? || a.NotifyIdle? || a.Async? || a.Drop? || a.WorkerStart? {
      IdleCounted(s, a);
    } else if a.NotifyNew? {
      NotifyCounted(s, at, a);
    } else if a.Accept? || a.Connected? || a.Data? || a.Received? {
      LoopCounted(s, a);
    } else if a.Token? {
      TokenCounted(s, a);
    } else {
      DrainCounted(s, a);
    }
    StepStaged(s, at, a);
  }

  // ---- whole runs ----

  ghost predicate IsRun(acts: seq<Act>)
    decreases |acts|, 0
  {
    |acts| > 0 ==> IsRun(acts[..|acts| - 1]) && Can(After(acts[..|acts| - 1]), acts[|acts| - 1])
  }

  /** The listener after a run from its start. */
  ghost function After(acts: seq<Act>): Sys
    requires IsRun(acts)
    decreases |acts|, 1
  {
    if |acts| == 0 then START else Step(After(acts[..|acts| - 1]), acts[|acts| - 1])
  }

  lemma {:induction false} RunGood(acts: seq<Act>) returns (at: map<nat, Stage>)
    requires IsRun(acts)
    ensures Good(After(acts), at)
  {
    if |acts| == 0 {
      at := map[];
      assert forall w: Tid :: !Inside(INIT, w);
    } else {
      var before := RunGood(acts[..|acts| - 1]);
      StepGood(After(acts[..|acts| - 1]), before, acts[|acts| - 1]);
      at := Moved(After(acts[..|acts| - 1]), before, acts[|acts| - 1]);
    }
  }

  /**
   In every run each connection in the pool is on exactly one stage, nothing outside the pool is on any,
   and every connection's id_ is its pool position.
   */
  lemma OneStageEach(acts: seq<Act>)
    requires IsRun(acts)
    ensures var s := After(acts);
            && (forall p :: p in s.pool ==> s.pool[p].id == p && exists g :: OnStage(s, p, g))
            && (forall p, g :: OnStage(s, p, g) ==> p in s.pool)
            && (forall p, g, h :: OnStage(s, p, g) && OnStage(s, p, h) ==> g == h)
            && NoDup(s.newQ) && NoDup(s.idleQ)
  {
    var s := After(acts);
    var at := RunGood(acts);
    forall p | p in s.pool
      ensures exists g :: OnStage(s, p, g)
    {
      assert OnStage(s, p, at[p]);
    }
  }

  /** In every run no connection is processed by two workers, and none that a worker processes is queued or watched. */
  lemma OneWorkerEach(acts: seq<Act>, p: nat, v: Tid, w: Tid)
    requires IsRun(acts) && At(After(acts), v, Holding(p))
    ensures At(After(acts), w, Holding(p)) ==> v == w
    ensures p in After(acts).pool && p !in After(acts).newQ && p !in After(acts).idleQ && p !in After(acts).watched
  {
    var s := After(acts);
    OneStageEach(acts);
    assert OnStage(s, p, With(v));
    assert At(s, w, Holding(p)) ==> OnStage(s, p, With(w));
    assert !OnStage(s, p, InNew) && !OnStage(s, p, InIdle) && !OnStage(s, p, Watched);
  }

  // ---- which connections are open ----

  /** The connection that an action is about, if any. */
  ghost function Subject(s: Sys, a: Act): set<nat>
    requires Can(s, a)
  {
    match a
    case Connected(_) => {s.loop.p}
    case Received(_) => {s.loop.p}
    case Restart => {s.loop.p}
    case Data(p) => {p}
    case DrainPop => {s.idleQ[0]}
    case Pop(w) => if s.newQ == [] then {} else {s.newQ[0]}
    case Drop(w) => {s.workers[w].p}
    case Keep(w) => {s.workers[w].p}
    case _ => {}
  }

  /** Where that connection is. */
  ghost function SubjectStage(a: Act): Stage {
    match a
    case Data(_) => Watched
    case DrainPop => InIdle
    case Pop(_) => InNew
    case Drop(w) => With(w)
    case Keep(w) => With(w)
    case _ => OnLoop
  }

  lemma SubjectOnStage(s: Sys, a: Act)
    requires Can(s, a)
    ensures forall p :: p in Subject(s, a) ==> OnStage(s, p, SubjectStage(a))
  {}

  /** The action closes p: on_connected refuses it, the reception fails, or a worker's handler answers false. */
  ghost predicate Closes(s: Sys, a: Act, p: nat) {
    match a
    case Connected(ok) => !ok && s.loop == Accepted(p)
    case Received(ok) => !ok && s.loop == GotData(p)
    case Drop(w) => At(s, w, Holding(p))
    case _ => false
  }

  lemma PoolStep(s: Sys, at: map<nat, Stage>, a: Act, p: nat)
    requires Staged(s, at) && Can(s, a)
    ensures p in s.pool && p !in Step(s, a).pool <==> Closes(s, a, p)
    ensures p !in s.pool && p in Step(s, a).pool <==> a == Accept(p)
  {
    if a.Connected? || a.Received? {
      assert OnStage(s, s.loop.p, OnLoop);
    } else if a.Drop? {
      assert OnStage(s, s.workers[a.w].p, With(a.w));
    }
  }

  /**
   In every run, a connection is freed by a step exactly if the step closes it. Then it is on no stage, and the
   thread is back in ev_loop or outside wait. It is opened exactly by accept.
   */
  lemma FreedExactly(acts: seq<Act>, a: Act, p: nat)
    requires IsRun(acts) && Can(After(acts), a)
    ensures var s, s' := After(acts), Step(After(acts), a);
            && (p in s.pool && p !in s'.pool <==> Closes(s, a, p))
            && (p !in s.pool && p in s'.pool <==> a == Accept(p))
            && (Closes(s, a, p) ==> forall g :: !OnStage(s', p, g))
            && (Closes(s, a, p) ==> if a.Drop? then At(s', a.w, Out) else s'.loop == Idle)
  {
    var at := RunGood(acts);
    PoolStep(After(acts), at, a, p);
    StepGood(After(acts), at, a);
  }

  /** In every run, what a step takes out of the pool was held by the thread taking it. */
  lemma FreedByHolder(acts: seq<Act>, a: Act, p: nat)
    requires IsRun(acts) && Can(After(acts), a)
    requires p in After(acts).pool && p !in Step(After(acts), a).pool
    ensures OnStage(After(acts), p, if a.Drop? then With(a.w) else OnLoop)
    ensures forall g :: !OnStage(Step(After(acts), a), p, g)
  {
    FreedExactly(acts, a, p);
  }

  predicate Opens(a: Act) {
    a.Accept?
  }

  /** An answer that closes a connection. */
  predicate Ends(a: Act) {
    a == Connected(false) || a == Received(false) || a.Drop?
  }

  /** How often slot p was opened, and how often the connection in it was closed. */
  ghost function TimesOpened(acts: seq<Act>, p: nat): nat {
    if |acts| == 0 then 0 else TimesOpened(acts[..|acts| - 1], p) + if acts[|acts| - 1] == Accept(p) then 1 else 0
  }

  ghost function TimesClosed(acts: seq<Act>, p: nat): nat
    requires IsRun(acts)
  {
    if |acts| == 0 then 0 else
      var before := acts[..|acts| - 1];
      TimesClosed(before, p) + if Closes(After(before), acts[|acts| - 1], p) then 1 else 0
  }

  /** In every run the pool holds exactly the connections accepted and not refused, failed or dropped since. */
  lemma {:induction false} PoolIsRun(acts: seq<Act>, p: nat)
    requires IsRun(acts)
    ensures TimesOpened(acts, p) == TimesClosed(acts, p) + if p in After(acts).pool then 1 else 0
  {
    if |acts| > 0 {
      var before, a := acts[..|acts| - 1], acts[|acts| - 1];
      PoolIsRun(before, p);
      var at := RunGood(before);
      PoolStep(After(before), at, a, p);
      StayOpen(After(before), at, a, p);
    }
  }

  /** A slot in use is not opened, and one not in use is not closed. */
  lemma StayOpen(s: Sys, at: map<nat, Stage>, a: Act, p: nat)
    requires Staged(s, at) && Can(s, a)
    ensures a == Accept(p) ==> p !in s.pool && p in Step(s, a).pool
    ensures Closes(s, a, p) ==> p in s.pool && p !in Step(s, a).pool
  {
    PoolStep(s, at, a, p);
  }

  /** Accepted connections, and those refused, failed or dropped, by the actions alone. */
  ghost function Openings(acts: seq<Act>): nat {
    if |acts| == 0 then 0 else Openings(acts[..|acts| - 1]) + if Opens(acts[|acts| - 1]) then 1 else 0
  }

  ghost function Endings(acts: seq<Act>): nat {
    if |acts| == 0 then 0 else Endings(acts[..|acts| - 1]) + if Ends(acts[|acts| - 1]) then 1 else 0
  }

  /** The connections an action opens, and those it closes: at most one. */
  ghost function Opened(a: Act): set<nat> {
    if a.Accept? then {a.p} else {}
  }

  ghost function Closed(s: Sys, a: Act): set<nat>
    requires Can(s, a)
  {
    if Ends(a) then Subject(s, a) else {}
  }

  lemma ClosedAreClosed(s: Sys, a: Act, p: nat)
    requires Can(s, a)
    ensures p in Closed(s, a) <==> Closes(s, a, p)
  {}

  lemma HowMany(s: Sys, a: Act)
    requires Can(s, a)
    ensures |Opened(a)| == (if Opens(a) then 1 else 0) && |Closed(s, a)| == if Ends(a) then 1 else 0
  {}

  lemma PoolChange(s: Sys, at: map<nat, Stage>, a: Act)
    requires Staged(s, at) && Can(s, a)
    ensures forall p :: p in s.pool && p !in Step(s, a).pool <==> p in Closed(s, a)
    ensures forall p :: p !in s.pool && p in Step(s, a).pool <==> p in Opened(a)
  {
    forall p: nat
      ensures p in s.pool && p !in Step(s, a).pool <==> p in Closed(s, a)
      ensures p !in s.pool && p in Step(s, a).pool <==> p in Opened(a)
    {
      PoolStep(s, at, a, p);
      ClosedAreClosed(s, a, p);
    }
  }

  lemma PoolSizeStep(s: Sys, at: map<nat, Stage>, a: Act)
    requires Staged(s, at) && Can(s, a)
    ensures |Step(s, a).pool| == |s.pool| + (if Opens(a) then 1 else 0) - (if Ends(a) then 1 else 0)
  {
    PoolChange(s, at, a);
    HowMany(s, a);
    SizeChange(s.pool.Keys, Step(s, a).pool.Keys, Opened(a), Closed(s, a));
  }

  lemma SizeChange(before: set<nat>, after: set<nat>, added: set<nat>, removed: set<nat>)
    requires forall p :: p in before && p !in after <==> p in removed
    requires forall p :: p !in before && p in after <==> p in added
    ensures |after| == |before| + |added| - |removed|
  {
    assert before == before * after + removed;
    assert after == before * after + added;
  }

  /** In every run: open connections = accepted - refused - failed - dropped. */
  lemma {:induction false} PoolSize(acts: seq<Act>)
    requires IsRun(acts)
    ensures |After(acts).pool| + Endings(acts) == Openings(acts)
  {
    if |acts| > 0 {
      var before := acts[..|acts| - 1];
      PoolSize(before);
      var at := RunGood(before);
      PoolSizeStep(After(before), at, acts[|acts| - 1]);
    }
  }

  // ---- how connections move ----

  /** The action takes p from stage g to stage h: one of the seven hand-offs. */
  ghost predicate HandsOff(s: Sys, a: Act, p: nat, g: Stage, h: Stage) {
    match (g, h)
    case (Watched, OnLoop) => a == Data(p)
    case (OnLoop, Watched) =>
      (a == Connected(true) && s.loop == Accepted(p)) || (a == Restart && s.loop == Requeue(p))
    case (OnLoop, InNew) => a == Received(true) && s.loop == GotData(p)
    case (InNew, With(w)) => a == Pop(w) && s.newQ != [] && s.newQ[0] == p
    case (With(w), InIdle) => a == Keep(w)
    case (InIdle, OnLoop) => a == DrainPop && s.idleQ != [] && s.idleQ[0] == p
    case _ => false
  }

  lemma OthersStay(s: Sys, at: map<nat, Stage>, a: Act, p: nat)
    requires Can(s, a) && p in at && p !in Subject(s, a) && a != Accept(p)
    ensures p in Moved(s, at, a) && Moved(s, at, a)[p] == at[p]
  {}

  lemma OthersNot(s: Sys, a: Act, p: nat, g: Stage, h: Stage)
    requires Can(s, a) && OnStage(s, p, g) && HandsOff(s, a, p, g, h)
    ensures p in Subject(s, a)
  {}

  lemma LoopSubjectMoves(s: Sys, at: map<nat, Stage>, a: Act, p: nat, h: Stage)
    requires Can(s, a) && p in Subject(s, a) && h != SubjectStage(a)
    requires a.Connected? || a.Received?
    ensures p in Moved(s, at, a) && Moved(s, at, a)[p] == h <==> HandsOff(s, a, p, SubjectStage(a), h)
  {}

  lemma WorkerSubjectMoves(s: Sys, at: map<nat, Stage>, a: Act, p: nat, h: Stage)
    requires Can(s, a) && p in Subject(s, a) && h != SubjectStage(a)
    requires a.Pop? || a.Drop? || a.Keep?
    ensures p in Moved(s, at, a) && Moved(s, at, a)[p] == h <==> HandsOff(s, a, p, SubjectStage(a), h)
  {}

  lemma SubjectMoves(s: Sys, at: map<nat, Stage>, a: Act, p: nat, h: Stage)
    requires Can(s, a) && p in Subject(s, a) && h != SubjectStage(a)
    ensures p in Moved(s, at, a) && Moved(s, at, a)[p] == h <==> HandsOff(s, a, p, SubjectStage(a), h)
  {
    if a.Connected? || a.Received? {
      LoopSubjectMoves(s, at, a, p, h);
    } else if a.Pop? || a.Drop? || a.Keep? {
      WorkerSubjectMoves(s, at, a, p, h);
    }
  }

  lemma MovedExactly(s: Sys, at: map<nat, Stage>, a: Act, p: nat, g: Stage, h: Stage)
    requires Staged(s, at) && Can(s, a) && Staged(Step(s, a), Moved(s, at, a))
    requires OnStage(s, p, g) && g != h
    ensures OnStage(Step(s, a), p, h) <==> HandsOff(s, a, p, g, h)
  {
    assert OnStage(Step(s, a), p, h) <==> p in Moved(s, at, a) && Moved(s, at, a)[p] == h;
    if p in Subject(s, a) {
      SubjectOnStage(s, a);
      SubjectMoves(s, at, a, p, h);
    } else {
      OthersStay(s, at, a, p);
      if HandsOff(s, a, p, g, h) {
        OthersNot(s, a, p, g, h);
      }
    }
  }

  /**
   In every run, a connection changes its stage exactly by one of the hand-offs, and every hand-off takes place:
   it goes from the watchers to the loop, to the new-data queue, to the worker that pops it, to the idle queue, and
   over the loop back to the watchers.
   */
  lemma MovesExactly(acts: seq<Act>, a: Act, p: nat, g: Stage, h: Stage)
    requires IsRun(acts) && Can(After(acts), a) && OnStage(After(acts), p, g) && g != h
    ensures OnStage(Step(After(acts), a), p, h) <==> HandsOff(After(acts), a, p, g, h)
  {
    var at := RunGood(acts);
    StepGood(After(acts), at, a);
    MovedExactly(After(acts), at, a, p, g, h);
  }

  // ---- both queues are first in, first out ----

  /** What one action adds to the four logs below. */
  ghost function ReceivedNow(s: Sys, a: Act): seq<nat>
    requires Can(s, a)
  {
    if a == Received(true) then [s.loop.p] else []
  }

  ghost function ProcessedNow(s: Sys, a: Act): seq<nat>
    requires Can(s, a)
  {
    if a.Pop? && a.w in Step(s, a).workers && Step(s, a).workers[a.w].Holding? then [Step(s, a).workers[a.w].p] else []
  }

  ghost function KeptNow(s: Sys, a: Act): seq<nat>
    requires Can(s, a)
  {
    if a.Keep? then [s.workers[a.w].p] else []
  }

  ghost function TakenNow(s: Sys, a: Act): seq<nat>
    requires Can(s, a)
  {
    if a.DrainPop? && Step(s, a).loop.Requeue? then [Step(s, a).loop.p] else []
  }

  /** The connections whose data the loop has received, in order. */
  ghost function ReceivedLog(acts: seq<Act>): seq<nat>
    requires IsRun(acts)
  {
    if |acts| == 0 then [] else
      var n := |acts| - 1;
      ReceivedLog(acts[..n]) + ReceivedNow(After(acts[..n]), acts[n])
  }

  /** The connections that workers have begun to process, in order. */
  ghost function ProcessedLog(acts: seq<Act>): seq<nat>
    requires IsRun(acts)
  {
    if |acts| == 0 then [] else
      var n := |acts| - 1;
      ProcessedLog(acts[..n]) + ProcessedNow(After(acts[..n]), acts[n])
  }

  /** The connections that workers have kept open, in order. */
  ghost function KeptLog(acts: seq<Act>): seq<nat>
    requires IsRun(acts)
  {
    if |acts| == 0 then [] else
      var n := |acts| - 1;
      KeptLog(acts[..n]) + KeptNow(After(acts[..n]), acts[n])
  }

  /** The connections that the loop has taken back, in order. */
  ghost function TakenLog(acts: seq<Act>): seq<nat>
    requires IsRun(acts)
  {
    if |acts| == 0 then [] else
      var n := |acts| - 1;
      TakenLog(acts[..n]) + TakenNow(After(acts[..n]), acts[n])
  }

  lemma QueuesStill(s: Sys, a: Act)
    requires Can(s, a)
    ensures !a.Pop? && !a.Received? ==> Step(s, a).newQ == s.newQ
    ensures !a.Keep? && !a.DrainPop? ==> Step(s, a).idleQ == s.idleQ
  {}

  lemma PopNow(s: Sys, a: Act)
    requires Can(s, a) && a.Pop? && s.newQ != []
    ensures s.newQ == ProcessedNow(s, a) + Step(s, a).newQ
  {}

  lemma ReceiveNow(s: Sys, a: Act)
    requires Can(s, a) && a.Received?
    ensures s.newQ + ReceivedNow(s, a) == Step(s, a).newQ
  {}

  lemma DrainNow(s: Sys, a: Act)
    requires Can(s, a) && a.DrainPop?
    ensures s.idleQ == TakenNow(s, a) + Step(s, a).idleQ
  {}

  lemma KeepNow(s: Sys, a: Act)
    requires Can(s, a) && a.Keep?
    ensures s.idleQ + KeptNow(s, a) == Step(s, a).idleQ
  {}

  lemma NewQueueStep(s: Sys, a: Act)
    requires Can(s, a) && (a.Pop? ==> s.newQ != [])
    ensures s.newQ + ReceivedNow(s, a) == ProcessedNow(s, a) + Step(s, a).newQ
  {
    if a.Pop? {
      PopNow(s, a);
    } else if a.Received? {
      ReceiveNow(s, a);
    } else {
      QueuesStill(s, a);
    }
  }

  lemma IdleQueueStep(s: Sys, a: Act)
    requires Can(s, a)
    ensures s.idleQ + KeptNow(s, a) == TakenNow(s, a) + Step(s, a).idleQ
  {
    if a.DrainPop? {
      DrainNow(s, a);
    } else if a.Keep? {
      KeepNow(s, a);
    } else {
      QueuesStill(s, a);
    }
  }

  lemma Rejoin(x: seq<nat>, y: seq<nat>, q: seq<nat>, i: seq<nat>, o: seq<nat>, r: seq<nat>)
    requires x == y + q && q + i == o + r
    ensures x + i == y + o + r
  {
    assert x + i == y + (q + i);
  }

  /**
   In every run: the connections whose data was received are, in that order, those that workers have begun to
   process and then those in the new-data queue; none is skipped, repeated or overtaken. The same holds from the
   workers that keep a connection back to the loop.
   */
  lemma {:induction false} QueuesAreFifo(acts: seq<Act>)
    requires IsRun(acts)
    ensures ReceivedLog(acts) == ProcessedLog(acts) + After(acts).newQ
    ensures KeptLog(acts) == TakenLog(acts) + After(acts).idleQ
  {
    if |acts| > 0 {
      var n := |acts| - 1;
      var s, a := After(acts[..n]), acts[n];
      QueuesAreFifo(acts[..n]);
      var at := RunGood(acts[..n]);
      if a.Pop? {
        GotFindsOne(s, a.w);
      }
      NewQueueStep(s, a);
      Rejoin(ReceivedLog(acts[..n]), ProcessedLog(acts[..n]), s.newQ,
             ReceivedNow(s, a), ProcessedNow(s, a), Step(s, a).newQ);
      IdleQueueStep(s, a);
      Rejoin(KeptLog(acts[..n]), TakenLog(acts[..n]), s.idleQ, KeptNow(s, a), TakenNow(s, a), Step(s, a).idleQ);
    }
  }

  /** In every run a worker whose wait returned true pops a connection. */
  lemma PopNeverFails(acts: seq<Act>, w: Tid)
    requires IsRun(acts) && At(After(acts), w, Got)
    ensures After(acts).newQ != []
  {
    var at := RunGood(acts);
    GotFindsOne(After(acts), w);
  }

  /**
   In every run: queued connections = available tokens + pushes not yet notified + workers about to pop.
   So a queued connection always has someone coming for it, and no sleeping worker misses a token.
   */
  lemma NoConnectionForgotten(acts: seq<Act>)
    requires IsRun(acts)
    ensures var s := After(acts);
            && |s.newQ| == s.newEv.available + (if s.loop == Appended then 1 else 0) + |AtPc(s.workers, Got)|
            && (s.newQ != [] ==> s.newEv.available > 0 || s.loop == Appended || AtPc(s.workers, Got) != {})
            && (s.newEv.available > 0 && s.newEv.blocked != {} ==> |s.newEv.woken| >= s.newEv.available)
            && (s.idleQ != [] ==> s.wakeup || s.loop == Draining || s.loop.Requeue? || s.loop == TakeToken ||
                                  AtPc(s.workers, IdleAppended) != {} || AtPc(s.workers, IdleNotified) != {})
  {
    var at := RunGood(acts);
  }

  // ---- the check in wakeup_cb that "should not happen" ----

  /**
   wakeup_cb takes one token per popped connection and reports an internal error when there is none. In every
   run there is none exactly when as many pushes to the idle queue are still to be notified as there are
   connections in it, plus the one just popped, plus the failures so far, not counting the tokens that
   wrap-arounds of available_ have lost.
   */
  lemma TokenMissing(acts: seq<Act>)
    requires IsRun(acts) && After(acts).loop == TakeToken
    ensures var s := After(acts);
            !ReturnsTrue(s.idleEv, WaitNb) <==>
              |AtPc(s.workers, IdleAppended)| + UINT_RANGE * s.idleEv.ledger.wraps == |s.idleQ| + 1 + s.failures
  {
    var at := RunGood(acts);
  }

  ghost predicate Reachable(s: Sys) {
    exists acts :: IsRun(acts) && After(acts) == s
  }

  lemma ReachStep(s: Sys, a: Act)
    requires Reachable(s) && Can(s, a)
    ensures Reachable(Step(s, a))
  {
    var acts :| IsRun(acts) && After(acts) == s;
    assert (acts + [a])[..|acts|] == acts;
    assert IsRun(acts + [a]) && After(acts + [a]) == Step(s, a);
  }

  const POOL1 := map[0 := Conn(0)]
  const POOL2 := map[0 := Conn(0), 1 := Conn(1)]

  function Tokens(available: nat, notified: nat, consumed: nat): Snap {
    INIT.(available := available, ledger := Ledger(notified, 0, 0, consumed, 0))
  }

  lemma OneMoreToken(available: nat, notified: nat, consumed: nat)
    requires available < 2
    ensures Added(Tokens(available, notified, consumed), 1) == Tokens(available + 1, notified + 1, consumed)
    ensures INIT == Tokens(0, 0, 0)
  {}

  /** A connection is accepted and watched. */
  lemma Welcomed(s: Sys, p: nat)
    requires Reachable(s) && s.loop == Idle && |s.pool| < MAX_CONNS && Slots.IsFirstFree(s.pool, p)
    ensures Reachable(s.(pool := s.pool[p := Conn(p)], watched := s.watched + {p}))
  {
    ReachStep(s, Accept(p));
    ReachStep(Step(s, Accept(p)), Connected(true));
  }

  lemma OneWatched()
    ensures Reachable(START.(pool := POOL1, watched := {0}))
  {
    assert IsRun([]) && After([]) == START;
    Welcomed(START, 0);
    assert START.pool[0 := Conn(0)] == POOL1 && START.watched + {0} == {0};
  }

  lemma SecondFree()
    ensures |POOL1| == 1 && Slots.IsFirstFree(POOL1, 1)
  {
    forall g: nat | g < 1
      ensures g in POOL1
    {
      assert g == 0 && 0 in POOL1;
    }
  }

  lemma BothWatched()
    ensures Reachable(START.(pool := POOL2, watched := {0, 1}))
  {
    OneWatched();
    var s := START.(pool := POOL1, watched := {0});
    SecondFree();
    Welcomed(s, 1);
    assert s.pool[1 := Conn(1)] == POOL2 && s.watched + {1} == {0, 1};
  }

  /** notify(1) while no one waits adds a token and wakes no one. */
  lemma NoWaiters(e: Snap)
    requires e.waiting == 0 && e.available < 2
    ensures Enabled(e, Notify(1, {})) && Next(e, Notify(1, {})) == Added(e, 1)
  {}

  /** Data on a watched connection p is queued and notified. */
  lemma DataQueued(s: Sys, p: nat)
    requires Reachable(s) && s.loop == Idle && p in s.watched && p in s.pool
    requires s.newEv.waiting == 0 && s.newEv.available < 2
    ensures Reachable(s.(watched := s.watched - {p}, newQ := s.newQ + [p], newEv := Added(s.newEv, 1)))
  {
    ReachStep(s, Data(p));
    var s1 := Step(s, Data(p));
    ReachStep(s1, Received(true));
    var s2 := Step(s1, Received(true));
    NoWaiters(s.newEv);
    ReachStep(s2, NotifyNew({}));
    assert Step(s2, NotifyNew({})) == s.(watched := s.watched - {p}, newQ := s.newQ + [p], newEv := Added(s.newEv, 1));
  }

  lemma BothQueued()
    ensures Reachable(START.(pool := POOL2, newQ := [0, 1], newEv := Tokens(2, 2, 0)))
  {
    OneMoreToken(0, 0, 0);
    OneMoreToken(1, 1, 0);
    BothWatched();
    var s := START.(pool := POOL2, watched := {0, 1});
    DataQueued(s, 0);
    var s1 := START.(pool := POOL2, watched := {1}, newQ := [0], newEv := Tokens(1, 1, 0));
    assert s1 == s.(watched := s.watched - {0}, newQ := s.newQ + [0], newEv := Added(s.newEv, 1));
    DataQueued(s1, 1);
    assert START.(pool := POOL2, newQ := [0, 1], newEv := Tokens(2, 2, 0))
        == s1.(watched := s1.watched - {1}, newQ := s1.newQ + [1], newEv := Added(s1.newEv, 1));
  }

  /** A worker takes the first queued connection. */
  lemma Fetched(s: Sys, w: Tid)
    requires Reachable(s) && At(s, w, Out) && s.newQ != [] && s.newEv.available > 0 && !Inside(s.newEv, w)
    ensures Reachable(s.(newQ := s.newQ[1..], newEv := Next(s.newEv, WaitNb),
                         workers := s.workers[w := Holding(s.newQ[0])]))
  {
    ReachStep(s, Wait(Enter(w)));
    var s1 := s.(newEv := Next(s.newEv, WaitNb), workers := s.workers[w := Got]);
    assert Step(s, Wait(Enter(w))) == s1;
    ReachStep(s1, Pop(w));
    assert s1.workers[w := Holding(s.newQ[0])] == s.workers[w := Holding(s.newQ[0])];
  }

  /** ... and pushes it to the idle queue, up to the notify. */
  lemma Processed(s: Sys, w: Tid)
    requires Reachable(s) && At(s, w, Out) && s.newQ != [] && s.newQ[0] in s.pool
    requires s.newEv.available > 0 && !Inside(s.newEv, w)
    ensures Reachable(s.(newQ := s.newQ[1..], newEv := Next(s.newEv, WaitNb), idleQ := s.idleQ + [s.newQ[0]],
                         workers := s.workers[w := IdleAppended]))
  {
    Fetched(s, w);
    var s1 := s.(newQ := s.newQ[1..], newEv := Next(s.newEv, WaitNb), workers := s.workers[w := Holding(s.newQ[0])]);
    ReachStep(s1, Keep(w));
    assert s1.workers[w := IdleAppended] == s.workers[w := IdleAppended];
  }

  /** ... and notifies and wakes up the loop. */
  lemma Signalled(s: Sys, w: Tid)
    requires Reachable(s) && At(s, w, IdleAppended) && s.idleEv.waiting == 0 && s.idleEv.available < 2
    ensures Reachable(s.(idleEv := Added(s.idleEv, 1), workers := s.workers[w := Out], wakeup := true))
  {
    NoWaiters(s.idleEv);
    ReachStep(s, NotifyIdle(w));
    var s1 := s.(idleEv := Added(s.idleEv, 1), workers := s.workers[w := IdleNotified]);
    assert s1 == Step(s, NotifyIdle(w));
    ReachStep(s1, Async(w));
    assert s1.workers[w := Out] == s.workers[w := Out];
  }

  lemma FirstProcessed(w: Tid)
    ensures Reachable(START.(pool := POOL2, newQ := [1], newEv := Tokens(1, 2, 1), idleQ := [0],
                             workers := map[w := IdleAppended]))
  {
    BothQueued();
    var s := START.(pool := POOL2, newQ := [0, 1], newEv := Tokens(2, 2, 0));
    ReachStep(s, WorkerStart(w));
    var s1 := s.(workers := map[w := Out]);
    assert s.workers[w := Out] == map[w := Out];
    Processed(s1, w);
    assert s1.newQ[1..] == [1] && s1.idleQ + [0] == [0] && s1.workers[w := IdleAppended] == map[w := IdleAppended];
  }

  lemma FirstIdle(w: Tid)
    ensures Reachable(START.(pool := POOL2, newQ := [1], newEv := Tokens(1, 2, 1), idleQ := [0],
                             idleEv := Tokens(1, 1, 0), workers := map[w := Out], wakeup := true))
  {
    OneMoreToken(0, 0, 0);
    FirstProcessed(w);
    var s := START.(pool := POOL2, newQ := [1], newEv := Tokens(1, 2, 1), idleQ := [0],
                    workers := map[w := IdleAppended]);
    Signalled(s, w);
    assert Added(s.idleEv, 1) == Tokens(1, 1, 0);
    assert s.workers[w := Out] == map[w := Out];
    assert s.(idleEv := Added(s.idleEv, 1), workers := s.workers[w := Out], wakeup := true)
        == START.(pool := POOL2, newQ := [1], newEv := Tokens(1, 2, 1), idleQ := [0], idleEv := Tokens(1, 1, 0),
                  workers := map[w := Out], wakeup := true);
  }

  /** wakeup_cb pops the first idle connection, starts its watcher and asks for a token. */
  lemma Requeued(s: Sys)
    requires Reachable(s) && s.loop == Draining && s.idleQ != []
    ensures var s' := s.(idleQ := s.idleQ[1..], watched := s.watched + {s.idleQ[0]});
            Reachable(if s.idleEv.available > 0 then s'.(idleEv := Next(s.idleEv, WaitNb))
                      else s'.(failures := s.failures + 1))
  {
    ReachStep(s, DrainPop);
    var s1 := Step(s, DrainPop);
    ReachStep(s1, Restart);
    ReachStep(Step(s1, Restart), Token);
  }

  /** The tokens of one notify(1) that a wait has taken again. */
  function Spent(e: Snap): Snap {
    e.(ledger := e.ledger.(notified := e.ledger.notified + 1, consumed := e.ledger.consumed + 1))
  }

  lemma SpentIs(e: Snap)
    requires e.available == 0
    ensures Added(e, 1).available == 1 && Next(Added(e, 1), WaitNb) == Spent(e)
  {}

  /** Nothing is queued, no token is available and no one waits: the next hand-off is the only one under way. */
  ghost predicate Quiet(s: Sys) {
    && s.loop == Idle && s.newQ == [] && s.idleQ == []
    && s.newEv.available == 0 && s.newEv.waiting == 0 && s.idleEv.available == 0 && s.idleEv.waiting == 0
  }

  /** From the watchers to the idle queue, up to the worker's notify. */
  lemma ThereAndKept(s: Sys, p: nat, w: Tid)
    requires Reachable(s) && Quiet(s) && p in s.watched && p in s.pool && At(s, w, Out) && !Inside(s.newEv, w)
    ensures Reachable(s.(watched := s.watched - {p}, idleQ := [p], newEv := Spent(s.newEv),
                         workers := s.workers[w := IdleAppended]))
  {
    DataQueued(s, p);
    SpentIs(s.newEv);
    var s1 := s.(watched := s.watched - {p}, newQ := [p], newEv := Added(s.newEv, 1));
    assert s1 == s.(watched := s.watched - {p}, newQ := s.newQ + [p], newEv := Added(s.newEv, 1));
    Processed(s1, w);
    assert s1.newQ[1..] == [] && s1.idleQ + [s1.newQ[0]] == [p];
  }

  /** The notify and the wake-up of the loop, and the loop takes the connection back. */
  lemma BackToWatchers(s: Sys, p: nat, w: Tid)
    requires Reachable(s) && s.loop == Idle && s.idleQ == [p] && At(s, w, IdleAppended)
    requires s.idleEv.available == 0 && s.idleEv.waiting == 0
    ensures Reachable(s.(watched := s.watched + {p}, idleQ := [], idleEv := Spent(s.idleEv), wakeup := false,
                         workers := s.workers[w := Out]))
  {
    Signalled(s, w);
    SpentIs(s.idleEv);
    var s1 := s.(idleEv := Added(s.idleEv, 1), workers := s.workers[w := Out], wakeup := true);
    ReachStep(s1, Wakeup);
    var s2 := s1.(wakeup := false, loop := Draining);
    Requeued(s2);
    var s3 := s2.(idleQ := [], watched := s.watched + {p}, idleEv := Spent(s.idleEv));
    assert s2.idleQ[1..] == [] && s2.idleQ[0] == p;
    assert s3 == s2.(idleQ := s2.idleQ[1..], watched := s2.watched + {s2.idleQ[0]}, idleEv := Next(s2.idleEv, WaitNb));
    ReachStep(s3, DrainEnd);
  }

  /**
   One whole round of a connection: data arrives, a worker processes and keeps it, and the loop watches it again.
   Every part of the listener is then as it was before, but for the one token each event has counted in and out.
   */
  lemma FullRound(s: Sys, p: nat, w: Tid)
    requires Reachable(s) && Quiet(s) && p in s.watched && p in s.pool && At(s, w, Out) && !Inside(s.newEv, w)
    ensures Reachable(s.(newEv := Spent(s.newEv), idleEv := Spent(s.idleEv), wakeup := false))
  {
    ThereAndKept(s, p, w);
    var s1 := s.(watched := s.watched - {p}, idleQ := [p], newEv := Spent(s.newEv),
                 workers := s.workers[w := IdleAppended]);
    BackToWatchers(s1, p, w);
    assert s1.watched + {p} == s.watched && s1.workers[w := Out] == s.workers;
  }

  /** A run in which the error occurs: the loop pops a second connection before its push is notified. */
  lemma TokenCanBeMissing(w: Tid)
    ensures exists acts :: IsRun(acts) && After(acts).failures == 1
  {
    FirstIdle(w);
    var s := START.(pool := POOL2, newQ := [1], newEv := Tokens(1, 2, 1), idleQ := [0], idleEv := Tokens(1, 1, 0),
                    workers := map[w := Out], wakeup := true);
    Processed(s, w);
    assert s.newQ[1..] == [] && s.idleQ + [1] == [0, 1];
    var s1 := s.(newQ := [], newEv := Tokens(0, 2, 2), idleQ := [0, 1], workers := map[w := IdleAppended]);
    ReachStep(s1, Wakeup);
    Requeued(s1.(wakeup := false, loop := Draining));
    assert [0, 1][1..] == [1];
    var s2 := s1.(wakeup := false, loop := Draining, idleQ := [1], watched := {0}, idleEv := Tokens(0, 1, 1));
    Requeued(s2);
  }
}
