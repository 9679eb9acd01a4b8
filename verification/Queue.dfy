/**
 queue: a FIFO threaded by position through the slots of an inpvec. A popped item
 stays in its slot, owned by a handler, until the handler is reset.
 */
module Queue {
  import opened Chunks
  import opened InpVec

  /** queue::item: the value, the slot it lives in, and the slot of its successor. */
  datatype Item<T> = Item(item: T, pos: nat, next: nat)

  const NO_POS: nat := 0xBadBeafFeedBacc
  const NO_NEXT: nat := 0xFeedBadBeefBacc

  // ---- chains of slots ----

  ghost function Members(chain: seq<nat>): set<nat> {
    set s | s in chain
  }

  ghost predicate Apart(chain: seq<nat>, i: nat, j: nat) {
    i < |chain| && j < |chain| && chain[i] != chain[j]
  }

  ghost predicate Distinct(chain: seq<nat>) {
    forall i, j {:trigger Apart(chain, i, j)} :: 0 <= i < j < |chain| ==> Apart(chain, i, j)
  }

  ghost function First(chain: seq<nat>): Option<nat> {
    if |chain| > 0 then Some(chain[0]) else None
  }

  ghost function Last(chain: seq<nat>): Option<nat> {
    if |chain| > 0 then Some(chain[|chain| - 1]) else None
  }

  ghost predicate Link<T>(m: map<nat, Item<T>>, chain: seq<nat>, i: nat) {
    i + 1 < |chain| && chain[i] in m && m[chain[i]].next == chain[i + 1]
  }

  /** Each slot of the chain but the last names the next one. */
  ghost predicate Linked<T>(m: map<nat, Item<T>>, chain: seq<nat>) {
    forall i {:trigger Link(m, chain, i)} :: 0 <= i < |chain| - 1 ==> Link(m, chain, i)
  }

  ghost predicate PosOk<T>(m: map<nat, Item<T>>) {
    forall s :: s in m ==> m[s].pos == s
  }

  /** The values along the chain are those of fifo. */
  ghost predicate Carries<T>(m: map<nat, Item<T>>, chain: seq<nat>, fifo: seq<T>) {
    && |fifo| == |chain|
    && forall i {:trigger fifo[i]} :: 0 <= i < |fifo| ==> chain[i] in m && m[chain[i]].item == fifo[i]
  }

  /**
   The state of a queue: the used slots are the chain, which carries fifo, and the slots held by handlers;
   no slot is both, and every item knows its slot.
   */
  ghost predicate Good<T>(m: map<nat, Item<T>>, chain: seq<nat>, held: set<nat>, fifo: seq<T>) {
    && m.Keys == Members(chain) + held && Members(chain) !! held && Distinct(chain)
    && Linked(m, chain) && PosOk(m)
    && Carries(m, chain, fifo)
  }

  /** What append_item leaves behind: the new slot s filled in, and the old last slot pointing at it. */
  ghost function Appended<T>(m: map<nat, Item<T>>, chain: seq<nat>, s: nat, t: T): map<nat, Item<T>>
    requires Members(chain) <= m.Keys
  {
    var m' := m[s := Item(t, s, 0)];
    if |chain| == 0 then m' else
      var last := chain[|chain| - 1];
      assert last in Members(chain);
      m'[last := m[last].(next := s)]
  }

  lemma AppendedLinked<T>(m: map<nat, Item<T>>, chain: seq<nat>, s: nat, t: T)
    requires Members(chain) <= m.Keys && s !in m && Distinct(chain) && Linked(m, chain)
    ensures Distinct(chain + [s]) && Linked(Appended(m, chain, s, t), chain + [s])
  {
    forall i, j | 0 <= i < j < |chain + [s]|
      ensures Apart(chain + [s], i, j)
    {
      assert chain[i] in Members(chain);
      assert j < |chain| ==> Apart(chain, i, j);
    }
    var n, c := Appended(m, chain, s, t), chain + [s];
    forall i | 0 <= i < |chain|
      ensures chain[i] in m
    {
      assert chain[i] in Members(chain);
    }
    forall i | 0 <= i < |c| - 1
      ensures Link(n, c, i)
    {
      if i < |chain| - 1 {
        assert Link(m, chain, i);
        assert Apart(chain, i, |chain| - 1);
      }
    }
  }

  lemma PushGood<T>(m: map<nat, Item<T>>, chain: seq<nat>, held: set<nat>, fifo: seq<T>, s: nat, t: T)
    requires Good(m, chain, held, fifo) && s !in m
    ensures Good(Appended(m, chain, s, t), chain + [s], held, fifo + [t])
    ensures forall x :: x in held ==> x in m && Appended(m, chain, s, t)[x] == m[x]
  {
    var n := Appended(m, chain, s, t);
    AppendedLinked(m, chain, s, t);
    assert Members(chain + [s]) == Members(chain) + {s};
    if chain != [] {
      assert chain[|chain| - 1] in Members(chain);
    }
  }

  lemma PopGood<T>(m: map<nat, Item<T>>, chain: seq<nat>, held: set<nat>, fifo: seq<T>)
    requires Good(m, chain, held, fifo) && chain != []
    ensures Good(m, chain[1..], held + {chain[0]}, fifo[1..])
    ensures fifo != [] && chain[0] !in held && chain[0] in m && m[chain[0]].item == fifo[0]
    ensures |chain| > 1 ==> m[chain[0]].next == chain[1] && chain[1] in m
    ensures |chain| > 1 <==> chain[0] != chain[|chain| - 1]
  {
    assert chain[0] in Members(chain);
    assert Members(chain) == Members(chain[1..]) + {chain[0]};
    forall i, j | 0 <= i < j < |chain[1..]|
      ensures Apart(chain[1..], i, j)
    {
      assert Apart(chain, i + 1, j + 1);
    }
    forall i | 0 <= i < |chain[1..]|
      ensures chain[1..][i] != chain[0]
    {
      assert Apart(chain, 0, i + 1);
    }
    assert chain[0] !in Members(chain[1..]);
    if |chain| > 1 {
      assert Link(m, chain, 0);
      assert chain[1] in Members(chain);
    }
    forall i | 0 <= i < |chain| - 2
      ensures Link(m, chain[1..], i)
    {
      assert Link(m, chain, i + 1);
    }
  }

  lemma FreeGood<T>(m: map<nat, Item<T>>, chain: seq<nat>, held: set<nat>, fifo: seq<T>, s: nat)
    requires Good(m, chain, held, fifo) && s in held
    ensures Good(m - {s}, chain, held - {s}, fifo)
  {
    forall i | 0 <= i < |chain| - 1
      ensures Link(m - {s}, chain, i)
    {
      assert Link(m, chain, i);
      assert chain[i] in Members(chain);
    }
  }

  /** As many slots are in use as the chain and the handlers account for. */
  lemma SlotCount<T>(m: map<nat, Item<T>>, chain: seq<nat>, held: set<nat>, fifo: seq<T>)
    requires Good(m, chain, held, fifo)
    ensures |m| == |chain| + |held| && |fifo| == |chain|
  {
    ChainSize(chain);
    assert |m.Keys| == |Members(chain)| + |held|;
  }

  lemma {:induction false} ChainSize(chain: seq<nat>)
    requires Distinct(chain)
    ensures |Members(chain)| == |chain|
  {
    if chain != [] {
      var n := |chain| - 1;
      forall i, j | 0 <= i < j < n
        ensures Apart(chain[..n], i, j)
      {
        assert Apart(chain, i, j);
      }
      forall i | 0 <= i < n
        ensures chain[..n][i] != chain[n]
      {
        assert Apart(chain, i, n);
      }
      assert chain[n] !in Members(chain[..n]);
      ChainSize(chain[..n]);
      assert Members(chain) == Members(chain[..n]) + {chain[n]};
    }
  }

  /**
   chain: slots from head to tail; held: slots popped and not yet given back;
   fifo: the FIFO the queue stands for; popped: what has left it, in order.
   */
  datatype State<T> = State(chain: seq<nat>, held: set<nat>, fifo: seq<T>, popped: seq<T>)

  ghost function Pushed<T>(st: State<T>, s: nat, t: T): State<T> {
    State(st.chain + [s], st.held, st.fifo + [t], st.popped)
  }

  ghost function Popped<T>(st: State<T>): State<T>
    requires st.chain != [] && st.fifo != []
  {
    State(st.chain[1..], st.held + {st.chain[0]}, st.fifo[1..], st.popped + [st.fifo[0]])
  }

  ghost function Freed<T>(st: State<T>, s: nat): State<T> {
    st.(held := st.held - {s})
  }

  ghost predicate Inv<T>(m: map<nat, Item<T>>, st: State<T>) {
    Good(m, st.chain, st.held, st.fifo)
  }

  /** The slots held in st keep their items from m to n. */
  ghost predicate Keeps<T>(m: map<nat, Item<T>>, n: map<nat, Item<T>>, held: set<nat>) {
    forall x :: x in held ==> x in m && x in n && m[x] == n[x]
  }

  lemma PushInv<T>(m: map<nat, Item<T>>, st: State<T>, s: nat, t: T)
    requires Inv(m, st) && s !in m
    ensures Inv(Appended(m, st.chain, s, t), Pushed(st, s, t))
    ensures Keeps(m, Appended(m, st.chain, s, t), st.held)
    ensures First(st.chain + [s]) == if |st.chain| == 0 then Some(s) else First(st.chain)
    ensures Last(st.chain + [s]) == Some(s)
  {
    PushGood(m, st.chain, st.held, st.fifo, s, t);
  }

  lemma PopInv<T>(m: map<nat, Item<T>>, st: State<T>)
    requires Inv(m, st) && st.chain != []
    ensures st.fifo != [] && Inv(m, Popped(st))
    ensures var c := st.chain;
            && c[0] !in st.held && c[0] in m && m[c[0]].item == st.fifo[0]
            && (|c| > 1 <==> First(c) != Last(c))
            && (|c| > 1 ==> c[1] in m && m[c[0]].next == c[1] && First(c[1..]) == Some(c[1]) && Last(c[1..]) == Last(c))
            && (|c| == 1 ==> First(c[1..]) == None && Last(c[1..]) == None)
  {
    PopGood(m, st.chain, st.held, st.fifo);
  }

  lemma FreeInv<T>(m: map<nat, Item<T>>, st: State<T>, s: nat)
    requires Inv(m, st) && s in st.held
    ensures Inv(m - {s}, Freed(st, s)) && Keeps(m, m - {s}, st.held - {s})
    ensures s in m && m[s].pos == s
  {
    FreeGood(m, st.chain, st.held, st.fifo, s);
  }

  // ---- the fields of a queue, and what its critical sections do to them ----

  /** The slots of items_, the slots head_ and tail_ point to, and n_items_. */
  datatype Fields<T> = Fields(m: map<nat, Item<T>>, head: Option<nat>, tail: Option<nat>, n: nat)

  /** A slot whose successor is set. */
  function Linking<T>(m: map<nat, Item<T>>, s: nat, next: nat): map<nat, Item<T>> {
    if s in m then m[s := m[s].(next := next)] else m
  }

  /** push of t into slot s: append_item writes the item and links it behind the tail. */
  function Append<T>(c: Fields<T>, s: nat, t: T): Fields<T> {
    var m := c.m[s := Item(t, s, 0)];
    if c.tail.None? then Fields(m, Some(s), Some(s), c.n + 1)
    else Fields(Linking(m, c.tail.value, s), c.head, Some(s), c.n + 1)
  }

  function NextOf<T>(m: map<nat, Item<T>>, s: nat): nat {
    if s in m then m[s].next else 0
  }

  /** pop finds no item in the slot its first item names as successor: the invalid state. */
  predicate Stuck<T>(c: Fields<T>) {
    c.head.Some? && c.head != c.tail && NextOf(c.m, c.head.value) !in c.m
  }

  /** pop, up to the hand-over of the first item: none is left behind the tail, whatever its next_ says. */
  function Unlink<T>(c: Fields<T>): Fields<T> {
    if c.head.None? then c
    else if c.head == c.tail then Fields(c.m, None, None, if c.n > 0 then c.n - 1 else 0)
    else if Stuck(c) then c.(head := None)
    else c.(head := Some(NextOf(c.m, c.head.value)), n := if c.n > 0 then c.n - 1 else 0)
  }

  /** free_item of the item in slot s: frees the position the item says it has. */
  function GiveBack<T>(c: Fields<T>, s: nat): Fields<T> {
    if s in c.m then c.(m := c.m - {c.m[s].pos}) else c
  }

  /** The fields stand for the state st. */
  ghost predicate StandsFor<T>(c: Fields<T>, st: State<T>) {
    Inv(c.m, st) && c.head == First(st.chain) && c.tail == Last(st.chain) && c.n == |st.chain|
  }

  lemma AppendStands<T>(c: Fields<T>, st: State<T>, s: nat, t: T)
    requires StandsFor(c, st) && s !in c.m
    ensures StandsFor(Append(c, s, t), Pushed(st, s, t)) && Keeps(c.m, Append(c, s, t).m, st.held)
    ensures Append(c, s, t).m == Appended(c.m, st.chain, s, t)
  {
    PushInv(c.m, st, s, t);
    if st.chain != [] {
      assert st.chain[|st.chain| - 1] in Members(st.chain);
    }
  }

  lemma TailUsed<T>(c: Fields<T>, st: State<T>)
    requires StandsFor(c, st)
    ensures c.tail.Some? ==> c.tail.value in c.m
  {
    if st.chain != [] {
      assert st.chain[|st.chain| - 1] in Members(st.chain);
    }
  }

  lemma UnlinkStands<T>(c: Fields<T>, st: State<T>)
    requires StandsFor(c, st) && c.head.Some?
    ensures st.chain != [] && st.fifo != [] && StandsFor(Unlink(c), Popped(st)) && !Stuck(c) && Unlink(c).m == c.m
    ensures c.head.value in c.m && c.head.value !in st.held && c.m[c.head.value].item == st.fifo[0]
  {
    PopInv(c.m, st);
  }

  lemma GiveBackStands<T>(c: Fields<T>, st: State<T>, s: nat)
    requires StandsFor(c, st) && s in st.held
    ensures s in c.m && GiveBack(c, s).m == c.m - {s}
    ensures StandsFor(GiveBack(c, s), Freed(st, s)) && Keeps(c.m, GiveBack(c, s).m, st.held - {s})
  {
    FreeInv(c.m, st, s);
  }

  // ---- whole runs, with any number of handlers ----

  /** A queue and the handlers that hold one of its items, each with the slot it points to. */
  datatype Sys<T> = Sys(core: Fields<T>, hs: map<nat, nat>)

  /** push, which has found the free slot s, pop into handler h, and reset of handler h. */
  datatype Op<T> = PushOp(s: nat, t: T) | PopOp(h: nat) | ResetOp(h: nat)

  predicate Enabled<T>(sys: Sys<T>, op: Op<T>) {
    op.PushOp? ==> op.s !in sys.core.m
  }

  /** pop finds an item to take. */
  predicate Takes<T>(sys: Sys<T>, op: Op<T>) {
    op.PopOp? && sys.core.head.Some? && !Stuck(sys.core)
  }

  function Reset<T>(sys: Sys<T>, h: nat): Sys<T> {
    if h in sys.hs then Sys(GiveBack(sys.core, sys.hs[h]), sys.hs - {h}) else sys
  }

  function Step<T>(sys: Sys<T>, op: Op<T>): Sys<T>
    requires Enabled(sys, op)
  {
    match op
    case PushOp(s, t) => sys.(core := Append(sys.core, s, t))
    case PopOp(h) =>
      var after := sys.(core := Unlink(sys.core));
      if Takes(sys, op) then var r := Reset(after, h); r.(hs := r.hs[h := sys.core.head.value]) else after
    case ResetOp(h) => Reset(sys, h)
  }

  ghost predicate IsRun<T>(ops: seq<Op<T>>)
    decreases |ops|, 0
  {
    |ops| > 0 ==> IsRun(ops[..|ops| - 1]) && Enabled(After(ops[..|ops| - 1]), ops[|ops| - 1])
  }

  ghost function After<T>(ops: seq<Op<T>>): Sys<T>
    requires IsRun(ops)
    decreases |ops|, 1
  {
    if |ops| == 0 then Sys(Fields(map[], None, None, 0), map[])
    else Step(After(ops[..|ops| - 1]), ops[|ops| - 1])
  }

  /** The values pushed by a run, in order. */
  ghost function Pushes<T>(ops: seq<Op<T>>): seq<T> {
    if |ops| == 0 then [] else
      var op := ops[|ops| - 1];
      Pushes(ops[..|ops| - 1]) + if op.PushOp? then [op.t] else []
  }

  /** The value in the slot head_ points to. */
  ghost function HeadValue<T>(c: Fields<T>): seq<T> {
    if c.head.Some? && c.head.value in c.m then [c.m[c.head.value].item] else []
  }

  /** The values popped by a run, in order. */
  ghost function Pops<T>(ops: seq<Op<T>>): seq<T>
    requires IsRun(ops)
  {
    if |ops| == 0 then [] else
      var before := ops[..|ops| - 1];
      Pops(before) + if Takes(After(before), ops[|ops| - 1]) then HeadValue(After(before).core) else []
  }

  ghost function GotBy<T>(sys: Sys<T>, got: map<nat, T>, op: Op<T>): map<nat, T> {
    if Takes(sys, op) && HeadValue(sys.core) != [] then got[op.h := HeadValue(sys.core)[0]]
    else if op.ResetOp? then got - {op.h} else got
  }

  /** What each handler has popped and not yet given back. */
  ghost function Got<T>(ops: seq<Op<T>>): map<nat, T>
    requires IsRun(ops)
  {
    if |ops| == 0 then map[] else
      GotBy(After(ops[..|ops| - 1]), Got(ops[..|ops| - 1]), ops[|ops| - 1])
  }

  ghost predicate Has(hs: map<nat, nat>, h: nat, s: nat) {
    h in hs && hs[h] == s
  }

  /** Every held slot has one handler, and no handler has another slot. */
  ghost predicate OneEach(hs: map<nat, nat>, held: set<nat>) {
    && (forall h :: h in hs ==> hs[h] in held)
    && (forall s :: s in held ==> exists h :: Has(hs, h, s))
    && (forall h, k :: h in hs && k in hs && h != k ==> hs[h] != hs[k])
  }

  /** Each handler's slot holds the value it got. */
  ghost predicate KeepValues<T>(m: map<nat, Item<T>>, hs: map<nat, nat>, got: map<nat, T>) {
    got.Keys == hs.Keys && forall h :: h in hs ==> hs[h] in m && m[hs[h]].item == got[h]
  }

  ghost predicate Sound<T>(sys: Sys<T>, st: State<T>, got: map<nat, T>) {
    StandsFor(sys.core, st) && OneEach(sys.hs, st.held) && KeepValues(sys.core.m, sys.hs, got)
  }

  /** A handler that gives its slot back. */
  lemma OneLess(hs: map<nat, nat>, held: set<nat>, h: nat)
    requires OneEach(hs, held) && h in hs
    ensures OneEach(hs - {h}, held - {hs[h]})
  {
    forall s | s in held - {hs[h]}
      ensures exists k :: Has(hs - {h}, k, s)
    {
      var k :| Has(hs, k, s);
      assert Has(hs - {h}, k, s);
    }
  }

  /** A handler without a slot that gets a new one. */
  lemma OneMore(hs: map<nat, nat>, held: set<nat>, h: nat, s: nat)
    requires OneEach(hs, held) && h !in hs && s !in held
    ensures OneEach(hs[h := s], held + {s})
  {
    var more := hs[h := s];
    forall x | x in held + {s}
      ensures exists k :: Has(more, k, x)
    {
      if x == s {
        assert Has(more, h, x);
      } else {
        var k :| Has(hs, k, x);
        assert Has(more, k, x);
      }
    }
  }

  /** A handler that gives its slot back, if it has one, and gets a new one. */
  lemma OneOther(hs: map<nat, nat>, held: set<nat>, h: nat, s: nat)
    requires OneEach(hs, held) && s !in held
    ensures OneEach(hs[h := s], if h in hs then held + {s} - {hs[h]} else held + {s})
  {
    if h in hs {
      OneLess(hs, held, h);
      OneMore(hs - {h}, held - {hs[h]}, h, s);
      assert (hs - {h})[h := s] == hs[h := s];
      assert held - {hs[h]} + {s} == held + {s} - {hs[h]};
    } else {
      OneMore(hs, held, h, s);
    }
  }

  lemma ResetSound<T>(sys: Sys<T>, st: State<T>, got: map<nat, T>, h: nat)
    requires Sound(sys, st, got)
    ensures Sound(Reset(sys, h), if h in sys.hs then Freed(st, sys.hs[h]) else st, got - {h})
  {
    if h in sys.hs {
      GiveBackStands(sys.core, st, sys.hs[h]);
      OneLess(sys.hs, st.held, h);
    } else {
      assert got - {h} == got;
    }
  }

  lemma PushSound<T>(sys: Sys<T>, st: State<T>, got: map<nat, T>, s: nat, t: T)
    requires Sound(sys, st, got) && s !in sys.core.m
    ensures Sound(Step(sys, PushOp(s, t)), Pushed(st, s, t), got)
  {
    AppendStands(sys.core, st, s, t);
  }

  /** The state after pop into h: its old slot is given back once the first item is taken. */
  ghost function TakenBy<T>(st: State<T>, hs: map<nat, nat>, h: nat): State<T>
    requires st.chain != [] && st.fifo != []
  {
    if h in hs then Freed(Popped(st), hs[h]) else Popped(st)
  }

  lemma PopStep<T>(sys: Sys<T>, st: State<T>, h: nat)
    requires StandsFor(sys.core, st) && OneEach(sys.hs, st.held) && sys.core.head.Some?
    ensures Takes(sys, PopOp(h)) && st.chain != [] && st.fifo != [] && HeadValue(sys.core) == [st.fifo[0]]
    ensures var r, i := Step(sys, PopOp(h)), sys.core.head.value;
            && StandsFor(r.core, TakenBy(st, sys.hs, h)) && r.hs == sys.hs[h := i]
            && i !in st.held && i in r.core.m && r.core.m[i].item == st.fifo[0]
            && Keeps(sys.core.m, r.core.m, if h in sys.hs then st.held - {sys.hs[h]} else st.held)
  {
    UnlinkStands(sys.core, st);
    var n := Unlink(sys.core);
    if h in sys.hs {
      GiveBackStands(n, Popped(st), sys.hs[h]);
      assert (sys.hs - {h})[h := sys.core.head.value] == sys.hs[h := sys.core.head.value];
    } else {
      HeldUsed(sys.core, st);
    }
  }

  lemma HeldUsed<T>(c: Fields<T>, st: State<T>)
    requires StandsFor(c, st)
    ensures Keeps(c.m, c.m, st.held)
  {
  }

  lemma PopSound<T>(sys: Sys<T>, st: State<T>, got: map<nat, T>, h: nat)
    requires Sound(sys, st, got) && sys.core.head.Some?
    ensures Takes(sys, PopOp(h)) && st.chain != [] && st.fifo != [] && HeadValue(sys.core) == [st.fifo[0]]
    ensures Sound(Step(sys, PopOp(h)), TakenBy(st, sys.hs, h), got[h := st.fifo[0]])
  {
    PopStep(sys, st, h);
    var r, i := Step(sys, PopOp(h)), sys.core.head.value;
    assert OneEach(r.hs, TakenBy(st, sys.hs, h).held) by {
      OneOther(sys.hs, st.held, h, i);
      assert st.chain[0] == i;
    }
    assert KeepValues(r.core.m, r.hs, got[h := st.fifo[0]]) by {
      forall k | k in r.hs
        ensures r.hs[k] in r.core.m && r.core.m[r.hs[k]].item == got[h := st.fifo[0]][k]
      {
        assert k != h ==> k in sys.hs && r.hs[k] in st.held;
      }
    }
  }

  lemma TakenHistory<T>(st: State<T>, hs: map<nat, nat>, h: nat)
    requires st.chain != [] && st.fifo != []
    ensures var n := TakenBy(st, hs, h);
            n.popped == st.popped + [st.fifo[0]] && n.popped + n.fifo == st.popped + st.fifo
  {
  }

  /** The values pushed are those popped and those queued: what op adds to both. */
  ghost predicate Logged<T>(sys: Sys<T>, st: State<T>, op: Op<T>, n: State<T>) {
    && n.popped == st.popped + (if Takes(sys, op) then HeadValue(sys.core) else [])
    && n.popped + n.fifo == st.popped + st.fifo + if op.PushOp? then [op.t] else []
  }

  /** Every critical section keeps all of it. */
  lemma StepSound<T>(sys: Sys<T>, st: State<T>, got: map<nat, T>, op: Op<T>) returns (n: State<T>)
    requires Sound(sys, st, got) && Enabled(sys, op)
    ensures Sound(Step(sys, op), n, GotBy(sys, got, op)) && Logged(sys, st, op, n)
  {
    n := st;
    match op
    case PushOp(s, t) =>
      PushSound(sys, st, got, s, t);
      n := Pushed(st, s, t);
    case PopOp(h) =>
      if sys.core.head.Some? {
        PopSound(sys, st, got, h);
        TakenHistory(st, sys.hs, h);
        n := TakenBy(st, sys.hs, h);
      }
    case ResetOp(h) =>
      ResetSound(sys, st, got, h);
      n := if h in sys.hs then Freed(st, sys.hs[h]) else st;
  }

  lemma {:induction false} RunSound<T>(ops: seq<Op<T>>) returns (st: State<T>)
    requires IsRun(ops)
    ensures Sound(After(ops), st, Got(ops)) && st.popped == Pops(ops) && st.popped + st.fifo == Pushes(ops)
  {
    if |ops| == 0 {
      st := State([], {}, [], []);
    } else {
      var before := ops[..|ops| - 1];
      var was := RunSound(before);
      st := StepSound(After(before), was, Got(before), ops[|ops| - 1]);
    }
  }

  /** The slots met by following next_ from s, n in all. */
  ghost function Walk<T>(m: map<nat, Item<T>>, s: nat, n: nat): seq<nat>
    decreases n
  {
    if n == 0 then [] else [s] + Walk(m, NextOf(m, s), n - 1)
  }

  /** The slots of the queued items: n_items_ of them, from head_ on. */
  ghost function Queued<T>(c: Fields<T>): seq<nat> {
    if c.head.None? then [] else Walk(c.m, c.head.value, c.n)
  }

  /** The values in a list of slots. */
  ghost function ValuesIn<T>(m: map<nat, Item<T>>, slots: seq<nat>): seq<T> {
    if slots == [] then [] else
      ValuesIn(m, slots[..|slots| - 1]) +
      if slots[|slots| - 1] in m then [m[slots[|slots| - 1]].item] else []
  }

  lemma {:induction false} WalkIsChain<T>(m: map<nat, Item<T>>, chain: seq<nat>)
    requires Linked(m, chain) && chain != []
    ensures Walk(m, chain[0], |chain|) == chain
  {
    if |chain| > 1 {
      assert Link(m, chain, 0);
      forall i | 0 <= i < |chain| - 2
        ensures Link(m, chain[1..], i)
      {
        assert Link(m, chain, i + 1);
      }
      WalkIsChain(m, chain[1..]);
    }
  }

  lemma {:induction false} ValuesInChain<T>(m: map<nat, Item<T>>, chain: seq<nat>, fifo: seq<T>)
    requires Carries(m, chain, fifo)
    ensures ValuesIn(m, chain) == fifo
  {
    if chain != [] {
      var n := |chain| - 1;
      var last := fifo[n];
      assert chain[n] in m && m[chain[n]].item == last;
      forall i | 0 <= i < n
        ensures chain[..n][i] in m && m[chain[..n][i]].item == fifo[..n][i]
      {
        var x := fifo[i];
      }
      ValuesInChain(m, chain[..n], fifo[..n]);
      assert fifo == fifo[..n] + [fifo[n]];
    }
  }

  /**
   In every run with any number of handlers, what has been popped, followed by what is met from head_ on
   along next_, are the values pushed, in push order.
   */
  lemma RunIsFifo<T>(ops: seq<Op<T>>)
    requires IsRun(ops)
    ensures var c := After(ops).core; Pops(ops) + ValuesIn(c.m, Queued(c)) == Pushes(ops)
  {
    var c := After(ops).core;
    var st := RunSound(ops);
    if st.chain != [] {
      WalkIsChain(c.m, st.chain);
    }
    ValuesInChain(c.m, st.chain, st.fifo);
  }

  /**
   In every run the used slots are those of the queued items and those of the handlers, no slot is two of
   these, the queued ones are n_items_ in number and end at tail_, and every item knows its slot.
   */
  lemma RunSlots<T>(ops: seq<Op<T>>)
    requires IsRun(ops)
    ensures var sys := After(ops);
            var c, q := sys.core, Queued(sys.core);
            && |q| == c.n && c.head == First(q) && c.tail == Last(q) && Distinct(q)
            && c.m.Keys == Members(q) + sys.hs.Values && Members(q) !! sys.hs.Values && PosOk(c.m)
            && |c.m| == c.n + |sys.hs|
            && (forall h, k :: h in sys.hs && k in sys.hs && h != k ==> sys.hs[h] != sys.hs[k])
  {
    var sys := After(ops);
    var st := RunSound(ops);
    if st.chain != [] {
      WalkIsChain(sys.core.m, st.chain);
    }
    assert sys.hs.Values == st.held;
    SlotCount(sys.core.m, st.chain, st.held, st.fifo);
    ManyHandlers(sys.hs, st.held);
  }

  lemma {:induction false} ManyHandlers(hs: map<nat, nat>, held: set<nat>)
    requires OneEach(hs, held)
    ensures |hs| == |held|
    decreases |hs|
  {
    if hs == map[] {
      assert held == {} by {
        assert forall h, s :: !Has(hs, h, s);
      }
    } else {
      var h :| h in hs;
      OneLess(hs, held, h);
      var rest := hs - {h};
      assert hs.Keys == rest.Keys + {h};
      ManyHandlers(rest, held - {hs[h]});
    }
  }

  /**
   In every run a handler's slot holds the value it popped until it is reset, and pop never meets the invalid
   state.
   */
  lemma RunKeepsValues<T>(ops: seq<Op<T>>)
    requires IsRun(ops)
    ensures var sys := After(ops);
            && Got(ops).Keys == sys.hs.Keys
            && (forall h :: h in sys.hs ==> sys.hs[h] in sys.core.m && sys.core.m[sys.hs[h]].item == Got(ops)[h])
            && !Stuck(sys.core)
  {
    var st := RunSound(ops);
    if After(ops).core.head.Some? {
      UnlinkStands(After(ops).core, st);
    }
  }

  class Handler<T> {
    var q: Queue?<T>
    var i: Option<nat>

    constructor ()
      ensures q == null && i == None
    {
      q := null;
      i := None;
    }

    /** The handler holds nothing, or a slot its queue has recorded as popped. */
    ghost predicate Holds()
      reads this, q
    {
      i.Some? ==> q != null && i.value in q.st.held
    }

    /** reset: gives the slot back to the queue. */
    method Reset()
      requires Holds() && (i.Some? ==> q.Valid())
      modifies this, if i.Some? then {q, q.items} else {}
      ensures i == None && q == if old(i.Some?) then null else old(q)
      ensures old(i.Some?) ==> old(q).Valid() && old(q).st == Freed(old(q.st), old(i.value))
      ensures old(i.Some?) ==> old(q).Now() == GiveBack(old(q.Now()), old(i.value))
    {
      if i.Some? && q != null {
        q.FreeItem(i.value);
        i := None;
        q := null;
      }
    }
  }

  class Queue<T> {
    const items: Vec<Item<T>>
    var head: Option<nat>
    var tail: Option<nat>
    var nItems: nat
    ghost var st: State<T>

    ghost function Now(): Fields<T>
      reads this, items
    {
      Fields(items.contents, head, tail, nItems)
    }

    ghost predicate Valid()
      reads this, items
    {
      items.Valid() && StandsFor(Now(), st)
    }

    constructor ()
      ensures Valid() && fresh(items) && st == State([], {}, [], []) && Now() == Fields(map[], None, None, 0)
    {
      items := new Vec<Item<T>>();
      head, tail, nItems := None, None, 0;
      st := State([], {}, [], []);
    }

    /** free_item: empties the slot a handler held. */
    method FreeItem(s: nat)
      requires Valid() && s in st.held
      modifies this`st, items
      ensures Valid() && st == Freed(old(st), s) && Now() == GiveBack(old(Now()), s)
    {
      GiveBackStands(Now(), st, s);
      var i := items.GetPtr(s);
      var ok := items.FreeAt(i.value.pos);
      st := Freed(st, s);
    }

    /** push: the value goes to the least free slot, which is linked behind the tail. */
    method Push(t: T) returns (ghost s: nat)
      requires Valid()
      modifies this, items
      ensures Valid() && st == Pushed(old(st), s, t) && Now() == Append(old(Now()), s, t)
      ensures IsFirstFree(old(items.contents), s) && Keeps(old(items.contents), items.contents, st.held)
    {
      ghost var c := Now();
      var ii := items.FirstFree();
      s := ii.gpos;
      TailUsed(c, st);
      items.SetAt(ii, Item(t, NO_POS, NO_NEXT));
      AppendItem(ii.gpos, c, t);
      AppendStands(c, st, s, t);
      st := Pushed(st, s, t);
    }

    /** append_item: writes position and successor through the pointers to the new and the old last item. */
    method AppendItem(s: nat, ghost c: Fields<T>, ghost t: T)
      requires items.Valid() && Now() == c.(m := c.m[s := Item(t, NO_POS, NO_NEXT)])
      requires s !in c.m && (tail.Some? ==> tail.value in c.m)
      modifies this`head, this`tail, this`nItems, items
      ensures items.Valid() && Now() == Append(c, s, t)
    {
      var i := items.GetPtr(s);
      items.Write(s, i.value.(pos := s, next := 0));
      assert items.contents == c.m[s := Item(t, s, 0)];
      if tail.None? {
        head, tail := Some(s), Some(s);
      } else {
        var l := items.GetPtr(tail.value);
        items.Write(tail.value, l.value.(next := s));
        tail := Some(s);
      }
      nItems := nItems + 1;
    }

    /** The slot after head: none behind the last item, whatever its next_ says. */
    method AfterHead() returns (n: Option<nat>)
      requires Valid() && head.Some?
      ensures n == Unlink(Now()).head
    {
      UnlinkStands(Now(), st);
      if head == tail {
        return None;
      }
      var i := items.GetPtr(head.value);
      var inext := items.GetPtr(i.value.next);
      if inext.None? {
        assert false;   // rs_invalid_state
      }
      return Some(i.value.next);
    }

    /** Unlinks the first item. */
    method TakeHead() returns (i: nat)
      requires Valid() && head.Some?
      modifies this
      ensures Valid() && old(st).fifo != [] && st == Popped(old(st)) && Now() == Unlink(old(Now()))
      ensures i == old(st).chain[0] && i !in old(st).held
      ensures i in items.contents && items.contents[i].item == old(st).fifo[0]
    {
      UnlinkStands(Now(), st);
      i := head.value;
      var n := AfterHead();
      head, tail, nItems, st := n, if n.None? then None else tail, nItems - 1, Popped(st);
    }

    /** Unlinks the first item; a handler h still holds what it did. */
    method TakeHeadFor(ghost h: Handler<T>) returns (i: nat)
      requires Valid() && head.Some? && h.Holds() && (h.i.Some? && h.q != this ==> h.q.Valid() && h.q.items != items)
      modifies this
      ensures Valid() && old(st).fifo != [] && st == Popped(old(st)) && Now() == Unlink(old(Now()))
      ensures i == old(st).chain[0] && i !in old(st).held && Now().m == old(Now().m)
      ensures i in items.contents && items.contents[i].item == old(st).fifo[0]
      ensures h.Holds() && (h.i.Some? && h.q != this ==> h.q.Valid())
    {
      i := TakeHead();
    }

    /** The handler h, as it is, gives back a slot of this queue when it is set anew. */
    ghost predicate TakesBack(h: Handler<T>)
      reads h
    {
      h.i.Some? && h.q == this
    }

    /** handler::set of a handler that holds an item of this queue, which it gives back. */
    method SetOwn(h: Handler<T>, i: nat)
      requires Valid() && TakesBack(h) && h.i.value in st.held
      modifies this, items, h
      ensures Valid() && h.q == this && h.i == Some(i)
      ensures st == Freed(old(st), old(h.i).value) && Now() == GiveBack(old(Now()), old(h.i).value)
    {
      h.Reset();
      h.q, h.i := this, Some(i);
    }

    /** reset of a handler that holds an item of another queue leaves this one alone. */
    method ResetOther(h: Handler<T>)
      requires Valid() && h.Holds() && h.i.Some? && h.q.Valid() && h.q != this && h.q.items != items
      modifies h, h.q, h.q.items
      ensures Valid() && st == old(st) && Now() == old(Now())
      ensures old(h.q).Valid() && old(h.q).st == Freed(old(h.q.st), old(h.i).value)
    {
      h.Reset();
    }

    /** q_ = q, i_ = i: no queue is touched. */
    method Point(h: Handler<T>, i: nat, ghost other: Queue<T>)
      requires Valid() && other.Valid()
      modifies h
      ensures h.q == this && h.i == Some(i)
      ensures Valid() && st == old(st) && Now() == old(Now()) && other.Valid() && other.st == old(other.st)
    {
      h.q, h.i := this, Some(i);
    }

    /** handler::set of a handler that holds an item of another queue, to which it gives it back. */
    method SetOther(h: Handler<T>, i: nat)
      requires Valid() && h.Holds() && h.i.Some? && h.q.Valid() && h.q != this && h.q.items != items
      modifies h, h.q, h.q.items
      ensures h.q == this && h.i == Some(i) && Valid() && st == old(st) && Now() == old(Now())
      ensures old(h.q).Valid() && old(h.q).st == Freed(old(h.q.st), old(h.i).value)
    {
      ghost var other := h.q;
      ResetOther(h);
      Point(h, i, other);
    }

    /** handler::set of a handler that holds nothing. */
    method SetEmpty(h: Handler<T>, i: nat)
      requires Valid() && h.Holds() && h.i.None?
      modifies h
      ensures h.q == this && h.i == Some(i) && Valid() && st == old(st) && Now() == old(Now())
    {
      h.Reset();
      h.q, h.i := this, Some(i);
    }

    /** handler::set: the handler gives back what it held, to whichever queue that is, and gets slot i. */
    method HandOver(h: Handler<T>, i: nat)
      requires Valid() && h.Holds() && (h.i.Some? && h.q != this ==> h.q.Valid() && h.q.items != items)
      modifies this, items, h, if h.i.Some? then {h.q, h.q.items} else {}
      ensures Valid() && h.q == this && h.i == Some(i)
      ensures if old(TakesBack(h))
              then st == Freed(old(st), old(h.i).value) && Now() == GiveBack(old(Now()), old(h.i).value)
              else st == old(st) && Now() == old(Now())
      ensures old(h.i).Some? && old(h.q) != this ==>
                old(h.q).Valid() && old(h.q).st == Freed(old(h.q.st), old(h.i).value)
    {
      if h.i.None? {
        SetEmpty(h, i);
      } else if h.q == this {
        SetOwn(h, i);
      } else {
        SetOther(h, i);
      }
    }

    /** pop: moves the first item to the handler, which first gives back what it held, to whichever queue that is. */
    method Pop(h: Handler<T>) returns (ok: bool)
      requires Valid() && h.Holds() && (h.i.Some? && h.q != this ==> h.q.Valid() && h.q.items != items)
      modifies this, items, h, if h.i.Some? then {h.q, h.q.items} else {}
      ensures Valid() && h.Holds()
      ensures ok <==> old(st).fifo != []
      ensures !ok ==> st == old(st) && Now() == old(Now()) && h.i == old(h.i) && h.q == old(h.q)
      ensures ok ==> h.q == this && h.i == Some(old(st).chain[0]) && h.i.value !in old(st).held
      ensures ok ==> h.i.value in items.contents && items.contents[h.i.value].item == old(st).fifo[0]
      ensures ok ==>
                if old(TakesBack(h))
                then && st == Freed(Popped(old(st)), old(h.i).value)
                     && Now() == GiveBack(Unlink(old(Now())), old(h.i).value)
                else st == Popped(old(st)) && Now() == Unlink(old(Now()))
      ensures ok && old(h.i).Some? && old(h.q) != this ==>
                old(h.q).Valid() && old(h.q).st == Freed(old(h.q.st), old(h.i).value)
      ensures Keeps(old(items.contents), items.contents, st.held)
    {
      if head.None? {
        HeldUsed(Now(), st);
        return false;
      }
      var i := TakeHeadFor(h);
      HandOver(h, i);
      ok := true;
    }

    /** n_items and size: the items in the FIFO, and all slots in use. */
    method Counts() returns (n: nat, size: nat)
      requires Valid()
      ensures n == |st.fifo| && size == |st.fifo| + |st.held|
    {
      n, size := nItems, items.nItems;
      SlotCount(items.contents, st.chain, st.held, st.fifo);
    }
  }
}
