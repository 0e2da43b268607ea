/**
 Epoch-based reclamation as a state machine of atomic steps (sequentially consistent).

 Every shared access of `epoch.c` is a step of its own: the two halves of a tick, the stages of a
 registration, each slot read of a scan, each list node of a sweep.  Around it is the key space:
 a thread publishes a pointer, any registered thread may load it while it is linked, and a writer
 unlinks it before retiring it.  A thread holds no pointer while it ticks.
 */
module Epoch {
  import opened Wrappers

  const MAX_THREADS: nat := 64

  type Tid = nat
  type Ptr = nat

  /** `epoch_retire_t`: one queued pointer. */
  datatype Entry = Entry(ptr: Ptr, epoch: nat)

  /** `epoch_thread_t`: what a thread advertises (0: nothing yet), and its retire list. */
  datatype Slot = Slot(quiescent: nat, retired: seq<Entry>, count: int)

  /** Where a thread is. */
  datatype Pc =
    | Idle
    | Added(idx: nat)                              // epoch_register: counter bumped
    | Seeding                                      // index taken, epoch still to be loaded
    | SeedStore(g: nat)
    | SeedInit
    | TickStore(g: nat)                            // epoch_tick: epoch loaded
    | Retiring(ptr: Ptr, r: nat)                   // epoch_retire: epoch bumped
    | Scan(n: nat, i: nat, mn: Option<nat>)        // epoch_min_quiescent
    | Walk(safe: nat, k: nat)                      // epoch_gc: freeing

  datatype Thread = Thread(pc: Pc, my: Option<nat>, held: set<Ptr>)

  /** The life of a pointer; one that is being retired carries its stamp. */
  datatype Place = Linked | Unlinked(owner: Tid) | InFlight(owner: Tid, stamp: nat) | Pending(slot: nat,
      stamp: nat) | Freed | Leaked

  datatype State = State(global: nat, nthreads: int, slots: seq<Slot>, threads: map<Tid, Thread>, place: map<Ptr,
      Place>)

  datatype Action =
    | Spawn | Publish(p: Ptr) | Load(p: Ptr) | Drop(p: Ptr) | Unlink(p: Ptr)
    | Register | RegisterDecide | RegisterLoad | RegisterStore | RegisterInit
    | TickLoad | TickFinish
    | RetireBump(p: Ptr) | RetirePush | RetireLeak | RetireNow(p: Ptr)
    | GcStart | GcRead | GcDecide | GcVisit | GcEnd | DrainAll

  datatype Event = Event(t: Tid, a: Action)

  predicate Init(s: State) {
    && s.global == 1 && s.nthreads == 0 && s.threads == map[] && s.place == map[]
    && |s.slots| == MAX_THREADS && forall i | 0 <= i < |s.slots| :: s.slots[i] == Slot(0, [], 0)
  }

  /** When thread `e.t` may take step `e.a`. */
  predicate Enabled(s: State, e: Event) {
    var t := e.t;
    if t !in s.threads then e.a.Spawn? else
    var th := s.threads[t];
    match e.a
    case Spawn => false
    case Publish(p) => th.pc.Idle? && p !in s.place
    case Load(p) => th.pc.Idle? && th.my.Some? && p in s.place && s.place[p].Linked?
    case Drop(p) => th.pc.Idle? && p in th.held
    case Unlink(p) => th.pc.Idle? && p in s.place && s.place[p].Linked?
    case Register => th.pc.Idle? && th.my.None?
    case RegisterDecide => th.pc.Added?
    case RegisterLoad => th.pc.Seeding?
    case RegisterStore => th.pc.SeedStore? && th.my.Some? && th.my.value < |s.slots|
    case RegisterInit => th.pc.SeedInit? && th.my.Some? && th.my.value < |s.slots|
    case TickLoad => th.pc.Idle? && th.my.Some? && th.held == {}
    case TickFinish => th.pc.TickStore? && th.my.Some? && th.my.value < |s.slots|
    case RetireBump(p) => th.pc.Idle? && th.my.Some? && p in s.place && s.place[p] == Unlinked(t)
    case RetirePush => th.pc.Retiring? && th.my.Some? && th.my.value < |s.slots|
    case RetireLeak => th.pc.Retiring?
    case RetireNow(p) => th.pc.Idle? && th.my.None? && p in s.place && s.place[p] == Unlinked(t)
    case GcStart => th.pc.Idle? && th.my.Some?
    case GcRead => th.pc.Scan? && th.pc.i < th.pc.n && th.pc.i < |s.slots|
    case GcDecide => th.pc.Scan? && th.pc.i >= th.pc.n
    case GcVisit => th.pc.Walk? && th.my.Some? && th.my.value < |s.slots| && th.pc.k < |s.slots[th.my.value].retired|
    case GcEnd => th.pc.Walk? && th.my.Some? && th.my.value < |s.slots| && th.pc.k >= |s.slots[th.my.value].retired|
    case DrainAll =>
        th.pc.Idle? && th.my.Some? && th.my.value < |s.slots| && NobodyHolds(s, s.slots[th.my.value].retired)
  }

  /** No thread holds a pointer of the list: what `epoch_drain_all` demands of its caller. */
  predicate NobodyHolds(s: State, list: seq<Entry>) {
    forall k, t | 0 <= k < |list| && t in s.threads :: list[k].ptr !in s.threads[t].held
  }

  function Ptrs(list: seq<Entry>): set<Ptr> {
    set k | 0 <= k < |list| :: list[k].ptr
  }

  function Min(a: Option<nat>, b: nat): Option<nat> {
    if a.None? || b < a.value then Some(b) else a
  }

  /** The effect of the step. */
  function Next(s: State, e: Event): State
    requires Enabled(s, e)
  {
    var t := e.t;
    if e.a.Spawn? then s.(threads := s.threads[t := Thread(Idle, None, {})]) else
    var th := s.threads[t];
    match e.a
    case Publish(p) => s.(place := s.place[p := Linked])
    case Load(p) => Goto(s, t, th.(held := th.held + {p}))
    case Drop(p) => Goto(s, t, th.(held := th.held - {p}))
    case Unlink(p) => s.(place := s.place[p := Unlinked(t)])
    case Register => Goto(s.(nthreads := s.nthreads + 1), t, th.(pc := Added(if s.nthreads < 0 then 0 else s.nthreads)))
    case RegisterDecide =>
      if th.pc.idx >= MAX_THREADS then Goto(s.(nthreads := s.nthreads - 1), t, th.(pc := Idle))
      else Goto(s, t, th.(pc := Seeding, my := Some(th.pc.idx)))
    case RegisterLoad => Goto(s, t, th.(pc := SeedStore(s.global)))
    case RegisterStore => Goto(Advertise(s, th.my.value, th.pc.g), t, th.(pc := SeedInit))
    case RegisterInit =>
      Goto(s.(slots := s.slots[th.my.value := s.slots[th.my.value].(retired := [], count := 0)]), t, th.(pc := Idle))
    case TickLoad => Goto(s, t, th.(pc := TickStore(s.global)))
    case TickFinish => Goto(Advertise(s, th.my.value, th.pc.g), t, th.(pc := Idle))
    case RetireBump(p) =>
      Goto(s.(global := s.global + 1, place := s.place[p := InFlight(t, s.global)]), t,
          th.(pc := Retiring(p, s.global)))
    case RetirePush =>
      var slot := s.slots[th.my.value];
      var slot' := slot.(retired := [Entry(th.pc.ptr, th.pc.r)] + slot.retired, count := slot.count + 1);
      Goto(s.(slots := s.slots[th.my.value := slot'], place := s.place[th.pc.ptr := Pending(th.my.value, th.pc.r)]),
          t, th.(pc := Idle))
    case RetireLeak => Goto(s.(place := s.place[th.pc.ptr := Leaked]), t, th.(pc := Idle))
    case RetireNow(p) => s.(place := s.place[p := Freed])
    case GcStart => Goto(s, t, th.(pc := Scan(if s.nthreads < 0 then 0 else if s.nthreads > MAX_THREADS
        then MAX_THREADS else s.nthreads, 0, None)))
    case GcRead =>
      var q := s.slots[th.pc.i].quiescent;
      Goto(s, t, th.(pc := Scan(th.pc.n, th.pc.i + 1, if q == 0 then th.pc.mn else Min(th.pc.mn, q))))
    case GcDecide => Goto(s, t, th.(pc := if th.pc.mn.None? then Idle else Walk(th.pc.mn.value, 0)))
    case GcVisit =>
      var slot := s.slots[th.my.value];
      var k := th.pc.k;
      if slot.retired[k].epoch < th.pc.safe then
        var slot' := slot.(retired := slot.retired[..k] + slot.retired[k + 1..], count := slot.count - 1);
        s.(slots := s.slots[th.my.value := slot'], place := s.place[slot.retired[k].ptr := Freed])
      else Goto(s, t, th.(pc := Walk(th.pc.safe, k + 1)))
    case GcEnd => Goto(s, t, th.(pc := Idle))
    case DrainAll =>
      var gone := Ptrs(s.slots[th.my.value].retired);
      s.(slots := s.slots[th.my.value := s.slots[th.my.value].(retired := [], count := 0)],
         place := map p | p in s.place :: if p in gone then Freed else s.place[p])
  }

  function Goto(s: State, t: Tid, th: Thread): State {
    s.(threads := s.threads[t := th])
  }

  /** The release store of a quiescent epoch. */
  function Advertise(s: State, i: nat, g: nat): State
    requires i < |s.slots|
  {
    s.(slots := s.slots[i := s.slots[i].(quiescent := g)])
  }

  // ---- the invariant ----

  /** The index a thread has been given, if any. */
  function Given(th: Thread): Option<nat> {
    if th.pc.Added? && th.pc.idx < MAX_THREADS then Some(th.pc.idx) else th.my
  }

  function Slots(s: State): nat {
    if s.nthreads < 0 then 0 else if s.nthreads > MAX_THREADS then MAX_THREADS else s.nthreads
  }

  /** Has the thread an index but not yet a first epoch? */
  predicate Unseeded(th: Thread) {
    th.pc.Seeding? || th.pc.SeedStore?
  }

  ghost predicate ThreadOk(s: State, t: Tid)
    requires t in s.threads && |s.slots| == MAX_THREADS
  {
    var th := s.threads[t];
    && (Given(th).Some? ==> Given(th).value < Slots(s))
    && (if th.pc.Added? then th.my.None? else th.pc.Idle? || th.my.Some?)
    && (th.pc.Added? && th.pc.idx < MAX_THREADS ==> s.slots[th.pc.idx] == Slot(0, [], 0))
    && (th.held != {} ==> th.my.Some? && !Unseeded(th) && !th.pc.SeedInit? && !th.pc.TickStore?)
    && (Unseeded(th) ==> s.slots[th.my.value] == Slot(0, [], 0))
    && (th.pc.SeedInit? ==> s.slots[th.my.value].retired == [] && s.slots[th.my.value].count == 0)
    && (th.pc.SeedStore? || th.pc.TickStore? ==> 1 <= th.pc.g <= s.global)
    && (th.pc.TickStore? ==> s.slots[th.my.value].quiescent <= th.pc.g)
    && (th.my.Some? && !Unseeded(th) ==> 1 <= s.slots[th.my.value].quiescent <= s.global)
    && (th.pc.Retiring? ==> th.pc.ptr in s.place && s.place[th.pc.ptr] == InFlight(t, th.pc.r) && th.pc.r < s.global)
    && (th.pc.Scan? ==>
        th.pc.i <= th.pc.n <= Slots(s) && th.my.value < th.pc.n && (th.pc.i > th.my.value ==> th.pc.mn.Some?))
    && (th.pc.Walk? ==> th.pc.k <= |s.slots[th.my.value].retired|)
  }

  ghost predicate SlotOk(s: State, i: nat)
    requires i < |s.slots|
  {
    var slot := s.slots[i];
    && slot.count == |slot.retired|
    && (forall j, k | 0 <= j < k < |slot.retired| :: slot.retired[j].ptr != slot.retired[k].ptr)
    && (forall k | 0 <= k < |slot.retired| :: Queued(s, i, slot.retired[k]))
    && (i >= Slots(s) ==> slot == Slot(0, [], 0))
  }

  /** An entry of list `i` is a pointer pending there, stamped before now. */
  ghost predicate Queued(s: State, i: nat, x: Entry) {
    x.ptr in s.place && s.place[x.ptr] == Pending(i, x.epoch) && x.epoch < s.global
  }

  ghost predicate PlaceOk(s: State, p: Ptr)
    requires p in s.place && |s.slots| == MAX_THREADS
  {
    match s.place[p]
    case Pending(i, r) => i < MAX_THREADS && Entry(p, r) in s.slots[i].retired
    case InFlight(u, r) => u in s.threads && s.threads[u].pc == Retiring(p, r)
    case _ => true
  }

  /** No two threads have been given the same index. */
  ghost predicate Apart(s: State, t: Tid, u: Tid) {
    t in s.threads && u in s.threads && t != u && Given(s.threads[t]).Some? ==>
      Given(s.threads[t]) != Given(s.threads[u])
  }

  /** Has the pointer been retired and not yet disposed of? */
  predicate Stamped(pl: Place) {
    pl.InFlight? || pl.Pending?
  }

  /** What a reader may rely on while it holds `p`: the pointer is not freed, and if it has been
      retired then its stamp is no older than what the reader advertises. */
  ghost predicate HoldOk(s: State, t: Tid, p: Ptr)
    requires |s.slots| == MAX_THREADS
  {
    t in s.threads && p in s.threads[t].held ==>
      && p in s.place && !s.place[p].Freed? && s.threads[t].my.Some? && s.threads[t].my.value < MAX_THREADS
      && (Stamped(s.place[p]) ==> s.slots[s.threads[t].my.value].quiescent <= s.place[p].stamp)
  }

  /** A scan by `u` accounts for every reader `t` of a pointer in `u`'s own list. */
  ghost predicate ScanOk(s: State, u: Tid, t: Tid, p: Ptr) {
    && u in s.threads && t in s.threads && p in s.threads[t].held
    && s.threads[u].my.Some? && s.threads[t].my.Some?
    && p in s.place && s.place[p].Pending? && s.place[p].slot == s.threads[u].my.value ==>
      var pc := s.threads[u].pc;
      var i := s.threads[t].my.value;
      && (pc.Scan? ==> i < pc.n)
      && (pc.Scan? && i < pc.i ==> pc.mn.Some? && pc.mn.value <= s.place[p].stamp)
      && (pc.Walk? ==> pc.safe <= s.place[p].stamp)
  }

  /** Threads that bumped the counter past the limit and have not yet taken it back. */
  ghost function Failing(s: State): set<Tid> {
    set t | t in s.threads && s.threads[t].pc.Added? && s.threads[t].pc.idx >= MAX_THREADS
  }

  ghost predicate Base(s: State) {
    |s.slots| == MAX_THREADS && s.global >= 1 && s.nthreads >= 0
  }

  /** The books: who is where, which list holds what.  Every step keeps these, whoever reads. */
  ghost predicate Books(s: State) {
    && Base(s)
    && |Failing(s)| == (if s.nthreads > MAX_THREADS then s.nthreads - MAX_THREADS else 0)
    && (forall t: Tid {:trigger ThreadOk(s, t)} :: t in s.threads ==> ThreadOk(s, t))
    && (forall i: nat {:trigger SlotOk(s, i)} :: i < MAX_THREADS ==> SlotOk(s, i))
    && (forall p: Ptr {:trigger PlaceOk(s, p)} :: p in s.place ==> PlaceOk(s, p))
    && (forall t: Tid, u: Tid {:trigger Apart(s, t, u)} :: Apart(s, t, u))
  }

  /** The books, and what keeps readers safe. */
  ghost predicate Inv(s: State) {
    && Books(s)
    && (forall t: Tid, p: Ptr {:trigger HoldOk(s, t, p)} :: HoldOk(s, t, p))
    && (forall u: Tid, t: Tid, p: Ptr {:trigger ScanOk(s, u, t, p)} :: ScanOk(s, u, t, p))
  }

  /** No pointer a reader holds has been freed. */
  ghost predicate Safe(s: State) {
    forall t: Tid, p: Ptr | t in s.threads && p in s.threads[t].held :: p in s.place && !s.place[p].Freed?
  }

  /** An unregistered thread frees at once; that is harmless only if nobody holds the pointer. */
  ghost predicate Harmless(s: State, e: Event) {
    e.a.RetireNow? ==> forall t | t in s.threads :: e.a.p !in s.threads[t].held
  }

  // ---- every step keeps the invariant, one predicate at a time ----

  /** What the stepping thread brings: its own state and its slot. */
  ghost predicate Around(s: State, e: Event) {
    && Base(s) && Enabled(s, e)
    && (e.t in s.threads ==> ThreadOk(s, e.t) && (e.t in Failing(s) ==> s.nthreads > MAX_THREADS))
    && (e.t in s.threads && s.threads[e.t].my.Some? ==>
          s.threads[e.t].my.value < MAX_THREADS && SlotOk(s, s.threads[e.t].my.value))
    && (s.nthreads < MAX_THREADS ==> SlotOk(s, s.nthreads))
  }

  lemma AroundAll(s: State, e: Event)
    requires Books(s) && Enabled(s, e)
    ensures Around(s, e)
  {
    if e.t in s.threads {
      assert ThreadOk(s, e.t);
      assert e.t in Failing(s) ==> |Failing(s)| > 0;
      if s.threads[e.t].my.Some? {
        assert SlotOk(s, s.threads[e.t].my.value);
      }
    }
    if s.nthreads < MAX_THREADS {
      assert SlotOk(s, s.nthreads);
    }
  }

  predicate Registering(a: Action) {
    a.Spawn? || a.Register? || a.RegisterDecide? || a.RegisterLoad? || a.RegisterStore? || a.RegisterInit?
  }

  predicate Collecting(a: Action) {
    a.GcStart? || a.GcRead? || a.GcDecide? || a.GcVisit? || a.GcEnd? || a.DrainAll?
  }

  lemma ThreadOkRegistering(s: State, e: Event)
    requires Around(s, e) && Registering(e.a)
    ensures Base(Next(s, e)) && e.t in Next(s, e).threads && ThreadOk(Next(s, e), e.t)
  {
  }

  lemma ThreadOkCollecting(s: State, e: Event)
    requires Around(s, e) && Collecting(e.a)
    ensures Base(Next(s, e)) && e.t in Next(s, e).threads && ThreadOk(Next(s, e), e.t)
  {
  }

  predicate TicksOrRetires(a: Action) {
    a.TickLoad? || a.TickFinish? || a.RetireBump? || a.RetirePush? || a.RetireLeak?
  }

  lemma ThreadOkTicking(s: State, e: Event)
    requires Around(s, e) && TicksOrRetires(e.a)
    ensures Base(Next(s, e)) && e.t in Next(s, e).threads && ThreadOk(Next(s, e), e.t)
  {
  }

  lemma ThreadOkSelf(s: State, e: Event)
    requires Around(s, e)
    ensures Base(Next(s, e)) && e.t in Next(s, e).threads && ThreadOk(Next(s, e), e.t)
  {
    if Registering(e.a) {
      ThreadOkRegistering(s, e);
    } else if Collecting(e.a) {
      ThreadOkCollecting(s, e);
    } else if TicksOrRetires(e.a) {
      ThreadOkTicking(s, e);
    }
  }

  /** How thread `t`, owning slot `my`, may move a pointer: forward only, and only what is its own. */
  predicate Moves(a: Place, b: Place, t: Tid, my: Option<nat>) {
    match a
    case Linked => b == Unlinked(t)
    case Unlinked(u) => u == t && (b.Freed? || (b.InFlight? && b.owner == t))
    case InFlight(u, r) => u == t && (b.Leaked? || (my.Some? && b == Pending(my.value, r)))
    case Pending(i, r) => my == Some(i) && b.Freed?
    case _ => false
  }

  ghost predicate PlaceFrame(s: State, s': State, t: Tid, my: Option<nat>, p: Ptr)
    requires p in s.place
  {
    p in s'.place && (s'.place[p] == s.place[p] || Moves(s.place[p], s'.place[p], t, my))
  }

  ghost predicate SlotFrame(s: State, s': State, my: Option<nat>, i: nat)
    requires |s.slots| == |s'.slots| == MAX_THREADS
  {
    i < MAX_THREADS && my != Some(i) ==> s'.slots[i] == s.slots[i]
  }

  ghost predicate ThreadFrame(s: State, s': State, t: Tid, u: Tid) {
    u != t ==> (u in s.threads <==> u in s'.threads) && (u in s.threads ==> s'.threads[u] == s.threads[u])
  }

  function MyOf(s: State, t: Tid): Option<nat> {
    if t in s.threads then s.threads[t].my else None
  }

  /** What a step of `t` leaves alone. */
  ghost predicate Frame(s: State, s': State, t: Tid) {
    && Base(s) && Base(s') && t in s'.threads && s'.global >= s.global && Slots(s') >= Slots(s)
    && (forall u: Tid {:trigger ThreadFrame(s, s', t, u)} :: ThreadFrame(s, s', t, u))
    && (forall i: nat {:trigger SlotFrame(s, s', MyOf(s, t), i)} :: SlotFrame(s, s', MyOf(s, t), i))
    && (forall p: Ptr {:trigger PlaceFrame(s, s', t, MyOf(s, t), p)} ::
        p in s.place ==> PlaceFrame(s, s', t, MyOf(s, t), p))
  }

  lemma PlaceForward(s: State, e: Event, p: Ptr)
    requires Around(s, e) && p in s.place
    ensures PlaceFrame(s, Next(s, e), e.t, MyOf(s, e.t), p)
  {
  }

  lemma StepThreads(s: State, e: Event, u: Tid)
    requires Around(s, e)
    ensures e.t in Next(s, e).threads && ThreadFrame(s, Next(s, e), e.t, u)
  {
  }

  lemma StepSlots(s: State, e: Event, i: nat)
    requires Around(s, e)
    ensures Base(Next(s, e)) && Next(s, e).global >= s.global && Slots(Next(s, e)) >= Slots(s)
    ensures SlotFrame(s, Next(s, e), MyOf(s, e.t), i)
  {
  }

  lemma StepFrame(s: State, e: Event)
    requires Around(s, e)
    ensures Frame(s, Next(s, e), e.t)
  {
    hide Next, Enabled, PlaceFrame, ThreadFrame;
    var s' := Next(s, e);
    StepSlots(s, e, 0);
    StepThreads(s, e, e.t);
    forall u: Tid ensures ThreadFrame(s, s', e.t, u) {
      StepThreads(s, e, u);
    }
    forall i: nat ensures SlotFrame(s, s', MyOf(s, e.t), i) {
      StepSlots(s, e, i);
    }
    forall p: Ptr | p in s.place ensures PlaceFrame(s, s', e.t, MyOf(s, e.t), p) {
      PlaceForward(s, e, p);
    }
  }

  lemma ThreadOkOther(s: State, s': State, u: Tid, t: Tid)
    requires Frame(s, s', u) && t != u && t in s.threads && ThreadOk(s, t) && Apart(s, t, u)
    requires u in s.threads ==> ThreadOk(s, u)
    ensures t in s'.threads && ThreadOk(s', t)
  {
    assert ThreadFrame(s, s', u, t);
    var th := s.threads[t];
    if Given(th).Some? {
      assert SlotFrame(s, s', MyOf(s, u), Given(th).value);
    }
    if th.pc.Retiring? {
      assert PlaceFrame(s, s', u, MyOf(s, u), th.pc.ptr);
    }
  }

  lemma SlotOkOther(s: State, s': State, u: Tid, i: nat)
    requires Frame(s, s', u) && i < MAX_THREADS && MyOf(s, u) != Some(i) && SlotOk(s, i)
    ensures SlotOk(s', i)
  {
    assert SlotFrame(s, s', MyOf(s, u), i);
    forall k | 0 <= k < |s.slots[i].retired| ensures Queued(s', i, s'.slots[i].retired[k]) {
      assert Queued(s, i, s.slots[i].retired[k]);
      assert PlaceFrame(s, s', u, MyOf(s, u), s.slots[i].retired[k].ptr);
    }
  }

  /** Taking the entry at `k` out of a list without repetition. */
  lemma RemoveEntry(list: seq<Entry>, k: nat)
    requires k < |list| && forall a, b | 0 <= a < b < |list| :: list[a].ptr != list[b].ptr
    ensures var rest := list[..k] + list[k + 1..];
            && (forall a, b | 0 <= a < b < |rest| :: rest[a].ptr != rest[b].ptr)
            && (forall x :: x in rest <==> x in list && x.ptr != list[k].ptr)
  {
    var rest := list[..k] + list[k + 1..];
    forall x ensures x in rest <==> x in list && x.ptr != list[k].ptr {
      if x in list && x.ptr != list[k].ptr {
        var j :| 0 <= j < |list| && list[j] == x;
        assert rest[if j < k then j else j - 1] == x;
      }
    }
  }

  lemma SlotOkKept(s: State, e: Event, i: nat)
    requires Around(s, e) && MyOf(s, e.t) == Some(i) && i < MAX_THREADS && SlotOk(s, i) && Base(Next(s, e))
    requires Next(s, e).slots[i].retired == s.slots[i].retired
    requires !e.a.GcVisit? && !e.a.DrainAll?
    ensures SlotOk(Next(s, e), i)
  {
    var s' := Next(s, e);
    assert s'.slots[i].count == s.slots[i].count;
    assert i < Slots(s) <= Slots(s');
    forall k | 0 <= k < |s.slots[i].retired| ensures Queued(s', i, s'.slots[i].retired[k]) {
      assert Queued(s, i, s.slots[i].retired[k]);
    }
  }

  lemma SlotOkPush(s: State, e: Event, i: nat)
    requires Around(s, e) && MyOf(s, e.t) == Some(i) && i < MAX_THREADS && e.a.RetirePush? && Base(Next(s, e))
    ensures SlotOk(Next(s, e), i)
  {
    var s' := Next(s, e);
    var list := s.slots[i].retired;
    forall k | 0 <= k < |s'.slots[i].retired| ensures Queued(s', i, s'.slots[i].retired[k]) {
      if k > 0 {
        assert Queued(s, i, list[k - 1]);
      }
    }
    forall j, k | 0 <= j < k < |s'.slots[i].retired| ensures s'.slots[i].retired[j].ptr != s'.slots[i].retired[k].ptr {
      assert Queued(s, i, list[k - 1]);
    }
  }

  lemma SlotOkVisit(s: State, e: Event, i: nat)
    requires Around(s, e) && MyOf(s, e.t) == Some(i) && i < MAX_THREADS && e.a.GcVisit? && Base(Next(s, e))
    ensures SlotOk(Next(s, e), i)
  {
    if Next(s, e).slots[i].retired == s.slots[i].retired {
      VisitKept(s, e, i);
    } else {
      VisitFreed(s, e, i);
    }
  }

  lemma VisitKept(s: State, e: Event, i: nat)
    requires Around(s, e) && MyOf(s, e.t) == Some(i) && i < MAX_THREADS && e.a.GcVisit? && Base(Next(s, e))
    requires Next(s, e).slots[i].retired == s.slots[i].retired
    ensures SlotOk(Next(s, e), i)
  {
    var s' := Next(s, e);
    assert |s'.slots[i].retired| == |s.slots[i].retired|;
    forall k | 0 <= k < |s'.slots[i].retired| ensures Queued(s', i, s'.slots[i].retired[k]) {
      assert Queued(s, i, s.slots[i].retired[k]);
    }
  }

  lemma VisitFreed(s: State, e: Event, i: nat)
    requires Around(s, e) && MyOf(s, e.t) == Some(i) && i < MAX_THREADS && e.a.GcVisit? && Base(Next(s, e))
    requires Next(s, e).slots[i].retired != s.slots[i].retired
    ensures SlotOk(Next(s, e), i)
  {
    var s' := Next(s, e);
    var list, at := s.slots[i].retired, s.threads[e.t].pc.k;
    RemoveEntry(list, at);
    assert s'.slots[i] == s.slots[i].(retired := list[..at] + list[at + 1..], count := s.slots[i].count - 1);
    forall k | 0 <= k < |s'.slots[i].retired| ensures Queued(s', i, s'.slots[i].retired[k]) {
      assert s'.slots[i].retired[k] in list;
      var m :| 0 <= m < |list| && list[m] == s'.slots[i].retired[k];
      assert Queued(s, i, list[m]);
    }
  }

  lemma SlotOkDrain(s: State, e: Event, i: nat)
    requires Around(s, e) && MyOf(s, e.t) == Some(i) && i < MAX_THREADS && e.a.DrainAll? && Base(Next(s, e))
    ensures SlotOk(Next(s, e), i)
  {
  }

  lemma SlotOkSelf(s: State, e: Event, i: nat)
    requires Around(s, e) && MyOf(s, e.t) == Some(i) && i < MAX_THREADS && Base(Next(s, e))
    ensures SlotOk(Next(s, e), i)
  {
    match e.a
    case RetirePush => SlotOkPush(s, e, i);
    case GcVisit => SlotOkVisit(s, e, i);
    case DrainAll => SlotOkDrain(s, e, i);
    case _ => SlotOkKept(s, e, i);
  }

  lemma PlaceOkNext(s: State, e: Event, p: Ptr)
    requires Around(s, e) && Frame(s, Next(s, e), e.t) && p in Next(s, e).place
    requires p in s.place ==> PlaceOk(s, p)
    ensures PlaceOk(Next(s, e), p)
  {
    var s' := Next(s, e);
    if p in s.place && s'.place[p] == s.place[p] {
      match s.place[p]
      case Pending(i, r) =>
        assert SlotFrame(s, s', MyOf(s, e.t), i);
        if e.a.GcVisit? && MyOf(s, e.t) == Some(i) {
          RemoveEntry(s.slots[i].retired, s.threads[e.t].pc.k);
        }
      case InFlight(u, r) => assert ThreadFrame(s, s', e.t, u);
      case _ =>
    }
  }

  lemma ApartNext(s: State, e: Event, t: Tid, u: Tid)
    requires Around(s, e) && Frame(s, Next(s, e), e.t) && Apart(s, t, u)
    requires t in s.threads ==> ThreadOk(s, t)
    requires u in s.threads ==> ThreadOk(s, u)
    ensures Apart(Next(s, e), t, u)
  {
    var s' := Next(s, e);
    assert ThreadFrame(s, s', e.t, t) && ThreadFrame(s, s', e.t, u);
  }

  lemma HoldOkNext(s: State, e: Event, t: Tid, p: Ptr)
    requires Around(s, e) && Frame(s, Next(s, e), e.t) && Harmless(s, e)
    requires HoldOk(s, t, p) && (t in s.threads ==> ThreadOk(s, t) && Apart(s, t, e.t))
    requires ScanOk(s, e.t, t, p) && (p in s.place ==> PlaceOk(s, p))
    ensures HoldOk(Next(s, e), t, p)
  {
    var s' := Next(s, e);
    assert ThreadFrame(s, s', e.t, t);
    if p in s.place {
      assert PlaceFrame(s, s', e.t, MyOf(s, e.t), p);
    }
    if t in s.threads && t != e.t && s.threads[t].my.Some? {
      assert SlotFrame(s, s', MyOf(s, e.t), s.threads[t].my.value);
    }
  }

  lemma ScanOkOther(s: State, e: Event, u: Tid, t: Tid, p: Ptr)
    requires u != e.t && Around(s, e) && Frame(s, Next(s, e), e.t)
    requires ScanOk(s, u, t, p) && Apart(s, u, e.t)
    requires p in s.place ==> PlaceOk(s, p)
    ensures ScanOk(Next(s, e), u, t, p)
  {
    var s' := Next(s, e);
    assert ThreadFrame(s, s', e.t, t) && ThreadFrame(s, s', e.t, u);
    if p in s.place {
      assert PlaceFrame(s, s', e.t, MyOf(s, e.t), p);
    }
  }

  lemma ScanOkSelf(s: State, e: Event, t: Tid, p: Ptr)
    requires e.t in s.threads && Around(s, e) && Frame(s, Next(s, e), e.t)
    requires ScanOk(s, e.t, t, p) && HoldOk(s, t, p)
    requires t in s.threads ==> ThreadOk(s, t)
    ensures ScanOk(Next(s, e), e.t, t, p)
  {
    var s' := Next(s, e);
    assert ThreadFrame(s, s', e.t, t);
    if p in s.place {
      assert PlaceFrame(s, s', e.t, MyOf(s, e.t), p);
    }
  }

  predicate IsFailing(s: State, t: Tid) {
    t in s.threads && s.threads[t].pc.Added? && s.threads[t].pc.idx >= MAX_THREADS
  }

  /** How the counter follows the stepping thread's own failure. */
  lemma CounterStep(s: State, e: Event)
    requires Around(s, e)
    ensures var s' := Next(s, e);
            && (IsFailing(s', e.t) && !IsFailing(s, e.t) ==> s.nthreads >= MAX_THREADS && s'.nthreads == s.nthreads + 1)
            && (!IsFailing(s', e.t) && IsFailing(s, e.t) ==> s.nthreads > MAX_THREADS && s'.nthreads == s.nthreads - 1)
            && (IsFailing(s', e.t) == IsFailing(s, e.t) ==>
                  s'.nthreads == s.nthreads || (s.nthreads < MAX_THREADS && s'.nthreads == s.nthreads + 1))
  {
  }

  /** The add-then-rollback counter: it stands exactly `|Failing|` above the limit. */
  lemma FailingNext(s: State, e: Event)
    requires Around(s, e) && Frame(s, Next(s, e), e.t)
    requires |Failing(s)| == (if s.nthreads > MAX_THREADS then s.nthreads - MAX_THREADS else 0)
    ensures var s' := Next(s, e);
            |Failing(s')| == (if s'.nthreads > MAX_THREADS then s'.nthreads - MAX_THREADS else 0)
  {
    var s' := Next(s, e);
    CounterStep(s, e);
    forall t ensures t != e.t ==> (t in Failing(s') <==> t in Failing(s)) {
      assert ThreadFrame(s, s', e.t, t);
    }
    assert e.t in Failing(s') <==> IsFailing(s', e.t);
    assert e.t in Failing(s) <==> IsFailing(s, e.t);
    if IsFailing(s', e.t) == IsFailing(s, e.t) {
      assert Failing(s') == Failing(s);
    } else if IsFailing(s', e.t) {
      assert Failing(s') == Failing(s) + {e.t};
    } else {
      assert Failing(s') == Failing(s) - {e.t};
    }
  }

  lemma BooksInit(s: State)
    requires Init(s)
    ensures Books(s)
  {
    assert Failing(s) == {};
    forall i: nat | i < MAX_THREADS ensures SlotOk(s, i) {
      assert s.slots[i] == Slot(0, [], 0);
    }
  }

  lemma InvInit(s: State)
    requires Init(s)
    ensures Inv(s)
  {
    BooksInit(s);
  }

  lemma ThreadsNext(s: State, e: Event)
    requires Books(s) && Enabled(s, e) && Around(s, e) && Frame(s, Next(s, e), e.t)
    ensures forall t: Tid {:trigger ThreadOk(Next(s, e), t)} :: t in Next(s, e).threads ==> ThreadOk(Next(s, e), t)
    ensures forall i: nat {:trigger SlotOk(Next(s, e), i)} :: i < MAX_THREADS ==> SlotOk(Next(s, e), i)
  {
    var s' := Next(s, e);
    forall t: Tid | t in s'.threads ensures ThreadOk(s', t) {
      if t == e.t {
        ThreadOkSelf(s, e);
      } else {
        assert ThreadFrame(s, s', e.t, t) && ThreadOk(s, t) && Apart(s, t, e.t);
        ThreadOkOther(s, s', e.t, t);
      }
    }
    forall i: nat | i < MAX_THREADS ensures SlotOk(s', i) {
      assert SlotOk(s, i);
      if MyOf(s, e.t) == Some(i) {
        SlotOkSelf(s, e, i);
      } else {
        SlotOkOther(s, s', e.t, i);
      }
    }
  }

  lemma PlacesNext(s: State, e: Event)
    requires Books(s) && Enabled(s, e) && Around(s, e) && Frame(s, Next(s, e), e.t)
    ensures forall p: Ptr {:trigger PlaceOk(Next(s, e), p)} :: p in Next(s, e).place ==> PlaceOk(Next(s, e), p)
    ensures forall t: Tid, u: Tid {:trigger Apart(Next(s, e), t, u)} :: Apart(Next(s, e), t, u)
  {
    var s' := Next(s, e);
    forall p: Ptr | p in s'.place ensures PlaceOk(s', p) {
      assert p in s.place ==> PlaceOk(s, p);
      PlaceOkNext(s, e, p);
    }
    forall t: Tid, u: Tid ensures Apart(s', t, u) {
      assert Apart(s, t, u) && (t in s.threads ==> ThreadOk(s, t)) && (u in s.threads ==> ThreadOk(s, u));
      ApartNext(s, e, t, u);
    }
  }

  /** Every step keeps the books. */
  lemma BooksNext(s: State, e: Event)
    requires Books(s) && Enabled(s, e)
    ensures Books(Next(s, e))
  {
    AroundAll(s, e);
    StepFrame(s, e);
    FailingNext(s, e);
    ThreadsNext(s, e);
    PlacesNext(s, e);
  }

  lemma HoldsNext(s: State, e: Event)
    requires Inv(s) && Enabled(s, e) && Harmless(s, e) && Around(s, e) && Frame(s, Next(s, e), e.t)
    ensures forall t: Tid, p: Ptr {:trigger HoldOk(Next(s, e), t, p)} :: HoldOk(Next(s, e), t, p)
  {
    forall t: Tid, p: Ptr ensures HoldOk(Next(s, e), t, p) {
      assert HoldOk(s, t, p) && (t in s.threads ==> ThreadOk(s, t) && Apart(s, t, e.t));
      assert ScanOk(s, e.t, t, p) && (p in s.place ==> PlaceOk(s, p));
      HoldOkNext(s, e, t, p);
    }
  }

  lemma ScansNext(s: State, e: Event)
    requires Inv(s) && Enabled(s, e) && Around(s, e) && Frame(s, Next(s, e), e.t)
    ensures forall u: Tid, t: Tid, p: Ptr {:trigger ScanOk(Next(s, e), u, t, p)} :: ScanOk(Next(s, e), u, t, p)
  {
    forall u: Tid, t: Tid, p: Ptr ensures ScanOk(Next(s, e), u, t, p) {
      assert ScanOk(s, u, t, p) && HoldOk(s, t, p) && Apart(s, u, e.t);
      assert (t in s.threads ==> ThreadOk(s, t)) && (p in s.place ==> PlaceOk(s, p));
      if u != e.t {
        ScanOkOther(s, e, u, t, p);
      } else if u in s.threads {
        ScanOkSelf(s, e, t, p);
      }
    }
  }

  /** Every step keeps the invariant, as long as unregistered threads free only what nobody holds. */
  lemma InvNext(s: State, e: Event)
    requires Inv(s) && Enabled(s, e) && Harmless(s, e)
    ensures Inv(Next(s, e))
  {
    BooksNext(s, e);
    AroundAll(s, e);
    StepFrame(s, e);
    HoldsNext(s, e);
    ScansNext(s, e);
  }

  lemma InvSafe(s: State)
    requires Inv(s)
    ensures Safe(s)
  {
    forall t: Tid, p: Ptr | t in s.threads && p in s.threads[t].held ensures p in s.place && !s.place[p].Freed? {
      assert HoldOk(s, t, p);
    }
  }

  // ---- whole runs ----

  /** `run[k]` steps to `run[k + 1]` by `events[k]`. */
  ghost predicate IsRun(run: seq<State>, events: seq<Event>) {
    && |run| == |events| + 1
    && forall k: nat {:trigger events[k]} | k < |events| ::
      Enabled(run[k], events[k]) && run[k + 1] == Next(run[k], events[k])
  }

  ghost predicate AllHarmless(run: seq<State>, events: seq<Event>)
    requires IsRun(run, events)
  {
    forall k: nat {:trigger events[k]} | k < |events| :: Harmless(run[k], events[k])
  }

  /** The books are right in every state of every run. */
  lemma {:induction false} RunBooks(run: seq<State>, events: seq<Event>, k: nat)
    requires IsRun(run, events) && Books(run[0]) && k < |run|
    ensures Books(run[k])
  {
    if k > 0 {
      RunBooks(run, events, k - 1);
      assert Enabled(run[k - 1], events[k - 1]);
      BooksNext(run[k - 1], events[k - 1]);
    }
  }

  lemma {:induction false} RunInv(run: seq<State>, events: seq<Event>, k: nat)
    requires IsRun(run, events) && AllHarmless(run, events) && Inv(run[0]) && k < |run|
    ensures Inv(run[k])
  {
    if k > 0 {
      RunInv(run, events, k - 1);
      assert Enabled(run[k - 1], events[k - 1]);
      InvNext(run[k - 1], events[k - 1]);
    }
  }

  /** Safety over every interleaving from the start. */
  lemma RunSafe(run: seq<State>, events: seq<Event>, k: nat)
    requires IsRun(run, events) && AllHarmless(run, events) && Init(run[0]) && k < |run|
    ensures Safe(run[k])
  {
    InvInit(run[0]);
    RunInv(run, events, k);
    InvSafe(run[k]);
  }

  /** The unregistered path of `epoch_retire` is safe exactly when nobody holds the pointer. */
  lemma RetireNowSafe(s: State, e: Event)
    requires Inv(s) && Enabled(s, e) && e.a.RetireNow?
    ensures Safe(Next(s, e)) <==> Harmless(s, e)
  {
    InvSafe(s);
    var s' := Next(s, e);
    assert s'.threads == s.threads && s'.place[e.a.p].Freed?;
    if Safe(s') {
      forall t | t in s.threads ensures e.a.p !in s.threads[t].held {
      }
    }
  }

  /** Over a run from the start, every state is safe exactly when every retirement by an unregistered thread is of a
      pointer that nobody holds. */
  lemma RunSafeExactly(run: seq<State>, events: seq<Event>)
    requires IsRun(run, events) && Init(run[0])
    ensures AllHarmless(run, events) <==> forall k: nat {:trigger run[k]} | k < |run| :: Safe(run[k])
  {
    if AllHarmless(run, events) {
      forall k: nat | k < |run| ensures Safe(run[k]) {
        RunSafe(run, events, k);
      }
    } else if forall k: nat {:trigger run[k]} | k < |run| :: Safe(run[k]) {
      InvInit(run[0]);
      SafeHarmless(run, events, |events|);
      forall k: nat | k < |events| ensures Harmless(run[k], events[k]) {
        assert HarmlessAt(run, events, k);
      }
    }
  }

  ghost predicate HarmlessAt(run: seq<State>, events: seq<Event>, k: nat)
    requires IsRun(run, events)
  {
    k < |events| ==> Harmless(run[k], events[k])
  }

  lemma {:induction false} SafeHarmless(run: seq<State>, events: seq<Event>, n: nat)
    requires IsRun(run, events) && Inv(run[0]) && n <= |events|
    requires forall k: nat {:trigger run[k]} | k < |run| :: Safe(run[k])
    ensures Inv(run[n]) && forall k: nat {:trigger HarmlessAt(run, events, k)} | k < n :: HarmlessAt(run, events, k)
  {
    hide Inv, Safe;
    if n > 0 {
      SafeHarmless(run, events, n - 1);
      assert Enabled(run[n - 1], events[n - 1]) && Safe(run[n]);
      if events[n - 1].a.RetireNow? {
        RetireNowSafe(run[n - 1], events[n - 1]);
      }
      InvNext(run[n - 1], events[n - 1]);
    }
  }

  /** If every thread registers before it retires, every state of every interleaving is safe. */
  lemma RegisteredRunSafe(run: seq<State>, events: seq<Event>, k: nat)
    requires IsRun(run, events) && Init(run[0]) && k < |run|
    requires forall i | 0 <= i < |events| :: !events[i].a.RetireNow?
    ensures Safe(run[k])
  {
    RunSafe(run, events, k);
  }

  lemma RunMore(run: seq<State>, events: seq<Event>, e: Event) returns (run': seq<State>, events': seq<Event>)
    requires IsRun(run, events) && Enabled(run[|run| - 1], e)
    ensures run' == run + [Next(run[|run| - 1], e)] && events' == events + [e] && IsRun(run', events')
        && run'[0] == run[0]
  {
    run', events' := run + [Next(run[|run| - 1], e)], events + [e];
    forall k: nat | k < |events'| ensures Enabled(run'[k], events'[k]) && run'[k + 1] == Next(run'[k], events'[k]) {
      if k < |events| {
        assert events'[k] == events[k];
      }
    }
  }

  /** A registered reader holds a pointer that an unregistered thread unlinks and retires: it is freed under the
      reader. */
  lemma UnregisteredRetireFrees(s: State, p: Ptr) returns (run: seq<State>, events: seq<Event>)
    requires Init(s)
    ensures IsRun(run, events) && run[0] == s && !Safe(run[|run| - 1])
    ensures 1 in run[|run| - 1].threads && run[|run| - 1].threads[1].my.None?
  {
    hide IsRun;
    run, events := [s], [];
    RunNothing(s);
    run, events := RunMore(run, events, Event(0, Spawn));
    run, events := RunMore(run, events, Event(1, Spawn));
    run, events := RunMore(run, events, Event(0, Register));
    run, events := RunMore(run, events, Event(0, RegisterDecide));
    run, events := RunMore(run, events, Event(0, RegisterLoad));
    run, events := RunMore(run, events, Event(0, RegisterStore));
    run, events := RunMore(run, events, Event(0, RegisterInit));
    run, events := RunMore(run, events, Event(1, Publish(p)));
    run, events := RunMore(run, events, Event(0, Load(p)));
    run, events := RunMore(run, events, Event(1, Unlink(p)));
    run, events := RunMore(run, events, Event(1, RetireNow(p)));
    assert p in run[|run| - 1].threads[0].held;
  }

  lemma RunNothing(s: State)
    ensures IsRun([s], [])
  {
  }

  // ---- every retired pointer is pending in one list or freed once ----

  function PtrsOf(list: seq<Entry>): (r: seq<Ptr>)
    ensures |r| == |list| && forall k | 0 <= k < |list| :: r[k] == list[k].ptr
  {
    seq(|list|, k requires 0 <= k < |list| => list[k].ptr)
  }

  /** The calls to a freer that a step makes. */
  function FreeCalls(s: State, e: Event): seq<Ptr>
    requires Enabled(s, e)
  {
    match e.a
    case RetireNow(p) => if e.t in s.threads then [p] else []
    case GcVisit =>
      if e.t !in s.threads then [] else
      var x := s.slots[s.threads[e.t].my.value].retired[s.threads[e.t].pc.k];
      if x.epoch < s.threads[e.t].pc.safe then [x.ptr] else []
    case DrainAll => if e.t in s.threads then PtrsOf(s.slots[s.threads[e.t].my.value].retired) else []
    case _ => []
  }

  predicate IsFreed(s: State, p: Ptr) {
    p in s.place && s.place[p].Freed?
  }

  function One(b: bool): nat {
    if b then 1 else 0
  }

  lemma {:induction false} CountDistinct(q: seq<Ptr>, p: Ptr)
    requires forall a, b | 0 <= a < b < |q| :: q[a] != q[b]
    ensures multiset(q)[p] == One(p in q)
  {
    if q != [] {
      assert q == q[..|q| - 1] + [q[|q| - 1]];
      CountDistinct(q[..|q| - 1], p);
      assert p == q[|q| - 1] ==> p !in q[..|q| - 1];
    }
  }

  lemma FreedByDrain(s: State, e: Event, p: Ptr)
    requires Around(s, e) && e.a.DrainAll?
    ensures multiset(FreeCalls(s, e))[p] + One(IsFreed(s, p)) == One(IsFreed(Next(s, e), p))
  {
    var i := s.threads[e.t].my.value;
    var list := s.slots[i].retired;
    CountDistinct(PtrsOf(list), p);
    if p in PtrsOf(list) {
      var k :| 0 <= k < |list| && PtrsOf(list)[k] == p;
      assert Queued(s, i, list[k]);
    }
  }

  lemma FreedByVisit(s: State, e: Event, p: Ptr)
    requires Around(s, e) && e.a.GcVisit?
    ensures multiset(FreeCalls(s, e))[p] + One(IsFreed(s, p)) == One(IsFreed(Next(s, e), p))
  {
    var i := s.threads[e.t].my.value;
    assert Queued(s, i, s.slots[i].retired[s.threads[e.t].pc.k]);
  }

  /** A step frees `p` as often as `p` becomes freed: at most once, and never again. */
  lemma FreedByStep(s: State, e: Event, p: Ptr)
    requires Around(s, e)
    ensures IsFreed(s, p) ==> IsFreed(Next(s, e), p)
    ensures multiset(FreeCalls(s, e))[p] + One(IsFreed(s, p)) == One(IsFreed(Next(s, e), p))
  {
    if p in s.place {
      PlaceForward(s, e, p);
    }
    if e.a.DrainAll? {
      FreedByDrain(s, e, p);
    } else if e.a.GcVisit? {
      FreedByVisit(s, e, p);
    }
  }

  /** How often the first `n` steps of a run hand `p` to a freer. */
  function FreeCount(run: seq<State>, events: seq<Event>, n: nat, p: Ptr): nat
    requires IsRun(run, events) && n <= |events|
  {
    if n == 0 then 0 else FreeCount(run, events, n - 1, p) + multiset(FreeCalls(run[n - 1], events[n - 1]))[p]
  }

  lemma FreedNone(s: State, p: Ptr)
    requires Init(s)
    ensures !IsFreed(s, p)
  {
  }

  /** Over any run every pointer is freed at most once, and exactly once if it ends up freed. */
  lemma {:induction false} FreedOnce(run: seq<State>, events: seq<Event>, n: nat, p: Ptr)
    requires IsRun(run, events) && Init(run[0]) && n <= |events|
    ensures FreeCount(run, events, n, p) == One(IsFreed(run[n], p))
  {
    hide Init, FreeCalls, IsFreed, Enabled, Next;
    FreedNone(run[0], p);
    if n > 0 {
      FreedOnce(run, events, n - 1, p);
      FreedNext(run, events, n - 1, p);
    }
  }

  lemma FreedNext(run: seq<State>, events: seq<Event>, k: nat, p: Ptr)
    requires IsRun(run, events) && Init(run[0]) && k < |events|
    ensures Enabled(run[k], events[k])
    ensures multiset(FreeCalls(run[k], events[k]))[p] + One(IsFreed(run[k], p)) == One(IsFreed(run[k + 1], p))
  {
    BooksInit(run[0]);
    RunBooks(run, events, k);
    assert Enabled(run[k], events[k]);
    AroundAll(run[k], events[k]);
    FreedByStep(run[k], events[k], p);
  }

  /** Pointer `p`, pending at `i`, is queued there once and nowhere else, and the counters are the lengths. */
  ghost predicate QueuedOnce(s: State, p: Ptr, i: nat)
    requires |s.slots| == MAX_THREADS
  {
    i < MAX_THREADS && forall j: nat | j < MAX_THREADS ::
      multiset(PtrsOf(s.slots[j].retired))[p] == One(j == i) && s.slots[j].count == |s.slots[j].retired|
  }

  lemma PendingIsQueued(s: State, p: Ptr)
    requires Books(s) && p in s.place && s.place[p].Pending?
    ensures QueuedOnce(s, p, s.place[p].slot)
  {
    assert PlaceOk(s, p);
    forall i: nat | i < MAX_THREADS
      ensures multiset(PtrsOf(s.slots[i].retired))[p] == One(i == s.place[p].slot)
          && s.slots[i].count == |s.slots[i].retired|
    {
      assert SlotOk(s, i);
      var list := s.slots[i].retired;
      CountDistinct(PtrsOf(list), p);
      if p in PtrsOf(list) {
        var k :| 0 <= k < |list| && PtrsOf(list)[k] == p;
        assert Queued(s, i, list[k]);
      }
      if i == s.place[p].slot {
        var k :| 0 <= k < |list| && list[k] == Entry(p, s.place[p].stamp);
        assert PtrsOf(list)[k] == p;
      }
    }
  }

  /** In every state of every run, a retired pointer that is not yet disposed of sits in exactly one list, once, and
      `retire_count` is the length of that list. */
  lemma PendingOnce(run: seq<State>, events: seq<Event>, k: nat, p: Ptr)
    requires IsRun(run, events) && Init(run[0]) && k < |run| && p in run[k].place && run[k].place[p].Pending?
    ensures |run[k].slots| == MAX_THREADS && QueuedOnce(run[k], p, run[k].place[p].slot)
  {
    BooksInit(run[0]);
    RunBooks(run, events, k);
    PendingIsQueued(run[k], p);
  }

  /** In every state of every run, indices are distinct and below the limit, whatever registrations overshoot the
      counter. */
  lemma IndicesDistinct(run: seq<State>, events: seq<Event>, k: nat, t: Tid, u: Tid)
    requires IsRun(run, events) && Init(run[0]) && k < |run| && t != u
    requires MyOf(run[k], t).Some? && MyOf(run[k], u).Some?
    ensures MyOf(run[k], t).value < MAX_THREADS && MyOf(run[k], t) != MyOf(run[k], u)
  {
    BooksInit(run[0]);
    RunBooks(run, events, k);
    assert ThreadOk(run[k], t) && ThreadOk(run[k], u) && Apart(run[k], t, u);
  }

  // ---- progress: once every registered thread has ticked, the owner's next gc frees ----

  /** Every advertised epoch of slot `i` is past `r`. */
  ghost predicate SlotPast(s: State, i: nat, r: nat)
    requires i < |s.slots|
  {
    s.slots[i].quiescent == 0 || s.slots[i].quiescent > r
  }

  /** An epoch thread `t` has loaded but not stored is past `r`. */
  ghost predicate LoadPast(s: State, t: Tid, r: nat)
    requires t in s.threads
  {
    s.threads[t].pc.SeedStore? || s.threads[t].pc.TickStore? ==> s.threads[t].pc.g > r
  }

  ghost predicate Passed(s: State, r: nat) {
    && Base(s) && s.global > r
    && (forall i: nat {:trigger SlotPast(s, i, r)} :: i < MAX_THREADS ==> SlotPast(s, i, r))
    && (forall t: Tid {:trigger LoadPast(s, t, r)} :: t in s.threads ==> LoadPast(s, t, r))
  }

  lemma PassedNext(s: State, e: Event, r: nat)
    requires Books(s) && Enabled(s, e) && Passed(s, r)
    ensures Passed(Next(s, e), r)
  {
    var s' := Next(s, e);
    AroundAll(s, e);
    StepFrame(s, e);
    if e.t in s.threads {
      assert LoadPast(s, e.t, r);
    }
    forall i: nat | i < MAX_THREADS ensures SlotPast(s', i, r) {
      assert SlotPast(s, i, r) && SlotFrame(s, s', MyOf(s, e.t), i);
    }
    forall t: Tid | t in s'.threads ensures LoadPast(s', t, r) {
      if t != e.t {
        assert ThreadFrame(s, s', e.t, t) && LoadPast(s, t, r);
      }
    }
  }

  /** Thread `u` is in a gc that is bound to free `p`, which it retired at `r`, or has freed it. */
  ghost predicate Doomed(s: State, u: Tid, p: Ptr, r: nat)
    requires Base(s)
  {
    IsFreed(s, p) ||
    (u in s.threads && s.threads[u].my.Some? && s.threads[u].my.value < MAX_THREADS
     && p in s.place && s.place[p] == Pending(s.threads[u].my.value, r)
     && var pc := s.threads[u].pc;
        || (pc.Scan? && (pc.mn.None? || pc.mn.value > r))
        || (pc.Walk? && pc.safe > r && exists j :: pc.k <= j < |s.slots[s.threads[u].my.value].retired|
                                                   && s.slots[s.threads[u].my.value].retired[j] == Entry(p, r)))
  }

  lemma DoomedOther(s: State, e: Event, u: Tid, p: Ptr, r: nat)
    requires e.t != u && Books(s) && Enabled(s, e) && Doomed(s, u, p, r) && !IsFreed(s, p)
    ensures Base(Next(s, e)) && Doomed(Next(s, e), u, p, r)
  {
    var s' := Next(s, e);
    AroundAll(s, e);
    StepFrame(s, e);
    assert ThreadFrame(s, s', e.t, u) && PlaceFrame(s, s', e.t, MyOf(s, e.t), p);
    assert Apart(s, u, e.t) && ThreadOk(s, u) && (e.t in s.threads ==> ThreadOk(s, e.t));
    assert SlotFrame(s, s', MyOf(s, e.t), s.threads[u].my.value);
  }

  lemma DoomedVisit(s: State, u: Tid, p: Ptr, r: nat)
    requires Books(s) && Enabled(s, Event(u, GcVisit)) && Doomed(s, u, p, r) && !IsFreed(s, p)
    ensures Base(Next(s, Event(u, GcVisit))) && Doomed(Next(s, Event(u, GcVisit)), u, p, r)
  {
    var s' := Next(s, Event(u, GcVisit));
    var i := s.threads[u].my.value;
    var list, k := s.slots[i].retired, s.threads[u].pc.k;
    assert SlotOk(s, i);
    var j :| k <= j < |list| && list[j] == Entry(p, r);
    if list[k].epoch < s.threads[u].pc.safe && j > k {
      assert s'.slots[i].retired[j - 1] == Entry(p, r);
      assert list[k].ptr != list[j].ptr;
    } else if j > k {
      assert s'.slots[i].retired[j] == Entry(p, r);
    }
  }

  lemma DoomedScan(s: State, e: Event, p: Ptr, r: nat)
    requires Books(s) && Enabled(s, e) && Passed(s, r) && Doomed(s, e.t, p, r) && !IsFreed(s, p) && !e.a.GcVisit?
    ensures Base(Next(s, e)) && Doomed(Next(s, e), e.t, p, r)
  {
    assert PlaceOk(s, p) && ThreadOk(s, e.t);
    if e.a.GcRead? {
      assert SlotPast(s, s.threads[e.t].pc.i, r);
    }
  }

  lemma DoomedNext(s: State, e: Event, u: Tid, p: Ptr, r: nat)
    requires Books(s) && Enabled(s, e) && Passed(s, r) && Doomed(s, u, p, r)
    ensures Base(Next(s, e)) && Doomed(Next(s, e), u, p, r)
  {
    if IsFreed(s, p) {
      AroundAll(s, e);
      StepFrame(s, e);
      FreedByStep(s, e, p);
    } else if e.t != u {
      DoomedOther(s, e, u, p, r);
    } else if e.a.GcVisit? {
      DoomedVisit(s, u, p, r);
    } else {
      DoomedScan(s, e, p, r);
    }
  }

  lemma {:induction false} DoomedRun(run: seq<State>, events: seq<Event>, b: nat, c: nat, u: Tid, p: Ptr, r: nat)
    requires IsRun(run, events) && Books(run[0]) && b <= c < |run|
    requires Passed(run[b], r) && Doomed(run[b], u, p, r)
    ensures Passed(run[c], r) && Doomed(run[c], u, p, r)
  {
    if b < c {
      DoomedRun(run, events, b, c - 1, u, p, r);
      RunBooks(run, events, c - 1);
      assert Enabled(run[c - 1], events[c - 1]);
      PassedNext(run[c - 1], events[c - 1], r);
      DoomedNext(run[c - 1], events[c - 1], u, p, r);
    }
  }

  /** A pointer whose retirement every advertised epoch has passed is freed by its owner's next gc. */
  lemma GcFrees(run: seq<State>, events: seq<Event>, b: nat, c: nat, u: Tid, p: Ptr)
    requires IsRun(run, events) && Init(run[0]) && b < c < |run|
    requires events[b] == Event(u, GcStart) && u in run[c].threads && run[c].threads[u].pc.Idle?
    requires p in run[b].place && run[b].place[p].Pending? && Some(run[b].place[p].slot) == MyOf(run[b], u)
    requires Passed(run[b], run[b].place[p].stamp)
    ensures IsFreed(run[c], p)
  {
    BooksInit(run[0]);
    RunBooks(run, events, b);
    var r := run[b].place[p].stamp;
    assert Enabled(run[b], events[b]);
    assert ThreadOk(run[b], u);
    PassedNext(run[b], events[b], r);
    DoomedRun(run, events, b + 1, c, u, p, r);
  }

  /** Steps of its own that a gc still has to make, at most. */
  function GcWork(s: State, u: Tid): nat
    requires u in s.threads && |s.slots| == MAX_THREADS
    requires s.threads[u].my.Some? ==> s.threads[u].my.value < MAX_THREADS
  {
    var th := s.threads[u];
    if th.my.None? then 0 else
    match th.pc
    case Scan(n, i, mn) => (if i < n then n - i else 0) + |s.slots[th.my.value].retired| + 2
    case Walk(safe, k) => (if k < |s.slots[th.my.value].retired| then |s.slots[th.my.value].retired| - k else 0) + 1
    case _ => 0
  }

  predicate InGc(s: State, u: Tid) {
    u in s.threads && (s.threads[u].pc.Scan? || s.threads[u].pc.Walk?)
  }

  /** What is left of a gc is well defined. */
  ghost predicate HasWork(s: State, u: Tid) {
    && |s.slots| == MAX_THREADS && u in s.threads
    && (s.threads[u].my.Some? ==> s.threads[u].my.value < MAX_THREADS)
  }

  lemma GcCanStep(s: State, u: Tid)
    requires Books(s) && InGc(s, u)
    ensures HasWork(s, u) && exists a :: Enabled(s, Event(u, a))
  {
    assert ThreadOk(s, u);
    var th := s.threads[u];
    if th.pc.Scan? {
      assert Enabled(s, Event(u, if th.pc.i < th.pc.n then GcRead else GcDecide));
    } else {
      assert Enabled(s, Event(u, if th.pc.k < |s.slots[th.my.value].retired| then GcVisit else GcEnd));
    }
  }

  /** Each step of its own brings a gc nearer its end, and no other thread sets it back. */
  lemma GcStep(s: State, e: Event, u: Tid)
    requires Books(s) && Enabled(s, e) && InGc(s, u)
    ensures HasWork(s, u) && HasWork(Next(s, e), u)
    ensures GcWork(Next(s, e), u) + One(e.t == u) <= GcWork(s, u)
  {
    var s' := Next(s, e);
    assert ThreadOk(s, u);
    AroundAll(s, e);
    StepFrame(s, e);
    assert ThreadFrame(s, s', e.t, u);
    if e.t != u {
      assert Apart(s, u, e.t) && (e.t in s.threads ==> ThreadOk(s, e.t));
      assert SlotFrame(s, s', MyOf(s, e.t), s.threads[u].my.value);
    }
  }

  /** How many of the steps from `b` to `c` are `u`'s. */
  function OwnSteps(events: seq<Event>, b: nat, c: nat, u: Tid): nat
    requires b <= c <= |events|
  {
    if b == c then 0 else OwnSteps(events, b, c - 1, u) + One(events[c - 1].t == u)
  }

  /** In every run, a gc always has a step to take, and it is over after at most as many steps of its own as it had
      to make, whatever other threads do in between. */
  lemma {:induction false} GcTerminates(run: seq<State>, events: seq<Event>, b: nat, c: nat, u: Tid)
    requires IsRun(run, events) && Init(run[0]) && b <= c < |run| && InGc(run[b], u)
    requires forall j: nat {:trigger run[j]} | b <= j < c :: InGc(run[j], u)
    ensures HasWork(run[b], u) && HasWork(run[c], u)
    ensures OwnSteps(events, b, c, u) + GcWork(run[c], u) <= GcWork(run[b], u)
    ensures InGc(run[c], u) ==> exists a :: Enabled(run[c], Event(u, a))
  {
    hide Books, Enabled, Next, Init;
    BooksInit(run[0]);
    RunBooks(run, events, c);
    if InGc(run[c], u) {
      GcCanStep(run[c], u);
    }
    if b < c {
      GcTerminates(run, events, b, c - 1, u);
      RunBooks(run, events, c - 1);
      assert Enabled(run[c - 1], events[c - 1]);
      GcStep(run[c - 1], events[c - 1], u);
    }
  }

  /** Thread `t` can no longer advertise an epoch up to `r`. */
  ghost predicate Ahead(s: State, t: Tid, r: nat)
    requires |s.slots| == MAX_THREADS
  {
    t in s.threads && s.threads[t].my.Some? && s.threads[t].my.value < MAX_THREADS ==>
      && LoadPast(s, t, r)
      && (s.threads[t].pc.Seeding? || s.threads[t].pc.SeedStore? || s.slots[s.threads[t].my.value].quiescent > r)
  }

  /** Thread `t` is ahead, or halfway through a tick that will put it ahead. */
  ghost predicate Ticking(s: State, t: Tid, r: nat)
    requires |s.slots| == MAX_THREADS
  {
    Ahead(s, t, r) || (t in s.threads && s.threads[t].pc.TickStore? && s.threads[t].pc.g > r)
  }

  lemma AheadNext(s: State, e: Event, t: Tid, r: nat)
    requires Books(s) && Enabled(s, e) && s.global > r
    ensures Base(Next(s, e)) && Next(s, e).global > r
    ensures Ahead(s, t, r) ==> Ahead(Next(s, e), t, r)
    ensures Ticking(s, t, r) ==> Ticking(Next(s, e), t, r)
    ensures e == Event(t, TickLoad) ==> Ticking(Next(s, e), t, r)
    ensures e == Event(t, TickFinish) && Ticking(s, t, r) ==> Ahead(Next(s, e), t, r)
  {
    AroundAll(s, e);
    StepFrame(s, e);
    if t == e.t {
      AheadSelf(s, e, r);
    } else {
      assert Apart(s, t, e.t) && (t in s.threads ==> ThreadOk(s, t)) && (e.t in s.threads ==> ThreadOk(s, e.t));
      AheadOther(s, e, t, r);
    }
  }

  lemma AheadSelf(s: State, e: Event, r: nat)
    requires Around(s, e) && s.global > r
    ensures Base(Next(s, e)) && Next(s, e).global > r
    ensures Ahead(s, e.t, r) ==> Ahead(Next(s, e), e.t, r)
    ensures Ticking(s, e.t, r) ==> Ticking(Next(s, e), e.t, r)
    ensures e.a.TickLoad? ==> Ticking(Next(s, e), e.t, r)
    ensures e.a.TickFinish? && Ticking(s, e.t, r) ==> Ahead(Next(s, e), e.t, r)
  {
  }

  lemma AheadOther(s: State, e: Event, t: Tid, r: nat)
    requires Around(s, e) && Frame(s, Next(s, e), e.t) && s.global > r && t != e.t && Apart(s, t, e.t)
    requires (t in s.threads ==> ThreadOk(s, t)) && (e.t in s.threads ==> ThreadOk(s, e.t))
    ensures Next(s, e).global > r
    ensures Ahead(s, t, r) ==> Ahead(Next(s, e), t, r)
    ensures Ticking(s, t, r) ==> Ticking(Next(s, e), t, r)
  {
    var s' := Next(s, e);
    hide Next, Enabled;
    assert ThreadFrame(s, s', e.t, t);
    if t in s.threads && s.threads[t].my.Some? {
      assert SlotFrame(s, s', MyOf(s, e.t), s.threads[t].my.value);
    }
  }

  /** Between `a` and `b`, thread `t` made a whole tick. */
  ghost predicate Ticked(events: seq<Event>, a: nat, b: nat, t: Tid) {
    exists k, m {:trigger events[k], events[m]} ::
      a <= k < m < b && m < |events| && events[k] == Event(t, TickLoad) && events[m] == Event(t, TickFinish)
  }

  lemma {:induction false} StaysAhead(run: seq<State>, events: seq<Event>, a: nat, b: nat, t: Tid, r: nat)
    requires IsRun(run, events) && Books(run[0]) && a <= b < |run| && Base(run[a])
    requires run[a].global > r
    ensures Base(run[b]) && run[b].global > r
    ensures Ahead(run[a], t, r) ==> Ahead(run[b], t, r)
    ensures Ticking(run[a], t, r) ==> Ticking(run[b], t, r)
  {
    if a < b {
      StaysAhead(run, events, a, b - 1, t, r);
      RunBooks(run, events, b - 1);
      assert Enabled(run[b - 1], events[b - 1]);
      AheadNext(run[b - 1], events[b - 1], t, r);
    }
  }

  lemma AheadAfter(run: seq<State>, events: seq<Event>, k: nat, t: Tid, r: nat)
    requires IsRun(run, events) && Books(run[0]) && k < |events| && Base(run[k])
    requires run[k].global > r
    ensures Base(run[k + 1]) && run[k + 1].global > r
    ensures events[k] == Event(t, TickLoad) ==> Ticking(run[k + 1], t, r)
    ensures events[k] == Event(t, TickFinish) && Ticking(run[k], t, r) ==> Ahead(run[k + 1], t, r)
  {
    RunBooks(run, events, k);
    assert Enabled(run[k], events[k]);
    AheadNext(run[k], events[k], t, r);
  }

  lemma TickedAhead(run: seq<State>, events: seq<Event>, a: nat, b: nat, t: Tid, r: nat)
    requires IsRun(run, events) && Books(run[0]) && a <= b < |run| && Base(run[a])
    requires run[a].global > r && Ticked(events, a, b, t)
    ensures Base(run[b]) && Ahead(run[b], t, r)
  {
    var k, m :| a <= k < m < b && m < |events| && events[k] == Event(t, TickLoad) && events[m] == Event(t, TickFinish);
    assert |run| == |events| + 1;
    hide IsRun, Books, Ahead, Ticking;
    StaysAhead(run, events, a, k, t, r);
    AheadAfter(run, events, k, t, r);
    StaysAhead(run, events, k + 1, m, t, r);
    AheadAfter(run, events, m, t, r);
    StaysAhead(run, events, m + 1, b, t, r);
  }

  /** An advertised slot belongs to a thread. */
  ghost predicate Owned(s: State, i: nat) {
    i < |s.slots| && s.slots[i].quiescent != 0 ==> exists t :: t in s.threads && s.threads[t].my == Some(i)
  }

  lemma OwnedNext(s: State, e: Event, i: nat)
    requires Books(s) && Enabled(s, e) && Owned(s, i)
    ensures Owned(Next(s, e), i)
  {
    var s' := Next(s, e);
    AroundAll(s, e);
    StepFrame(s, e);
    assert SlotFrame(s, s', MyOf(s, e.t), i);
    if MyOf(s, e.t) == Some(i) {
      assert s'.threads[e.t].my == Some(i);
    } else if i < |s.slots| && s.slots[i].quiescent != 0 {
      var t :| t in s.threads && s.threads[t].my == Some(i);
      assert ThreadFrame(s, s', e.t, t);
    }
  }

  lemma {:induction false} RunOwned(run: seq<State>, events: seq<Event>, k: nat, i: nat)
    requires IsRun(run, events) && Init(run[0]) && k < |run|
    ensures Owned(run[k], i)
  {
    if k > 0 {
      BooksInit(run[0]);
      RunBooks(run, events, k - 1);
      RunOwned(run, events, k - 1, i);
      assert Enabled(run[k - 1], events[k - 1]);
      OwnedNext(run[k - 1], events[k - 1], i);
    }
  }

  /** When every thread registered at `a` has ticked by `b`, every advertised epoch is past what was
      stamped before `a`; threads that registered in between are past it from the start. */
  lemma AllPassed(run: seq<State>, events: seq<Event>, a: nat, b: nat, r: nat)
    requires IsRun(run, events) && Init(run[0]) && a <= b < |run|
    requires run[a].global > r
    requires forall t | t in run[a].threads && run[a].threads[t].my.Some? :: Ticked(events, a, b, t)
    ensures Passed(run[b], r)
  {
    BooksInit(run[0]);
    RunBooks(run, events, a);
    RunBooks(run, events, b);
    forall t: Tid ensures Ahead(run[b], t, r) {
      if t in run[a].threads && run[a].threads[t].my.Some? {
        TickedAhead(run, events, a, b, t, r);
      } else {
        StaysAhead(run, events, a, b, t, r);
      }
    }
    StaysAhead(run, events, a, b, 0, r);
    forall t: Tid | t in run[b].threads ensures LoadPast(run[b], t, r) {
      assert ThreadOk(run[b], t) && Ahead(run[b], t, r);
    }
    forall i: nat | i < MAX_THREADS ensures SlotPast(run[b], i, r) {
      RunOwned(run, events, b, i);
      if run[b].slots[i].quiescent != 0 {
        var t :| t in run[b].threads && run[b].threads[t].my == Some(i);
        assert ThreadOk(run[b], t) && Ahead(run[b], t, r);
      }
    }
  }

  lemma {:induction false} PendingStays(run: seq<State>, events: seq<Event>, a: nat, b: nat, p: Ptr)
    requires IsRun(run, events) && Books(run[0]) && a <= b < |run|
    requires p in run[a].place && (run[a].place[p].Pending? || run[a].place[p].Freed?)
    ensures p in run[b].place && (run[b].place[p] == run[a].place[p] || run[b].place[p].Freed?)
  {
    if a < b {
      PendingStays(run, events, a, b - 1, p);
      RunBooks(run, events, b - 1);
      assert Enabled(run[b - 1], events[b - 1]);
      AroundAll(run[b - 1], events[b - 1]);
      PlaceForward(run[b - 1], events[b - 1], p);
    }
  }

  lemma {:induction false} IndexStays(run: seq<State>, events: seq<Event>, a: nat, b: nat, u: Tid)
    requires IsRun(run, events) && a <= b < |run| && MyOf(run[a], u).Some?
    requires Books(run[0])
    ensures MyOf(run[b], u) == MyOf(run[a], u)
  {
    if a < b {
      IndexStays(run, events, a, b - 1, u);
      RunBooks(run, events, b - 1);
      assert Enabled(run[b - 1], events[b - 1]);
      assert ThreadOk(run[b - 1], u);
    }
  }

  /** Reclamation: if `p` is queued by `u` at `a`, every registered thread ticks by `b`, and `u` starts
      a gc at `b`, then `p` has been freed when that gc is over. */
  lemma TickedThenFreed(run: seq<State>, events: seq<Event>, a: nat, b: nat, c: nat, u: Tid, p: Ptr)
    requires IsRun(run, events) && Init(run[0]) && a <= b < c < |run|
    requires p in run[a].place && run[a].place[p].Pending? && Some(run[a].place[p].slot) == MyOf(run[a], u)
    requires forall t | t in run[a].threads && run[a].threads[t].my.Some? :: Ticked(events, a, b, t)
    requires events[b] == Event(u, GcStart) && u in run[c].threads && run[c].threads[u].pc.Idle?
    ensures IsFreed(run[c], p)
  {
    BooksInit(run[0]);
    RunBooks(run, events, a);
    assert PlaceOk(run[a], p);
    var r := run[a].place[p].stamp;
    assert SlotOk(run[a], run[a].place[p].slot);
    AllPassed(run, events, a, b, r);
    PendingStays(run, events, a, b, p);
    IndexStays(run, events, a, b, u);
    if run[b].place[p].Freed? {
      PendingStays(run, events, b, c, p);
    } else {
      GcFrees(run, events, b, c, u, p);
    }
  }

  // ---- what registering and holding do ----

  /** One thread's steps, one after the other; none if one of them cannot be taken. */
  function AfterAll(s: State, t: Tid, acts: seq<Action>): Option<State>
    decreases |acts|
  {
    if acts == [] then Some(s)
    else if !Enabled(s, Event(t, acts[0])) then None
    else AfterAll(Next(s, Event(t, acts[0])), t, acts[1..])
  }

  lemma After(s: State, t: Tid, a: Action, more: seq<Action>) returns (s1: State)
    requires Enabled(s, Event(t, a))
    ensures s1 == Next(s, Event(t, a)) && AfterAll(s, t, [a] + more) == AfterAll(s1, t, more)
  {
    s1 := Next(s, Event(t, a));
    assert ([a] + more)[1..] == more;
  }

  lemma AfterNone(s: State, t: Tid)
    ensures AfterAll(s, t, []) == Some(s)
  {
  }

  const REGISTRATION: seq<Action> := [Register, RegisterDecide, RegisterLoad, RegisterStore, RegisterInit]

  /** A registration that nobody interrupts takes the next index, and starts out having seen the present epoch,
      with nothing retired; past the limit of 64 it leaves everything as it was. */
  lemma Registers(s: State, t: Tid)
    requires |s.slots| == 64 && s.nthreads >= 0 && t in s.threads
    requires s.threads[t].pc.Idle? && s.threads[t].my.None?
    ensures s.nthreads < 64 ==> AfterAll(s, t, REGISTRATION) == Some(s.(nthreads := s.nthreads + 1,
              slots := s.slots[s.nthreads := Slot(s.global, [], 0)],
              threads := s.threads[t := Thread(Idle, Some(s.nthreads), s.threads[t].held)]))
    ensures s.nthreads >= 64 ==> AfterAll(s, t, REGISTRATION[..2]) == Some(s)
  {
    hide AfterAll, Enabled, Next;
    if s.nthreads < 64 {
      RegisterTakes(s, t);
    } else {
      RegisterGivesBack(s, t);
      assert REGISTRATION[..2] == [Register, RegisterDecide];
    }
  }

  lemma RegisterTakes(s: State, t: Tid)
    requires |s.slots| == 64 && 0 <= s.nthreads < 64 && t in s.threads
    requires s.threads[t].pc.Idle? && s.threads[t].my.None?
    ensures AfterAll(s, t, REGISTRATION) == Some(s.(nthreads := s.nthreads + 1,
              slots := s.slots[s.nthreads := Slot(s.global, [], 0)],
              threads := s.threads[t := Thread(Idle, Some(s.nthreads), s.threads[t].held)]))
  {
    hide AfterAll;
    var s2 := Index(s, t);
    var s3 := After(s2, t, RegisterLoad, REGISTRATION[3..]);
    assert REGISTRATION[2..] == [RegisterLoad] + REGISTRATION[3..];
    var s4 := After(s3, t, RegisterStore, REGISTRATION[4..]);
    assert REGISTRATION[3..] == [RegisterStore] + REGISTRATION[4..];
    var s5 := After(s4, t, RegisterInit, []);
    assert REGISTRATION[4..] == [RegisterInit] + [];
    AfterNone(s5, t);
    assert s5.threads == s.threads[t := Thread(Idle, Some(s.nthreads), s.threads[t].held)];
    assert s5.slots == s.slots[s.nthreads := Slot(s.global, [], 0)];
  }

  /** The first two steps take the index. */
  lemma Index(s: State, t: Tid) returns (s2: State)
    requires |s.slots| == 64 && 0 <= s.nthreads < 64 && t in s.threads
    requires s.threads[t].pc.Idle? && s.threads[t].my.None?
    ensures s2 == s.(nthreads := s.nthreads + 1,
              threads := s.threads[t := Thread(Seeding, Some(s.nthreads), s.threads[t].held)])
    ensures AfterAll(s, t, REGISTRATION) == AfterAll(s2, t, REGISTRATION[2..])
  {
    hide AfterAll;
    var s1 := After(s, t, Register, REGISTRATION[1..]);
    assert REGISTRATION == [Register] + REGISTRATION[1..];
    s2 := After(s1, t, RegisterDecide, REGISTRATION[2..]);
    assert REGISTRATION[1..] == [RegisterDecide] + REGISTRATION[2..];
    assert s2.threads == s.threads[t := Thread(Seeding, Some(s.nthreads), s.threads[t].held)];
  }

  lemma RegisterGivesBack(s: State, t: Tid)
    requires s.nthreads >= 64 && t in s.threads && s.threads[t].pc.Idle? && s.threads[t].my.None?
    ensures AfterAll(s, t, [Register, RegisterDecide]) == Some(s)
  {
    hide AfterAll;
    assert [Register] + [RegisterDecide] == [Register, RegisterDecide] && [RegisterDecide] + [] == [RegisterDecide];
    var s1 := After(s, t, Register, [RegisterDecide]);
    var s2 := After(s1, t, RegisterDecide, []);
    AfterNone(s2, t);
    assert s2.threads == s.threads;
  }

  /** A thread holds a pointer after a step exactly if it loads it then, or held it and does not drop it then. */
  lemma HeldExactly(s: State, e: Event, t: Tid, p: Ptr)
    requires Enabled(s, e) && t in s.threads
    ensures t in Next(s, e).threads
    ensures p in Next(s, e).threads[t].held <==>
              e == Event(t, Load(p)) || (p in s.threads[t].held && e != Event(t, Drop(p)))
  {
  }
}
