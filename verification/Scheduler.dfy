/** Round-robin scheduler, sleep list and wait queues (kernel/sched, kernel/sync/waitqueue.c).
 *
 *  One CPU, and every entry point runs with interrupts off, so an execution is a
 *  sequence of atomic steps. Threads are named by their id; `ready` and `sleepers`
 *  are the two singly linked lists, `waiting` the wait queues, and `parked` the queue
 *  a thread's on-stack wait entry was last linked into.
 */
module SchedulerSpec {
  import opened Lists

  const QUANTUM: nat := 5
  const WORD: nat := 0x1_0000_0000_0000_0000

  type Tid = nat
  type Queue = nat

  datatype ThreadState = Ready | Running | Sleeping | Blocked | Dead

  datatype Sched = Sched(
    idle: Tid, current: Tid,
    ready: seq<Tid>, sleepers: seq<Tid>, waiting: map<Queue, seq<Tid>>,
    state: map<Tid, ThreadState>, wake: map<Tid, nat>, parked: map<Tid, Queue>,
    slice: nat, ticks: nat, needResched: bool)

  // ---- Operations ---------------------------------------------------------------

  function MakeReady(s: Sched, t: Tid): (r: Sched) {
    s.(ready := s.ready + [t], state := s.state[t := Ready])
  }

  /** The core switch: the head of the ready queue runs next; a still-running thread
   *  other than idle goes to the back. */
  function Schedule(s: Sched): (r: Sched)
    requires s.current in s.state
  {
    var prev := s.current;
    if s.ready == [] && s.state[prev] == Running then s.(slice := QUANTUM)
    else
      var next := if s.ready == [] then s.idle else s.ready[0];
      var rest := if s.ready == [] then [] else s.ready[1..];
      var requeue := s.state[prev] == Running && prev != s.idle;
      var ready := if requeue then rest + [prev] else rest;
      var state := if requeue then s.state[prev := Ready] else s.state;
      if next == prev then
        s.(ready := ready, state := state[prev := Running], slice := QUANTUM)
      else
        s.(ready := ready, state := state[next := Running], slice := QUANTUM, current := next)
  }

  /** Sleepers due by `now`, in list order. */
  function Expired(l: seq<Tid>, wake: map<Tid, nat>, now: nat): (r: seq<Tid>) {
    if l == [] then []
    else if l[0] in wake && wake[l[0]] <= now then [l[0]] + Expired(l[1..], wake, now)
    else Expired(l[1..], wake, now)
  }

  /** Sleepers not due by `now`, in list order. */
  function Asleep(l: seq<Tid>, wake: map<Tid, nat>, now: nat): (r: seq<Tid>) {
    if l == [] then []
    else if l[0] in wake && wake[l[0]] <= now then Asleep(l[1..], wake, now)
    else [l[0]] + Asleep(l[1..], wake, now)
  }

  function AllReady(s: Sched, l: seq<Tid>): (r: Sched)
    ensures r.current == s.current && s.state.Keys <= r.state.Keys
    decreases |l|
  {
    if l == [] then s else AllReady(MakeReady(s, l[0]), l[1..])
  }

  function WakeExpired(s: Sched): (r: Sched) {
    AllReady(s.(sleepers := Asleep(s.sleepers, s.wake, s.ticks)), Expired(s.sleepers, s.wake, s.ticks))
  }

  function OnTimerTick(s: Sched): (r: Sched) {
    var w := WakeExpired(s.(ticks := s.ticks + 1));
    var slice := if w.slice > 0 then w.slice - 1 else 0;
    w.(slice := slice, needResched := w.needResched || slice == 0)
  }

  function IrqExit(s: Sched): (r: Sched)
    requires s.current in s.state
  {
    if !s.needResched then s else Schedule(s.(needResched := false))
  }

  function SleepTicks(s: Sched, n: nat): (r: Sched)
    requires s.current in s.state
  {
    if n == 0 then Schedule(s)
    else
      var t := s.current;
      Schedule(s.(sleepers := [t] + s.sleepers, state := s.state[t := Sleeping],
                  wake := s.wake[t := (s.ticks + n) % WORD]))
  }

  function Wait(s: Sched, q: Queue): (r: Sched)
    requires s.current in s.state && q in s.waiting
  {
    var t := s.current;
    Schedule(s.(waiting := s.waiting[q := s.waiting[q] + [t]], state := s.state[t := Blocked],
                parked := s.parked[t := q]))
  }

  function WakeOne(s: Sched, q: Queue): (r: Sched)
    requires q in s.waiting
  {
    if s.waiting[q] == [] then s
    else MakeReady(s.(waiting := s.waiting[q := s.waiting[q][1..]]), s.waiting[q][0])
  }

  function WakeAll(s: Sched, q: Queue): (r: Sched)
    requires q in s.waiting
  {
    AllReady(s.(waiting := s.waiting[q := []]), s.waiting[q])
  }

  function Exit(s: Sched): (r: Sched)
    requires s.current in s.state
  {
    Schedule(s.(state := s.state[s.current := Dead]))
  }

  // ---- Steps and runs -------------------------------------------------------------

  datatype Op =
    | Create(t: Tid)
    | Yield
    | Sleep(n: nat)
    | WaitOn(q: Queue)
    | WakeOneOf(q: Queue)
    | WakeAllOf(q: Queue)
    | ExitThread
    | Timer
    | OtherIrq

  /** What callers may do: a new thread is new, the idle thread never blocks. */
  predicate Enabled(s: Sched, op: Op) {
    match op
    case Create(t) => t !in s.state
    case Sleep(_) => s.current != s.idle
    case WaitOn(q) => s.current != s.idle && q in s.waiting
    case WakeOneOf(q) => q in s.waiting
    case WakeAllOf(q) => q in s.waiting
    case ExitThread => s.current != s.idle
    case _ => true
  }

  function Step(s: Sched, op: Op): (r: Sched)
    requires s.current in s.state && Enabled(s, op)
  {
    match op
    case Create(t) => MakeReady(s, t)
    case Yield => Schedule(s)
    case Sleep(n) => SleepTicks(s, n)
    case WaitOn(q) => Wait(s, q)
    case WakeOneOf(q) => WakeOne(s, q)
    case WakeAllOf(q) => WakeAll(s, q)
    case ExitThread => Exit(s)
    case Timer => TickThenExit(s)
    case OtherIrq => IrqExit(s)
  }

  /** A timer interrupt: the tick handler, then the deferred switch. */
  function TickThenExit(s: Sched): (r: Sched)
    requires s.current in s.state
  {
    IrqExit(OnTimerTick(s))
  }

  // ---- Placement invariant --------------------------------------------------------

  predicate Is(s: Sched, t: Tid, v: ThreadState) {
    t in s.state && s.state[t] == v
  }

  ghost predicate ReadyList(s: Sched) {
    && NoDup(s.ready)
    && forall t :: t in s.ready <==> Is(s, t, Ready) && t != s.idle
  }

  ghost predicate SleepList(s: Sched) {
    && NoDup(s.sleepers)
    && (forall t :: t in s.sleepers <==> Is(s, t, Sleeping))
    && (forall t :: t in s.sleepers ==> t in s.wake)
  }

  ghost predicate WaitLists(s: Sched) {
    && (forall q :: q in s.waiting ==> NoDup(s.waiting[q]))
    && (forall q, t :: q in s.waiting ==>
          (t in s.waiting[q] <==> Is(s, t, Blocked) && t in s.parked && s.parked[t] == q))
    && (forall t :: Is(s, t, Blocked) ==> t in s.parked && s.parked[t] in s.waiting)
  }

  ghost predicate Roles(s: Sched) {
    && s.current in s.state && s.idle in s.state
    && (s.state[s.idle] == Ready || s.state[s.idle] == Running)
    && (forall t :: t in s.state && s.state[t] == Running ==> t == s.current || t == s.idle)
  }

  /** Being linked into a list is exactly what the thread's state says. The current
   *  thread may have any state while a switch is pending. */
  ghost predicate Placed(s: Sched) {
    ReadyList(s) && SleepList(s) && WaitLists(s) && Roles(s)
  }

  ghost predicate Inv(s: Sched) {
    && Placed(s)
    && s.state[s.current] == Running
    && 1 <= s.slice <= QUANTUM && !s.needResched
  }

  /** Wake-ups only append to the ready queue. */
  lemma {:induction false} AllReadyShape(s: Sched, l: seq<Tid>)
    ensures var r := AllReady(s, l);
            && r.ready == s.ready + l
            && r == s.(ready := r.ready, state := r.state)
            && r.state.Keys == s.state.Keys + (set t | t in l)
            && (forall t :: t in r.state ==> r.state[t] == if t in l then Ready else s.state[t])
    decreases |l|
  {
    if l != [] {
      AllReadyShape(MakeReady(s, l[0]), l[1..]);
      assert s.ready + [l[0]] + l[1..] == s.ready + l;
    } else {
      assert s.ready + l == s.ready;
    }
  }

  lemma {:induction false} CreatePlaced(s: Sched, t: Tid)
    requires Placed(s) && t !in s.state
    ensures Placed(MakeReady(s, t))
  {
    NoDupConcat(s.ready, [t]);
    var r := MakeReady(s, t);
    forall x, v ensures Is(r, x, v) <==> (if x == t then v == Ready else Is(s, x, v)) {}
    assert !Is(s, t, Blocked) && !Is(s, t, Sleeping);
    assert WaitLists(r);
  }

  /** Threads other than those in `moved` keep their state. */
  ghost predicate SameBut(s: Sched, r: Sched, moved: set<Tid>) {
    forall t, v :: t !in moved ==> (Is(r, t, v) <==> Is(s, t, v))
  }

  lemma {:induction false} UnmovedLists(s: Sched, r: Sched, moved: set<Tid>)
    requires SameBut(s, r, moved)
    requires forall t :: t in moved ==> !Is(s, t, Sleeping) && !Is(r, t, Sleeping)
    requires forall t :: t in moved ==> !Is(s, t, Blocked) && !Is(r, t, Blocked)
    ensures SleepList(s) && r.sleepers == s.sleepers && r.wake == s.wake ==> SleepList(r)
    ensures WaitLists(s) && r.waiting == s.waiting && r.parked == s.parked ==> WaitLists(r)
  {
  }

  /** Give the CPU to `next`, which must be linked nowhere in `s` any more. */
  function Dispatch(s: Sched, next: Tid): (r: Sched) {
    s.(state := s.state[next := Running], slice := QUANTUM, current := next)
  }

  lemma {:induction false} DequeuePlaced(s: Sched, r: Sched)
    requires Placed(s) && s.ready != [] && s.state[s.current] != Running && s.state[s.current] != Ready
    requires r == Dispatch(s.(ready := s.ready[1..]), s.ready[0])
    ensures Placed(r)
  {
    TailFacts(s.ready);
    assert Is(s, s.ready[0], Ready);
    UnmovedLists(s, r, {s.ready[0]});
  }

  lemma {:induction false} LeaveIdlePlaced(s: Sched, r: Sched)
    requires Placed(s) && s.ready != [] && s.current == s.idle && s.state[s.idle] == Running
    requires r == Dispatch(s.(ready := s.ready[1..]), s.ready[0])
    ensures Placed(r)
  {
    TailFacts(s.ready);
    assert Is(s, s.ready[0], Ready);
    UnmovedLists(s, r, {s.ready[0]});
  }

  lemma {:induction false} RotatePlaced(s: Sched, r: Sched)
    requires Placed(s) && s.ready != [] && s.current != s.idle && s.state[s.current] == Running
    requires r == Dispatch(s.(ready := s.ready[1..] + [s.current], state := s.state[s.current := Ready]), s.ready[0])
    ensures Placed(r)
  {
    TailFacts(s.ready);
    var next := s.ready[0];
    assert Is(s, next, Ready) && Is(s, s.current, Running);
    assert s.current !in s.ready;
    NoDupConcat(s.ready[1..], [s.current]);
    UnmovedLists(s, r, {next, s.current});
  }

  lemma {:induction false} FallbackPlaced(s: Sched, r: Sched)
    requires Placed(s) && s.ready == [] && s.state[s.current] != Running && s.state[s.current] != Ready
    requires r == Dispatch(s, s.idle)
    ensures Placed(r)
  {
    UnmovedLists(s, r, {s.idle});
  }

  /** A switch keeps every thread in its one place, whatever state the outgoing
   *  thread was put in, and leaves a running thread current. */
  lemma {:induction false} SchedulePlaced(s: Sched)
    requires Placed(s) && s.state[s.current] != Ready
    ensures Placed(Schedule(s))
    ensures Schedule(s).state[Schedule(s).current] == Running
  {
    hide SleepList;
    hide WaitLists;
    var r := Schedule(s);
    if s.ready == [] {
      if s.state[s.current] == Running {
        SliceIrrelevant(s, QUANTUM);
      } else {
        FallbackPlaced(s, r);
      }
    } else {
      assert s.ready[0] in s.ready;
      if s.state[s.current] != Running {
        DequeuePlaced(s, r);
      } else if s.current == s.idle {
        LeaveIdlePlaced(s, r);
      } else {
        RotatePlaced(s, r);
      }
    }
  }

  lemma {:induction false} SliceIrrelevant(s: Sched, n: nat)
    requires Placed(s)
    ensures Placed(s.(slice := n))
  {
  }

  lemma {:induction false} ListSplit(l: seq<Tid>, wake: map<Tid, nat>, now: nat)
    ensures forall t :: t in Expired(l, wake, now) <==> t in l && t in wake && wake[t] <= now
    ensures forall t :: t in Asleep(l, wake, now) <==> t in l && !(t in wake && wake[t] <= now)
    ensures NoDup(l) ==> NoDup(Expired(l, wake, now)) && NoDup(Asleep(l, wake, now))
  {
    if l != [] {
      ListSplit(l[1..], wake, now);
      assert l == [l[0]] + l[1..];
      if NoDup(l) {
        TailFacts(l);
      }
    }
  }

  /** Moving the threads `l` from one list to the ready queue. */
  lemma {:induction false} ReleaseReady(s: Sched, base: Sched, l: seq<Tid>)
    requires Placed(s) && NoDup(l) && s.idle !in l && s.current !in l
    requires base == s.(sleepers := base.sleepers, waiting := base.waiting)
    requires forall t :: t in l ==> Is(s, t, Sleeping) || Is(s, t, Blocked)
    ensures ReadyList(AllReady(base, l)) && Roles(AllReady(base, l))
    ensures forall t, v :: Is(AllReady(base, l), t, v) <==> if t in l then v == Ready else Is(s, t, v)
  {
    AllReadyShape(base, l);
    assert forall x :: x in s.ready ==> x !in l by {
      forall x | x in s.ready ensures x !in l {
        assert Is(s, x, Ready);
      }
    }
    NoDupConcat(s.ready, l);
  }

  lemma {:induction false} WakeExpiredPlaced(s: Sched)
    requires Placed(s) && s.state[s.current] == Running
    ensures Placed(WakeExpired(s))
    ensures WakeExpired(s).state[s.current] == Running
  {
    var out := Expired(s.sleepers, s.wake, s.ticks);
    var base := s.(sleepers := Asleep(s.sleepers, s.wake, s.ticks));
    ListSplit(s.sleepers, s.wake, s.ticks);
    forall t | t in out ensures Is(s, t, Sleeping) {}
    ReleaseReady(s, base, out);
    AllReadyShape(base, out);
    assert Is(s, s.current, Running);
  }

  lemma {:induction false} WakeAllPlaced(s: Sched, q: Queue)
    requires Placed(s) && q in s.waiting && s.state[s.current] == Running
    ensures Placed(WakeAll(s, q))
    ensures WakeAll(s, q).state[s.current] == Running
  {
    var base := s.(waiting := s.waiting[q := []]);
    forall t | t in s.waiting[q] ensures Is(s, t, Blocked) {}
    ReleaseReady(s, base, s.waiting[q]);
    AllReadyShape(base, s.waiting[q]);
    assert Is(s, s.current, Running);
  }

  lemma {:induction false} WakeOnePlaced(s: Sched, q: Queue)
    requires Placed(s) && q in s.waiting && s.state[s.current] == Running
    ensures Placed(WakeOne(s, q))
    ensures WakeOne(s, q).state[s.current] == Running
  {
    if s.waiting[q] != [] {
      var l := s.waiting[q];
      TailFacts(l);
      assert Is(s, l[0], Blocked);
      var base := s.(waiting := s.waiting[q := l[1..]]);
      ReleaseReady(s, base, [l[0]]);
      assert [l[0]][1..] == [];
      assert AllReady(base, [l[0]]) == AllReady(MakeReady(base, l[0]), [l[0]][1..]) == WakeOne(s, q);
      assert Is(s, s.current, Running);
    }
  }

  lemma {:induction false} SleepPlaced(s: Sched, r: Sched, n: nat)
    requires Placed(s) && s.state[s.current] == Running && s.current != s.idle
    requires r == s.(sleepers := [s.current] + s.sleepers, state := s.state[s.current := Sleeping],
                     wake := s.wake[s.current := n])
    ensures Placed(r)
  {
    assert Is(s, s.current, Running);
    NoDupConcat([s.current], s.sleepers);
    BlockedStay(s, r);
  }

  lemma {:induction false} BlockedStay(s: Sched, r: Sched)
    requires WaitLists(s) && r.waiting == s.waiting && r.parked == s.parked
    requires forall t :: Is(r, t, Blocked) <==> Is(s, t, Blocked)
    ensures WaitLists(r)
  {
  }

  lemma {:induction false} WaitPlaced(s: Sched, r: Sched, q: Queue)
    requires Placed(s) && s.state[s.current] == Running && s.current != s.idle && q in s.waiting
    requires r == s.(waiting := s.waiting[q := s.waiting[q] + [s.current]], state := s.state[s.current := Blocked],
                     parked := s.parked[s.current := q])
    ensures Placed(r)
  {
    assert Is(s, s.current, Running) && !Is(s, s.current, Blocked);
    NoDupConcat(s.waiting[q], [s.current]);
    forall p, t | p in r.waiting
      ensures t in r.waiting[p] <==> Is(r, t, Blocked) && t in r.parked && r.parked[t] == p
    {
      assert t in s.waiting[p] <==> Is(s, t, Blocked) && t in s.parked && s.parked[t] == p;
    }
  }

  lemma {:induction false} ExitPlaced(s: Sched, r: Sched)
    requires Placed(s) && s.state[s.current] == Running && s.current != s.idle
    requires r == s.(state := s.state[s.current := Dead])
    ensures Placed(r)
  {
    UnmovedLists(s, r, {s.current});
  }

  // ---- Every reachable state ------------------------------------------------------

  lemma {:induction false} ClockIrrelevant(s: Sched, ticks: nat, slice: nat, need: bool)
    requires Placed(s)
    ensures Placed(s.(ticks := ticks)) && Placed(s.(slice := slice, needResched := need))
  {
    BlockedStay(s, s.(ticks := ticks));
    BlockedStay(s, s.(slice := slice, needResched := need));
  }

  lemma {:induction false} TickPlaced(s: Sched)
    requires Placed(s) && s.state[s.current] == Running
    ensures Placed(OnTimerTick(s)) && Is(OnTimerTick(s), s.current, Running)
    ensures OnTimerTick(s).current == s.current
  {
    hide ReadyList;
    hide SleepList;
    hide WaitLists;
    var t := s.(ticks := s.ticks + 1);
    ClockIrrelevant(s, s.ticks + 1, 0, false);
    WakeExpiredPlaced(t);
    var w := WakeExpired(t);
    ClockIrrelevant(w, 0, OnTimerTick(s).slice, OnTimerTick(s).needResched);
  }

  /** What the quantum looks like after a tick, and after a switch. */
  lemma {:induction false} TickQuantum(s: Sched)
    requires s.slice >= 1 && !s.needResched
    ensures var r := OnTimerTick(s);
            && r.slice == s.slice - 1 && (r.needResched <==> s.slice == 1)
            && r.ready == s.ready + Expired(s.sleepers, s.wake, s.ticks + 1)
            && r.ticks == s.ticks + 1
            && r.sleepers == Asleep(s.sleepers, s.wake, s.ticks + 1) && r.wake == s.wake
  {
    var t := s.(ticks := s.ticks + 1);
    AllReadyShape(t.(sleepers := Asleep(t.sleepers, t.wake, t.ticks)), Expired(t.sleepers, t.wake, t.ticks));
  }

  lemma {:induction false} TimerInv(s: Sched)
    requires Inv(s)
    ensures Inv(TickThenExit(s))
  {
    hide Placed;
    TickPlaced(s);
    TickQuantum(s);
    var t := OnTimerTick(s);
    if t.needResched {
      ClockIrrelevant(t, 0, t.slice, false);
      SchedulePlaced(t.(needResched := false));
      ScheduleQuantum(t.(needResched := false));
    }
  }

  lemma {:induction false} ScheduleQuantum(s: Sched)
    requires s.current in s.state
    ensures Schedule(s).slice == QUANTUM && Schedule(s).needResched == s.needResched
  {
  }

  /** Every step keeps every thread in exactly one place and the quantum running. */
  lemma {:induction false} StepInv(s: Sched, op: Op)
    requires Inv(s) && Enabled(s, op)
    ensures Inv(Step(s, op))
  {
    hide ReadyList;
    hide SleepList;
    hide WaitLists;
    var t := s.current;
    match op
    case Create(n) => CreatePlaced(s, n);
    case Yield => SchedulePlaced(s);
    case Sleep(n) =>
      if n == 0 {
        SchedulePlaced(s);
      } else {
        var wake := (s.ticks + n) % WORD;
        var m := s.(sleepers := [t] + s.sleepers, state := s.state[t := Sleeping], wake := s.wake[t := wake]);
        SleepPlaced(s, m, wake);
        SchedulePlaced(m);
      }
    case WaitOn(q) =>
      var m := s.(waiting := s.waiting[q := s.waiting[q] + [t]], state := s.state[t := Blocked],
                  parked := s.parked[t := q]);
      WaitPlaced(s, m, q);
      SchedulePlaced(m);
    case WakeOneOf(q) => WakeOnePlaced(s, q);
    case WakeAllOf(q) =>
      WakeAllPlaced(s, q);
      AllReadyShape(s.(waiting := s.waiting[q := []]), s.waiting[q]);
    case ExitThread =>
      var m := s.(state := s.state[t := Dead]);
      ExitPlaced(s, m);
      SchedulePlaced(m);
    case Timer => TimerInv(s);
    case OtherIrq =>
  }

  /** The operations of a run are each allowed when they happen. */
  ghost predicate Allowed(s: Sched, ops: seq<Op>)
    requires Inv(s)
    decreases |ops|
  {
    ops == [] || (Enabled(s, ops[0]) && (StepInv(s, ops[0]); Allowed(Step(s, ops[0]), ops[1..])))
  }

  ghost function Run(s: Sched, ops: seq<Op>): (r: Sched)
    requires Inv(s) && Allowed(s, ops)
    ensures Inv(r)
    decreases |ops|
  {
    if ops == [] then s else (StepInv(s, ops[0]); Run(Step(s, ops[0]), ops[1..]))
  }

  /** The state after `scheduler_init`, thread creation and `scheduler_start`; the boot
   *  context is abandoned. */
  function Boot(idle: Tid, boot: Tid, created: seq<Tid>, queues: set<Queue>): (r: Sched)
    requires NoDup(created) && idle !in created && boot !in created && idle != boot
    ensures Inv(r)
  {
    var waiting := map q | q in queues :: [];
    var state := map[idle := Ready, boot := Dead] + map t | t in created :: Ready;
    var s := Sched(idle, boot, created, [], waiting, state, map[], map[], QUANTUM, 0, false);
    SchedulePlaced(s);
    Schedule(s)
  }

  datatype Place = OnCpu | InReadyQueue | InSleepList | InWaitQueue(q: Queue) | Gone

  ghost predicate At(s: Sched, t: Tid, p: Place) {
    match p
    case OnCpu => t == s.current
    case InReadyQueue => t in s.ready
    case InSleepList => t in s.sleepers
    case InWaitQueue(q) => q in s.waiting && t in s.waiting[q]
    case Gone => t in s.state && s.state[t] == Dead
  }

  ghost function PlaceOf(s: Sched, t: Tid): (p: Place)
    requires Inv(s) && t in s.state
  {
    match s.state[t]
    case Ready => InReadyQueue
    case Running => OnCpu
    case Sleeping => InSleepList
    case Blocked => assert Is(s, t, Blocked); InWaitQueue(s.parked[t])
    case Dead => Gone
  }

  /** In every state reachable from boot, each admitted thread is in exactly one place
   *  and no list holds it twice; idle is never linked anywhere. */
  lemma {:induction false} ExactlyOnePlace(idle: Tid, boot: Tid, created: seq<Tid>, queues: set<Queue>,
                                           ops: seq<Op>, t: Tid)
    requires NoDup(created) && idle !in created && boot !in created && idle != boot
    requires Allowed(Boot(idle, boot, created, queues), ops)
    ensures var s := Run(Boot(idle, boot, created, queues), ops);
            && NoDup(s.ready) && NoDup(s.sleepers) && (forall q :: q in s.waiting ==> NoDup(s.waiting[q]))
            && (t in s.state && t != s.idle ==>
                  && At(s, t, PlaceOf(s, t))
                  && forall p :: At(s, t, p) ==> p == PlaceOf(s, t))
            && (forall p :: At(s, s.idle, p) ==> p == OnCpu)
  {
    hide Boot;
    hide Run;
    hide At;
    hide PlaceOf;
    var s := Run(Boot(idle, boot, created, queues), ops);
    if t in s.state && t != s.idle {
      UniquePlace(s, t);
    }
    IdleUnlinked(s);
  }

  lemma {:induction false} UniquePlace(s: Sched, t: Tid)
    requires Inv(s) && t in s.state && t != s.idle
    ensures At(s, t, PlaceOf(s, t))
    ensures forall p :: At(s, t, p) ==> p == PlaceOf(s, t)
  {
    assert Is(s, t, s.state[t]);
    assert Is(s, s.current, Running);
    forall p | At(s, t, p) ensures p == PlaceOf(s, t) {
      match p
      case OnCpu =>
      case InReadyQueue => assert Is(s, t, Ready);
      case InSleepList => assert Is(s, t, Sleeping);
      case InWaitQueue(q) => assert Is(s, t, Blocked);
      case Gone =>
    }
  }

  lemma {:induction false} IdleUnlinked(s: Sched)
    requires Inv(s)
    ensures forall p :: At(s, s.idle, p) ==> p == OnCpu
  {
    forall p | At(s, s.idle, p) ensures p == OnCpu {
      assert !Is(s, s.idle, Sleeping) && !Is(s, s.idle, Blocked);
    }
  }

  // ---- Sleeping threads -----------------------------------------------------------

  /** A tick wakes exactly the sleepers whose wake tick it reaches. */
  lemma {:induction false} TimerWakesDue(s: Sched, t: Tid)
    requires Inv(s) && t in s.sleepers
    ensures var r := Step(s, Timer);
            && (s.wake[t] > s.ticks + 1 ==> t in r.sleepers && t in r.wake && r.wake[t] == s.wake[t])
            && (s.wake[t] <= s.ticks + 1 ==> t in r.ready || t == r.current)
  {
    TimerInv(s);
    TickQuantum(s);
    TickPlaced(s);
    ListSplit(s.sleepers, s.wake, s.ticks + 1);
    var m := OnTimerTick(s);
    ScheduleMoves(m.(needResched := false));
    if s.wake[t] <= s.ticks + 1 {
      assert t in m.ready;
    }
  }

  /** A switch touches no sleeper, and runs or keeps every ready thread. */
  lemma {:induction false} ScheduleMoves(s: Sched)
    requires s.current in s.state
    ensures var r := Schedule(s);
            && r.sleepers == s.sleepers && r.wake == s.wake && r.ticks == s.ticks
            && (forall t :: t in s.ready ==> t in r.ready || t == r.current)
  {
    if s.ready != [] {
      assert s.ready == [s.ready[0]] + s.ready[1..];
    }
  }

  /** No step other than a due tick ends a sleep. */
  lemma {:induction false} SleepContinues(s: Sched, op: Op, t: Tid)
    requires Inv(s) && Enabled(s, op) && t in s.sleepers
    ensures var r := Step(s, op);
            && r.ticks == s.ticks + (if op == Timer then 1 else 0)
            && (r.ticks < s.wake[t] || op != Timer ==> t in r.sleepers && t in r.wake && r.wake[t] == s.wake[t])
  {
    assert Is(s, t, Sleeping) && t != s.current;
    match op
    case Timer =>
      TimerWakesDue(s, t);
      TickQuantum(s);
      ScheduleMoves(OnTimerTick(s).(needResched := false));
    case WakeAllOf(q) => AllReadyShape(s.(waiting := s.waiting[q := []]), s.waiting[q]);
    case Sleep(n) => assert t in [s.current] + s.sleepers;
    case _ =>
  }

  /** A thread that went to sleep at tick k for n ticks is asleep in every later state
   *  whose tick is before its deadline, k + n. */
  lemma {:induction false} NeverWokenEarly(s: Sched, ops: seq<Op>, t: Tid)
    requires Inv(s) && Allowed(s, ops) && t in s.sleepers && Run(s, ops).ticks < s.wake[t]
    ensures t in Run(s, ops).sleepers
    decreases |ops|
  {
    if ops != [] {
      StepInv(s, ops[0]);
      SleepContinues(s, ops[0], t);
      TicksGrow(Step(s, ops[0]), ops[1..]);
      NeverWokenEarly(Step(s, ops[0]), ops[1..], t);
    }
  }

  lemma {:induction false} StepTicks(s: Sched, op: Op)
    requires Inv(s) && Enabled(s, op)
    ensures Step(s, op).ticks == s.ticks + if op == Timer then 1 else 0
  {
    match op
    case Timer => TickQuantum(s);
    case WakeAllOf(q) => AllReadyShape(s.(waiting := s.waiting[q := []]), s.waiting[q]);
    case _ =>
  }

  lemma {:induction false} TicksGrow(s: Sched, ops: seq<Op>)
    requires Inv(s) && Allowed(s, ops)
    ensures Run(s, ops).ticks >= s.ticks
    decreases |ops|
  {
    if ops != [] {
      StepInv(s, ops[0]);
      StepTicks(s, ops[0]);
      TicksGrow(Step(s, ops[0]), ops[1..]);
    }
  }

  /** `thread_sleep_ticks(n)` at tick k: the wake tick is k + n exactly when that sum
   *  fits the 64-bit counter; otherwise it lies in the past and the next tick wakes
   *  the thread. */
  lemma {:induction false} SleepDeadline(s: Sched, n: nat)
    requires Inv(s) && s.current != s.idle && 0 < n < WORD && s.ticks < WORD
    ensures var t, r := s.current, Step(s, Sleep(n));
            && t in r.sleepers && t in r.wake && r.ticks == s.ticks
            && (r.wake[t] == s.ticks + n <==> s.ticks + n < WORD)
            && (r.wake[t] > s.ticks <==> s.ticks + n < WORD)
  {
    var t := s.current;
    ScheduleMoves(s.(sleepers := [t] + s.sleepers, state := s.state[t := Sleeping],
                     wake := s.wake[t := (s.ticks + n) % WORD]));
    assert t in [t] + s.sleepers;
  }

  // ---- Where every step puts every thread -------------------------------------------

  /** The threads that want the CPU, the running one first; idle is not one of them. */
  function Line(s: Sched): (l: seq<Tid>) {
    if s.current == s.idle then s.ready else [s.current] + s.ready
  }

  /** The first goes to the back. */
  function Rotate(l: seq<Tid>): (r: seq<Tid>) {
    if l == [] then [] else l[1..] + [l[0]]
  }

  /** The first in line has the CPU, idle if there is none. */
  predicate HeadRuns(r: Sched) {
    r.current == if Line(r) == [] then r.idle else Line(r)[0]
  }

  /** The line after the running thread has had its turn; idle has no place in it. */
  function TurnOver(s: Sched): (l: seq<Tid>) {
    if s.current == s.idle then Line(s) else Rotate(Line(s))
  }

  /** No sleeper and no waiter moves. */
  predicate SleepersStay(s: Sched, r: Sched) {
    r.sleepers == s.sleepers && r.waiting == s.waiting
  }

  /** What an operation does to the line, the sleep list and the wait queues. */
  predicate Moves(s: Sched, op: Op, r: Sched) {
    match op
    case Create(t) => Line(r) == Line(s) + [t] && r.current == s.current && SleepersStay(s, r)
    case Yield => Line(r) == TurnOver(s) && HeadRuns(r) && SleepersStay(s, r)
    case Sleep(n) =>
      && HeadRuns(r) && r.waiting == s.waiting
      && (if n == 0 then Line(r) == TurnOver(s) && r.sleepers == s.sleepers
          else [s.current] + Line(r) == Line(s) && r.sleepers == [s.current] + s.sleepers)
    case WaitOn(q) =>
      && HeadRuns(r) && [s.current] + Line(r) == Line(s) && r.sleepers == s.sleepers
      && q in s.waiting && r.waiting == s.waiting[q := s.waiting[q] + [s.current]]
    case WakeOneOf(q) =>
      && r.current == s.current && r.sleepers == s.sleepers && q in s.waiting && q in r.waiting
      && (if s.waiting[q] == [] then Line(r) == Line(s) && r.waiting == s.waiting
          else Line(r) == Line(s) + [s.waiting[q][0]] && r.waiting == s.waiting[q := s.waiting[q][1..]])
    case WakeAllOf(q) =>
      && r.current == s.current && r.sleepers == s.sleepers && q in s.waiting
      && Line(r) == Line(s) + s.waiting[q] && r.waiting == s.waiting[q := []]
    case ExitThread => HeadRuns(r) && [s.current] + Line(r) == Line(s) && SleepersStay(s, r)
    case Timer =>
      var due := Expired(s.sleepers, s.wake, s.ticks + 1);
      && r.sleepers == Asleep(s.sleepers, s.wake, s.ticks + 1) && r.waiting == s.waiting
      && (if s.slice > 1 then Line(r) == Line(s) + due && r.current == s.current
          else HeadRuns(r) && Line(r) == if s.current == s.idle then Line(s) + due else Rotate(Line(s) + due))
    case OtherIrq => Line(r) == Line(s) && r.current == s.current && SleepersStay(s, r)
  }

  /** Only its own exit makes a thread dead, and only a creation adds one. */
  ghost predicate OnlyExitKills(s: Sched, op: Op, r: Sched) {
    && (forall t :: Is(r, t, Dead) <==> Is(s, t, Dead) || (op == ExitThread && t == s.current))
    && r.state.Keys == s.state.Keys + (if op.Create? then {op.t} else {})
    && r.idle == s.idle
  }

  /** A switch away from a thread that still runs, and from one that no longer does. */
  lemma {:induction false} ScheduleLine(s: Sched)
    requires Placed(s) && s.state[s.current] != Ready && (s.current == s.idle ==> s.state[s.idle] == Running)
    ensures var r := Schedule(s);
      && Line(r) == (if s.state[s.current] == Running then TurnOver(s) else s.ready)
      && HeadRuns(r) && SleepersStay(s, r) && r.idle == s.idle && r.state.Keys == s.state.Keys
      && forall t :: Is(r, t, Dead) <==> Is(s, t, Dead)
  {
    hide SleepList;
    hide WaitLists;
    hide NoDup;
    if s.ready != [] {
      assert s.ready[0] in s.ready && Is(s, s.ready[0], Ready);
    }
    ScheduleStates(s);
    ScheduleOrder(s);
  }

  lemma {:induction false} ScheduleStates(s: Sched)
    requires s.current in s.state && s.idle in s.state && !Is(s, s.idle, Dead)
    requires s.ready != [] ==> Is(s, s.ready[0], Ready)
    ensures var r := Schedule(s);
      && r.idle == s.idle && r.state.Keys == s.state.Keys && SleepersStay(s, r)
      && forall t :: Is(r, t, Dead) <==> Is(s, t, Dead)
  {
  }

  lemma {:induction false} ScheduleOrder(s: Sched)
    requires s.current in s.state && (s.current == s.idle ==> s.state[s.idle] == Running)
    requires s.ready != [] ==> s.ready[0] != s.current && s.ready[0] != s.idle
    ensures var r := Schedule(s);
      Line(r) == (if s.state[s.current] == Running then TurnOver(s) else s.ready) && HeadRuns(r)
  {
    assert ([s.current] + s.ready)[1..] == s.ready;
    if s.ready != [] {
      assert s.ready == [s.ready[0]] + s.ready[1..];
      assert [s.ready[0]] + (s.ready[1..] + [s.current]) == s.ready + [s.current];
    }
  }

  lemma {:induction false} TimerMoves(s: Sched)
    requires Inv(s)
    ensures Moves(s, Timer, Step(s, Timer)) && OnlyExitKills(s, Timer, Step(s, Timer))
  {
    hide ReadyList;
    hide SleepList;
    hide WaitLists;
    TickQuantum(s);
    TickPlaced(s);
    TickStates(s);
    var m := OnTimerTick(s);
    var due := Expired(s.sleepers, s.wake, s.ticks + 1);
    assert [s.current] + (s.ready + due) == [s.current] + s.ready + due;
    if m.needResched {
      ClockIrrelevant(m, 0, m.slice, false);
      ScheduleLine(m.(needResched := false));
    }
  }

  lemma {:induction false} TickStates(s: Sched)
    requires Inv(s)
    ensures var m := OnTimerTick(s);
      && m.waiting == s.waiting && m.idle == s.idle && m.state.Keys == s.state.Keys
      && forall t :: Is(m, t, Dead) <==> Is(s, t, Dead)
  {
    var t := s.(ticks := s.ticks + 1);
    var base := t.(sleepers := Asleep(t.sleepers, t.wake, t.ticks));
    AllReadyShape(base, Expired(t.sleepers, t.wake, t.ticks));
    ListSplit(t.sleepers, t.wake, t.ticks);
    forall x | x in Expired(t.sleepers, t.wake, t.ticks) ensures Is(s, x, Sleeping) {}
  }

  lemma {:induction false} WakeMoves(s: Sched, op: Op)
    requires Inv(s) && Enabled(s, op) && (op.WakeOneOf? || op.WakeAllOf?)
    ensures Moves(s, op, Step(s, op)) && OnlyExitKills(s, op, Step(s, op))
  {
    var l := s.waiting[op.q];
    forall t | t in l ensures Is(s, t, Blocked) {}
    if op.WakeAllOf? {
      AllReadyShape(s.(waiting := s.waiting[op.q := []]), l);
      assert [s.current] + (s.ready + l) == [s.current] + s.ready + l;
    } else if l != [] {
      assert l[0] in l;
      assert [s.current] + (s.ready + [l[0]]) == [s.current] + s.ready + [l[0]];
    }
  }

  /** The running thread takes itself off the CPU. */
  lemma {:induction false} StopMoves(s: Sched, op: Op)
    requires Inv(s) && Enabled(s, op) && Stops(op)
    ensures Moves(s, op, Step(s, op)) && OnlyExitKills(s, op, Step(s, op))
  {
    hide ReadyList;
    hide SleepList;
    hide WaitLists;
    hide Schedule;
    var t := s.current;
    match op
    case Sleep(n) =>
      var wake := (s.ticks + n) % WORD;
      var m := s.(sleepers := [t] + s.sleepers, state := s.state[t := Sleeping], wake := s.wake[t := wake]);
      SleepPlaced(s, m, wake);
      ScheduleLine(m);
    case WaitOn(q) =>
      var m := s.(waiting := s.waiting[q := s.waiting[q] + [t]], state := s.state[t := Blocked],
                  parked := s.parked[t := q]);
      WaitPlaced(s, m, q);
      ScheduleLine(m);
    case ExitThread =>
      var m := s.(state := s.state[t := Dead]);
      ExitPlaced(s, m);
      ScheduleLine(m);
  }

  lemma {:induction false} CreateMoves(s: Sched, t: Tid)
    requires Inv(s) && t !in s.state
    ensures Moves(s, Create(t), MakeReady(s, t)) && OnlyExitKills(s, Create(t), MakeReady(s, t))
  {
    assert [s.current] + (s.ready + [t]) == [s.current] + s.ready + [t];
  }

  /** The exact place of every thread after every operation: who runs, who is ready and in which
   *  order, who sleeps, who waits where, who is dead. */
  lemma {:induction false} StepMoves(s: Sched, op: Op)
    requires Inv(s) && Enabled(s, op)
    ensures Moves(s, op, Step(s, op)) && OnlyExitKills(s, op, Step(s, op))
  {
    hide Placed;
    hide Schedule;
    match op
    case Create(n) => CreateMoves(s, n);
    case Yield => ScheduleLine(s);
    case Sleep(n) =>
      if n == 0 {
        ScheduleLine(s);
      } else {
        StopMoves(s, op);
      }
    case WaitOn(q) => StopMoves(s, op);
    case WakeOneOf(q) => WakeMoves(s, op);
    case WakeAllOf(q) => WakeMoves(s, op);
    case ExitThread => StopMoves(s, op);
    case Timer => TimerMoves(s);
    case OtherIrq =>
  }

  /** Running or ready. */
  ghost predicate Runnable(s: Sched, t: Tid) {
    t == s.current || t in s.ready
  }

  /** Does the operation stop the thread that calls it? */
  predicate Stops(op: Op) {
    (op.Sleep? && op.n > 0) || op.WaitOn? || op.ExitThread?
  }

  lemma {:induction false} RunnableIffInLine(s: Sched, t: Tid)
    requires t != s.idle
    ensures Runnable(s, t) <==> t in Line(s)
  {
  }

  /** A thread that wants the CPU goes on wanting it until it stops itself; and when another takes
   *  over from a thread that still does, that one is last in the ready queue. */
  lemma {:induction false} NobodyDropped(s: Sched, op: Op, t: Tid)
    requires Inv(s) && Enabled(s, op) && t != s.idle && Runnable(s, t)
    ensures var r := Step(s, op);
      && (Runnable(r, t) <==> !(t == s.current && Stops(op)))
      && (t == s.current && t != r.current && !Stops(op) ==> r.ready != [] && r.ready[|r.ready| - 1] == t)
  {
    hide Step;
    hide Moves;
    hide NoDup;
    hide ReadyList;
    hide SleepList;
    hide WaitLists;
    var r := Step(s, op);
    StepMoves(s, op);
    StepInv(s, op);
    RunnableIffInLine(s, t);
    RunnableIffInLine(r, t);
    LineNoDup(s);
    LineNoDup(r);
    if t != s.current {
      OthersStay(s, op, r, t);
    } else if Stops(op) {
      LeavesLine(s, op, r);
    } else {
      KeptInLine(s, op, r);
    }
  }

  lemma {:induction false} LeavesLine(s: Sched, op: Op, r: Sched)
    requires Moves(s, op, r) && Stops(op) && NoDup(Line(s))
    ensures s.current !in Line(r)
  {
    assert Line(s)[0] == s.current && Line(s)[1..] == Line(r);
    TailFacts(Line(s));
  }

  lemma {:induction false} OthersStay(s: Sched, op: Op, r: Sched, t: Tid)
    requires Moves(s, op, r) && t in Line(s) && t != s.current && (s.current != s.idle ==> Line(s)[0] == s.current)
    ensures t in Line(r)
  {
    var l := Line(s);
    assert l == [l[0]] + l[1..];
    RotateMembers(l, t);
    if op == Timer {
      RotateMembers(l + Expired(s.sleepers, s.wake, s.ticks + 1), t);
    }
  }

  lemma {:induction false} RotateMembers(l: seq<Tid>, t: Tid)
    ensures t in Rotate(l) <==> t in l
  {
    if l != [] {
      assert l == [l[0]] + l[1..];
    }
  }

  lemma {:induction false} LineNoDup(s: Sched)
    requires Inv(s)
    ensures NoDup(Line(s))
  {
    assert Is(s, s.current, Running);
    NoDupConcat([s.current], s.ready);
  }

  /** The running thread stays first, or goes to the very end. */
  lemma {:induction false} KeptInLine(s: Sched, op: Op, r: Sched)
    requires Moves(s, op, r) && r.idle == s.idle && s.current != s.idle && !Stops(op)
    requires NoDup(Line(s)) && NoDup(Line(r))
    ensures s.current in Line(r)
    ensures s.current != r.current ==> r.ready != [] && r.ready[|r.ready| - 1] == s.current
  {
    var l := Line(r);
    assert Line(s)[0] == s.current;
    if s.current != r.current {
      assert l != [] && l[|l| - 1] == s.current;
    } else {
      assert l[0] == s.current;
    }
  }

  /** Over any run a thread is dead only if it was, or some step was its own exit. */
  ghost predicate Exits(s: Sched, ops: seq<Op>, t: Tid)
    requires Inv(s) && Allowed(s, ops)
    decreases |ops|
  {
    ops != [] &&
    ((ops[0] == ExitThread && s.current == t) || (StepInv(s, ops[0]); Exits(Step(s, ops[0]), ops[1..], t)))
  }

  lemma {:induction false} DeadIffExited(s: Sched, ops: seq<Op>, t: Tid)
    requires Inv(s) && Allowed(s, ops) && t in s.state
    ensures Is(Run(s, ops), t, Dead) <==> Is(s, t, Dead) || Exits(s, ops, t)
    decreases |ops|
  {
    hide Step;
    if ops != [] {
      StepInv(s, ops[0]);
      StepMoves(s, ops[0]);
      DeadIffExited(Step(s, ops[0]), ops[1..], t);
    }
  }

  /** The sleepers a tick wakes keep the order of the sleep list, and so do the others. */
  lemma {:induction false} WakeOrder(l: seq<Tid>, wake: map<Tid, nat>, now: nat)
    requires NoDup(l)
    ensures InOrder(Expired(l, wake, now), l) && InOrder(Asleep(l, wake, now), l)
    decreases |l|
  {
    hide NoDup;
    hide InOrder;
    if l == [] {
      NothingOrdered();
    } else {
      TailFacts(l);
      var t := l[1..];
      WakeOrder(t, wake, now);
      ListSplit(t, wake, now);
      OrderGrows(Expired(t, wake, now), l);
      OrderGrows(Asleep(t, wake, now), l);
    }
  }

  /** The threads of `m` are in `l`, in the same order. */
  ghost predicate InOrder(m: seq<Tid>, l: seq<Tid>) {
    && (forall i :: 0 <= i < |m| ==> m[i] in l)
    && forall i, j :: 0 <= i < j < |m| ==> Position(l, m[i]) < Position(l, m[j])
  }

  lemma {:induction false} NothingOrdered()
    ensures InOrder([], [])
  {
  }

  lemma {:induction false} OrderGrows(m: seq<Tid>, l: seq<Tid>)
    requires l != [] && InOrder(m, l[1..]) && l[0] !in l[1..]
    ensures InOrder(m, l) && InOrder([l[0]] + m, l)
  {
    assert l == [l[0]] + l[1..];
    forall i | 0 <= i < |m| ensures m[i] in l && Position(l, m[i]) == 1 + Position(l[1..], m[i]) {}
  }

  // ---- Bounded waiting ------------------------------------------------------------

  ghost function Position(l: seq<Tid>, t: Tid): (k: nat)
    requires t in l
    ensures k < |l| && l[k] == t
  {
    if l[0] == t then 0 else 1 + Position(l[1..], t)
  }

  lemma {:induction false} PositionIs(l: seq<Tid>, k: nat)
    requires NoDup(l) && k < |l|
    ensures Position(l, l[k]) == k
  {
    var i := Position(l, l[k]);
    assert i < k || k < i || i == k;
  }

  /** Ticks a ready thread may still have to wait. */
  ghost function Wait5(s: Sched, t: Tid): (n: nat)
    requires t in s.ready
  {
    QUANTUM * Position(s.ready, t) + s.slice
  }

  /** A switch moves every queued thread one place forward or onto the CPU. */
  lemma {:induction false} ScheduleAdvances(s: Sched, t: Tid)
    requires Placed(s) && s.state[s.current] != Ready && t in s.ready
    ensures var r := Schedule(s);
            if Position(s.ready, t) == 0 then r.current == t
            else t in r.ready && Wait5(r, t) == QUANTUM * Position(s.ready, t)
  {
    SchedulePlaced(s);
    var r := Schedule(s);
    var k := Position(s.ready, t);
    if k > 0 {
      assert r.ready[k - 1] == s.ready[1..][k - 1] == t;
      PositionIs(r.ready, k - 1);
    }
  }

  lemma {:induction false} AppendKeepsPosition(l: seq<Tid>, m: seq<Tid>, t: Tid)
    requires t in l
    ensures t in l + m && Position(l + m, t) == Position(l, t)
  {
    assert (l + m)[0] == l[0];
    if l[0] != t {
      assert l == [l[0]] + l[1..];
      AppendKeepsPosition(l[1..], m, t);
      assert (l + m)[1..] == l[1..] + m;
    }
  }

  lemma {:induction false} TimerProgress(s: Sched, t: Tid)
    requires Inv(s) && t in s.ready
    ensures var r := Step(s, Timer);
            t == r.current || (t in r.ready && Wait5(r, t) < Wait5(s, t))
  {
    TickQuantum(s);
    TickPlaced(s);
    var m := OnTimerTick(s);
    AppendKeepsPosition(s.ready, Expired(s.sleepers, s.wake, s.ticks + 1), t);
    if m.needResched {
      ClockIrrelevant(m, 0, m.slice, false);
      ScheduleAdvances(m.(needResched := false), t);
    }
  }

  /** Along every step a waiting thread gets the CPU or its bound does not grow, and a
   *  tick makes it smaller. */
  lemma {:induction false} StepProgress(s: Sched, op: Op, t: Tid)
    requires Inv(s) && Enabled(s, op) && t in s.ready
    ensures var r := Step(s, op);
            || t == r.current
            || (t in r.ready && Wait5(r, t) <= Wait5(s, t) && (op == Timer ==> Wait5(r, t) < Wait5(s, t)))
  {
    hide SleepList;
    hide WaitLists;
    hide Position;
    var c := s.current;
    match op
    case Create(n) => AppendKeepsPosition(s.ready, [n], t);
    case Yield => ScheduleAdvances(s, t);
    case Sleep(n) =>
      if n == 0 {
        ScheduleAdvances(s, t);
      } else {
        var wake := (s.ticks + n) % WORD;
        var m := s.(sleepers := [c] + s.sleepers, state := s.state[c := Sleeping], wake := s.wake[c := wake]);
        SleepPlaced(s, m, wake);
        ScheduleAdvances(m, t);
      }
    case WaitOn(q) =>
      var m := s.(waiting := s.waiting[q := s.waiting[q] + [c]], state := s.state[c := Blocked],
                  parked := s.parked[c := q]);
      WaitPlaced(s, m, q);
      ScheduleAdvances(m, t);
    case WakeOneOf(q) =>
      if s.waiting[q] != [] {
        AppendKeepsPosition(s.ready, [s.waiting[q][0]], t);
      }
    case WakeAllOf(q) =>
      AllReadyShape(s.(waiting := s.waiting[q := []]), s.waiting[q]);
      AppendKeepsPosition(s.ready, s.waiting[q], t);
    case ExitThread =>
      var m := s.(state := s.state[c := Dead]);
      ExitPlaced(s, m);
      ScheduleAdvances(m, t);
    case Timer => TimerProgress(s, t);
    case OtherIrq =>
  }

  ghost function Timers(ops: seq<Op>): nat {
    if ops == [] then 0 else (if ops[0] == Timer then 1 else 0) + Timers(ops[1..])
  }

  /** Along the run, `t` becomes current before more than `budget` ticks pass. */
  ghost predicate RunsWithin(s: Sched, ops: seq<Op>, t: Tid, budget: nat)
    requires Inv(s) && Allowed(s, ops)
    decreases |ops|
  {
    || s.current == t
    || (ops != [] && (ops[0] == Timer ==> budget > 0)
        && (StepInv(s, ops[0]);
            RunsWithin(Step(s, ops[0]), ops[1..], t, if ops[0] == Timer then budget - 1 else budget)))
  }

  lemma {:induction false} RunsWithinBound(s: Sched, ops: seq<Op>, t: Tid, budget: nat)
    requires Inv(s) && Allowed(s, ops)
    requires t in s.ready && Wait5(s, t) <= budget && Wait5(s, t) <= Timers(ops)
    ensures RunsWithin(s, ops, t, budget)
    decreases |ops|
  {
    hide Step;
    hide ReadyList;
    assert Timers(ops) > 0;
    StepInv(s, ops[0]);
    StepProgress(s, ops[0], t);
    var r := Step(s, ops[0]);
    if r.current != t {
      RunsWithinBound(r, ops[1..], t, if ops[0] == Timer then budget - 1 else budget);
    }
  }

  /** Bounded waiting: whatever the threads do, one at position k of the ready queue runs
   *  within 5 * (k + 1) timer ticks. */
  lemma {:induction false} BoundedWaiting(s: Sched, ops: seq<Op>, k: nat)
    requires Inv(s) && Allowed(s, ops) && k < |s.ready| && Timers(ops) >= QUANTUM * (k + 1)
    ensures RunsWithin(s, ops, s.ready[k], QUANTUM * (k + 1))
  {
    PositionIs(s.ready, k);
    RunsWithinBound(s, ops, s.ready[k], QUANTUM * (k + 1));
  }
}

/** The scheduler as the kernel runs it: two singly linked lists threaded through one
 *  `next` field per thread, with each entry point tied to the step it implements. */
module Scheduler {
  import opened Lists
  import opened SchedulerSpec

  datatype Link = Null | To(t: Tid)

  /** Following `next` from `head` visits exactly the threads of `l`, in order. */
  ghost predicate Chain(next: map<Tid, Link>, head: Link, l: seq<Tid>)
    decreases |l|
  {
    if l == [] then head == Null
    else head == To(l[0]) && l[0] in next && Chain(next, next[l[0]], l[1..])
  }

  lemma {:induction false} ChainFrame(next: map<Tid, Link>, t: Tid, v: Link, head: Link, l: seq<Tid>)
    requires Chain(next, head, l) && t !in l
    ensures Chain(next[t := v], head, l)
    decreases |l|
  {
    if l != [] {
      ChainFrame(next, t, v, next[l[0]], l[1..]);
    }
  }

  lemma {:induction false} ChainAppend(next: map<Tid, Link>, head: Link, l: seq<Tid>, t: Tid)
    requires Chain(next, head, l) && NoDup(l) && t !in l && l != [] && t in next && next[t] == Null
    ensures Chain(next[l[|l| - 1] := To(t)], head, l + [t])
    decreases |l|
  {
    var last := l[|l| - 1];
    var next' := next[last := To(t)];
    assert (l + [t])[1..] == l[1..] + [t];
    if |l| == 1 {
      assert Chain(next', next'[t], []);
      assert (l + [t])[1..] == [t];
    } else {
      TailFacts(l);
      assert l[1..][|l| - 2] == last;
      ChainAppend(next, next[l[0]], l[1..], t);
    }
  }

  /** The link out of the k-th node leads to the rest of the list. */
  lemma {:induction false} ChainAt(next: map<Tid, Link>, head: Link, l: seq<Tid>, k: nat)
    requires Chain(next, head, l) && k < |l|
    ensures l[k] in next && Chain(next, next[l[k]], l[k + 1..])
    decreases k
  {
    if k > 0 {
      ChainAt(next, next[l[0]], l[1..], k - 1);
      assert l[1..][k..] == l[k + 1..];
    }
  }

  /** Bypassing the node after position k unlinks it. */
  lemma {:induction false} ChainBypass(next: map<Tid, Link>, head: Link, l: seq<Tid>, k: nat)
    requires Chain(next, head, l) && NoDup(l) && k + 1 < |l| && l[k + 1] in next
    ensures Chain(next[l[k] := next[l[k + 1]]], head, l[..k + 1] + l[k + 2..])
    decreases k
  {
    var next' := next[l[k] := next[l[k + 1]]];
    var m := l[..k + 1] + l[k + 2..];
    TailFacts(l);
    if k == 0 {
      ChainAt(next, head, l, 1);
      assert m[1..] == l[2..];
      assert l[0] !in l[2..];
      ChainFrame(next, l[0], next[l[1]], next[l[1]], l[2..]);
    } else {
      ChainBypass(next, next[l[0]], l[1..], k - 1);
      assert l[1..][..k] + l[1..][k + 1..] == m[1..];
    }
  }

  /** What a sweep that stands at position `k` of the sleep list will still do. */
  ghost function SweepFrom(s: Sched, k: nat): (r: Sched)
    requires k <= |s.sleepers|
  {
    AllReady(s.(sleepers := s.sleepers[..k] + Asleep(s.sleepers[k..], s.wake, s.ticks)),
             Expired(s.sleepers[k..], s.wake, s.ticks))
  }

  lemma {:induction false} SweepStart(s: Sched)
    ensures SweepFrom(s, 0) == WakeExpired(s)
  {
    assert s.sleepers[0..] == s.sleepers;
    var l := Asleep(s.sleepers, s.wake, s.ticks);
    assert s.sleepers[..0] + l == l;
  }

  lemma {:induction false} SweepEnd(s: Sched)
    ensures SweepFrom(s, |s.sleepers|) == s
  {
    assert s.sleepers[..|s.sleepers|] + [] == s.sleepers;
  }

  lemma {:induction false} SweepKeep(s: Sched, k: nat)
    requires k < |s.sleepers| && s.sleepers[k] in s.wake && s.wake[s.sleepers[k]] > s.ticks
    ensures SweepFrom(s, k + 1) == SweepFrom(s, k)
  {
    var l := s.sleepers;
    assert l[k..][0] == l[k] && l[k..][1..] == l[k + 1..];
    var rest := Asleep(l[k + 1..], s.wake, s.ticks);
    assert l[..k] + ([l[k]] + rest) == l[..k + 1] + rest;
  }

  lemma {:induction false} SweepWake(s: Sched, k: nat)
    requires k < |s.sleepers| && s.sleepers[k] in s.wake && s.wake[s.sleepers[k]] <= s.ticks
    ensures var m := MakeReady(s.(sleepers := s.sleepers[..k] + s.sleepers[k + 1..]), s.sleepers[k]);
            SweepFrom(m, k) == SweepFrom(s, k)
  {
    var l := s.sleepers;
    assert l[k..][0] == l[k] && l[k..][1..] == l[k + 1..];
    var m := MakeReady(s.(sleepers := l[..k] + l[k + 1..]), l[k]);
    assert m.sleepers[..k] == l[..k] && m.sleepers[k..] == l[k + 1..];
    var due := Expired(l[k + 1..], s.wake, s.ticks);
    assert ([l[k]] + due)[1..] == due;
  }

  class SchedulerObject {
    var idle: Tid
    var current: Tid
    var readyHead: Link
    var readyTail: Link
    var sleepHead: Link
    var next: map<Tid, Link>
    var state: map<Tid, ThreadState>
    var wake: map<Tid, nat>
    var waiting: map<Queue, seq<Tid>>
    var slice: nat
    var ticks: nat
    var needResched: bool
    ghost var parked: map<Tid, Queue>
    ghost var ready: seq<Tid>
    ghost var sleepers: seq<Tid>

    ghost function Abs(): Sched
      reads this
    {
      Sched(idle, current, ready, sleepers, waiting, state, wake, parked, slice, ticks, needResched)
    }

    /** Both lists are well linked through the shared field and share no thread. */
    ghost predicate Linked()
      reads `ready, `sleepers, `next, `readyHead, `readyTail, `sleepHead
    {
      && NoDup(ready) && NoDup(sleepers) && (forall t :: t in ready ==> t !in sleepers)
      && Chain(next, readyHead, ready) && Chain(next, sleepHead, sleepers)
      && readyTail == (if ready == [] then Null else To(ready[|ready| - 1]))
    }

    ghost predicate Valid()
      reads this
    {
      Linked() && Inv(Abs())
    }

    constructor (idle: Tid, boot: Tid, queues: set<Queue>)
      requires idle != boot
      ensures Linked() && current == boot && this.idle == idle
      ensures Abs() == Sched(idle, boot, [], [], map q | q in queues :: [], map[idle := Ready, boot := Dead],
                             map[], map[], QUANTUM, 0, false)
    {
      this.idle, current := idle, boot;
      readyHead, readyTail, sleepHead := Null, Null, Null;
      next := map[];
      state := map[idle := Ready, boot := Dead];
      wake, waiting := map[], map q | q in queues :: [];
      slice, ticks, needResched := QUANTUM, 0, false;
      parked, ready, sleepers := map[], [], [];
    }

    /** Append at the tail through the tail pointer. */
    method Enqueue(t: Tid)
      requires Linked() && t !in ready && t !in sleepers
      modifies `next, `readyHead, `readyTail, `ready
      ensures Linked() && ready == old(ready) + [t]
    {
      ghost var n0 := next;
      ChainFrame(next, t, Null, readyHead, ready);
      ChainFrame(next, t, Null, sleepHead, sleepers);
      next := next[t := Null];
      NoDupConcat(ready, [t]);
      if readyTail.To? {
        ghost var last := ready[|ready| - 1];
        assert last in ready;
        ChainAppend(next, readyHead, ready, t);
        ChainFrame(next, last, To(t), sleepHead, sleepers);
        next := next[readyTail.t := To(t)];
      } else {
        readyHead := To(t);
        assert Chain(next, next[t], []);
      }
      readyTail := To(t);
      ready := ready + [t];
    }

    method MakeThreadReady(t: Tid)
      requires Linked() && t !in ready && t !in sleepers
      modifies `next, `readyHead, `readyTail, `ready, `state
      ensures Linked() && Abs() == MakeReady(old(Abs()), t)
    {
      hide SchedulerObject.Linked;
      state := state[t := Ready];
      Enqueue(t);
    }

    method Dequeue() returns (t: Link)
      requires Linked()
      modifies `next, `readyHead, `readyTail, `ready
      ensures Linked()
      ensures if old(ready) == [] then t == Null && ready == []
              else t == To(old(ready)[0]) && ready == old(ready)[1..]
      ensures forall x :: x in ready ==> x in old(ready)
    {
      t := readyHead;
      if t.To? {
        TailFacts(ready);
        readyHead := next[t.t];
        ready := ready[1..];
        if readyHead == Null {
          readyTail := Null;
        }
        assert t.t !in sleepers;
        ChainFrame(next, t.t, Null, readyHead, ready);
        ChainFrame(next, t.t, Null, sleepHead, sleepers);
        next := next[t.t := Null];
      }
    }

    /** `schedule`: the caller has put the current thread in the state it leaves with. */
    method Switch()
      requires Linked() && current in state && current !in ready
      requires state[current] == Running ==> current !in sleepers
      modifies this
      ensures Linked() && Abs() == Schedule(old(Abs()))
    {
      hide Chain;
      hide NoDup;
      hide SchedulerObject.Linked;
      var prev := current;
      var t := Dequeue();
      if t == Null && state[prev] == Running {
        slice := QUANTUM;
        return;
      }
      var incoming := if t == Null then idle else t.t;
      if state[prev] == Running && prev != idle {
        MakeThreadReady(prev);
      }
      if incoming == prev {
        state := state[prev := Running];
        slice := QUANTUM;
        return;
      }
      current := incoming;
      state := state[incoming := Running];
      slice := QUANTUM;
    }

    /** Unlink the sleeper at position `k`; `prev` is the node whose link leads to it,
     *  or `Null` when that link is the list head. */
    method UnlinkSleeper(prev: Link, ghost k: nat) returns (t: Tid)
      requires Linked() && k < |sleepers|
      requires prev == if k == 0 then Null else To(sleepers[k - 1])
      modifies `next, `sleepHead, `sleepers
      ensures Linked() && t == old(sleepers)[k] && t !in ready && t !in sleepers
      ensures sleepers == old(sleepers)[..k] + old(sleepers)[k + 1..]
    {
      ghost var l := sleepers;
      ChainAt(next, sleepHead, l, k);
      if k > 0 {
        ChainAt(next, sleepHead, l, k - 1);
        assert l[k..][0] == l[k];
      }
      t := if prev == Null then sleepHead.t else next[prev.t].t;
      assert t == l[k] && t in l;
      WithoutFacts(l, t);
      WithoutAt(l, k);
      if prev == Null {
        sleepHead := next[t];
        assert l[..0] + l[1..] == l[1..];
      } else {
        assert l[k - 1] in l;
        ChainBypass(next, sleepHead, l, k - 1);
        ChainFrame(next, prev.t, next[t], readyHead, ready);
        next := next[prev.t := next[t]];
      }
      sleepers := l[..k] + l[k + 1..];
      ChainFrame(next, t, Null, readyHead, ready);
      ChainFrame(next, t, Null, sleepHead, sleepers);
      next := next[t := Null];
    }

    /** `sleep_wakeup_expired`: the pointer-to-pointer sweep. */
    method WakeExpiredSleepers()
      requires Linked() && forall t :: t in sleepers ==> t in wake
      modifies this
      ensures Linked() && Abs() == WakeExpired(old(Abs()))
    {
      hide Chain;
      hide NoDup;
      hide SweepFrom;
      hide SchedulerObject.Linked;
      var prev := Null;
      ghost var k := 0;
      SweepStart(Abs());
      while NextSleeper(prev, k) != Null
        invariant Linked() && 0 <= k <= |sleepers| && forall t :: t in sleepers ==> t in wake
        invariant prev == if k == 0 then Null else To(sleepers[k - 1])
        invariant SweepFrom(Abs(), k) == WakeExpired(old(Abs()))
        decreases |sleepers| - k
      {
        var t := NextSleeper(prev, k).t;
        assert t in sleepers;
        if wake[t] <= ticks {
          SweepWake(Abs(), k);
          t := UnlinkSleeper(prev, k);
          MakeThreadReady(t);
        } else {
          SweepKeep(Abs(), k);
          prev := To(t);
          k := k + 1;
        }
      }
      SweepEnd(Abs());
    }

    /** What the link being examined holds. */
    function NextSleeper(prev: Link, ghost k: nat): (t: Link)
      requires Linked() && k <= |sleepers|
      requires prev == if k == 0 then Null else To(sleepers[k - 1])
      reads this
      ensures t == if k < |sleepers| then To(sleepers[k]) else Null
    {
      assert k > 0 ==> ChainLinks(k - 1);
      if prev == Null then sleepHead else next[prev.t]
    }

    ghost predicate ChainLinks(k: nat)
      requires Linked() && k < |sleepers|
      reads this
      ensures ChainLinks(k)
    {
      ChainAt(next, sleepHead, sleepers, k);
      sleepers[k] in next && Chain(next, next[sleepers[k]], sleepers[k + 1..])
    }

    // The facts about linkage that the entry points below rely on.
    lemma CurrentUnlinked()
      requires Inv(Abs())
      ensures current in state && current !in ready && current !in sleepers
      ensures forall q :: q in waiting ==> current !in waiting[q]
      ensures forall t :: t in sleepers ==> t in wake
      ensures forall q, t :: q in waiting && t in waiting[q] ==> t !in ready && t !in sleepers
    {
      var s := Abs();
      assert Is(s, current, Running) && !Is(s, current, Blocked);
      forall q, t | q in waiting && t in waiting[q] ensures t !in ready && t !in sleepers {
        assert Is(s, t, Blocked);
      }
    }

    method CreateThread(t: Tid)
      requires Valid() && t !in state
      modifies this
      ensures Valid() && Abs() == Step(old(Abs()), Create(t))
    {
      hide SchedulerObject.Linked;
      StepInv(Abs(), Create(t));
      assert !Is(Abs(), t, Ready) && !Is(Abs(), t, Sleeping);
      MakeThreadReady(t);
    }

    method YieldCpu()
      requires Valid()
      modifies this
      ensures Valid() && Abs() == Step(old(Abs()), Yield)
    {
      hide SchedulerObject.Linked;
      hide Schedule;
      StepInv(Abs(), Yield);
      CurrentUnlinked();
      Switch();
    }

    /** Push on the front of the sleep list. */
    method LinkSleeper(t: Tid)
      requires Linked() && t !in ready && t !in sleepers
      modifies `next, `sleepHead, `sleepers
      ensures Linked() && sleepers == [t] + old(sleepers)
    {
      ChainFrame(next, t, sleepHead, readyHead, ready);
      ChainFrame(next, t, sleepHead, sleepHead, sleepers);
      NoDupConcat([t], sleepers);
      next := next[t := sleepHead];
      sleepHead := To(t);
      sleepers := [t] + sleepers;
      assert sleepers[1..] == old(sleepers);
    }

    method SleepFor(n: nat)
      requires Valid() && current != idle
      modifies this
      ensures Valid() && Abs() == Step(old(Abs()), Sleep(n))
    {
      hide SchedulerObject.Linked;
      hide Schedule;
      hide Inv;
      StepInv(Abs(), Sleep(n));
      CurrentUnlinked();
      if n == 0 {
        Switch();
        return;
      }
      var t := current;
      wake := wake[t := (ticks + n) % WORD];
      state := state[t := Sleeping];
      LinkSleeper(t);
      Switch();
    }

    method WaitOnQueue(q: Queue)
      requires Valid() && current != idle && q in waiting
      modifies this
      ensures Valid() && Abs() == Step(old(Abs()), WaitOn(q))
    {
      hide SchedulerObject.Linked;
      hide Schedule;
      hide Inv;
      StepInv(Abs(), WaitOn(q));
      CurrentUnlinked();
      waiting := waiting[q := waiting[q] + [current]];
      state := state[current := Blocked];
      parked := parked[current := q];
      Switch();
    }

    method WakeOneWaiter(q: Queue) returns (n: nat)
      requires Valid() && q in waiting
      modifies this
      ensures Valid() && Abs() == Step(old(Abs()), WakeOneOf(q))
      ensures n == if old(waiting)[q] == [] then 0 else 1
    {
      hide SchedulerObject.Linked;
      hide Inv;
      StepInv(Abs(), WakeOneOf(q));
      CurrentUnlinked();
      if waiting[q] == [] {
        return 0;
      }
      var t := waiting[q][0];
      assert t in waiting[q];
      waiting := waiting[q := waiting[q][1..]];
      MakeThreadReady(t);
      n := 1;
    }

    method WakeAllWaiters(q: Queue) returns (n: nat)
      requires Valid() && q in waiting
      modifies this
      ensures Valid() && Abs() == Step(old(Abs()), WakeAllOf(q))
      ensures n == |old(waiting)[q]|
    {
      hide SchedulerObject.Linked;
      hide Inv;
      hide WakeAll;
      StepInv(Abs(), WakeAllOf(q));
      CurrentUnlinked();
      assert NoDup(waiting[q]) by {
        WaitersDistinct(Abs(), q);
      }
      n := 0;
      while waiting[q] != []
        invariant Linked() && q in waiting && NoDup(waiting[q])
        invariant forall t :: t in waiting[q] ==> t !in ready && t !in sleepers
        invariant n + |waiting[q]| == |old(waiting)[q]|
        invariant WakeAll(Abs(), q) == WakeAll(old(Abs()), q)
        decreases |waiting[q]|
      {
        TailFacts(waiting[q]);
        WakeAllStep(Abs(), q);
        ghost var before := ready;
        var t := waiting[q][0];
        waiting := waiting[q := waiting[q][1..]];
        MakeThreadReady(t);
        assert forall x :: x in ready ==> x in before || x == t;
        n := n + 1;
      }
      WakeNone(Abs(), q);
    }

    method ExitCurrent()
      requires Valid() && current != idle
      modifies this
      ensures Valid() && Abs() == Step(old(Abs()), ExitThread)
    {
      hide SchedulerObject.Linked;
      hide Schedule;
      hide Inv;
      StepInv(Abs(), ExitThread);
      CurrentUnlinked();
      state := state[current := Dead];
      Switch();
    }

    method TimerTick()
      requires Linked() && forall t :: t in sleepers ==> t in wake
      modifies this
      ensures Linked() && Abs() == OnTimerTick(old(Abs()))
    {
      hide SchedulerObject.Linked;
      hide WakeExpired;
      ticks := ticks + 1;
      WakeExpiredSleepers();
      if slice > 0 {
        slice := slice - 1;
      }
      if slice == 0 {
        needResched := true;
      }
    }

    method LeaveIrq()
      requires Linked() && current in state && current !in ready && current !in sleepers
      modifies this
      ensures Linked() && Abs() == IrqExit(old(Abs()))
    {
      hide SchedulerObject.Linked;
      hide Schedule;
      if !needResched {
        return;
      }
      needResched := false;
      Switch();
    }

    method TimerInterrupt()
      requires Valid()
      modifies this
      ensures Valid() && Abs() == Step(old(Abs()), Timer)
    {
      hide SchedulerObject.Linked;
      hide OnTimerTick;
      hide IrqExit;
      StepInv(Abs(), Timer);
      CurrentUnlinked();
      TickPlaced(Abs());
      ghost var s := Abs();
      TimerTick();
      RunningUnlinked(Abs());
      LeaveIrq();
    }
  }

  /** Waking all is waking the oldest waiter, then the rest. */
  lemma {:induction false} WakeAllStep(s: Sched, q: Queue)
    requires q in s.waiting && s.waiting[q] != []
    ensures WakeAll(WakeOne(s, q), q) == WakeAll(s, q)
  {
    var l := s.waiting[q];
    assert s.waiting[q := l[1..]][q := []] == s.waiting[q := []];
  }

  lemma {:induction false} WakeNone(s: Sched, q: Queue)
    requires q in s.waiting && s.waiting[q] == []
    ensures WakeAll(s, q) == s
  {
    assert s.waiting[q := []] == s.waiting;
  }

  lemma {:induction false} WaitersDistinct(s: Sched, q: Queue)
    requires Inv(s) && q in s.waiting
    ensures NoDup(s.waiting[q])
  {
  }

  lemma {:induction false} RunningUnlinked(s: Sched)
    requires Placed(s) && Is(s, s.current, Running)
    ensures s.current !in s.ready && s.current !in s.sleepers
  {
  }
}
