/** Reader-writer lock (kernel/sync/rwlock.c) under every interleaving of its spinlocked
 *  sections and of its waits and wake-ups. */
module RwLockSpec {
  import opened Lists

  datatype Lock = Lock(state: int, waiting: nat)

  // ---- The spinlocked sections ----------------------------------------------------

  function ReadTrylock(l: Lock): (r: (Lock, bool)) {
    if l.state >= 0 && l.waiting == 0 then (l.(state := l.state + 1), true) else (l, false)
  }

  /** Also tells whether a writer is to be woken. */
  function ReadUnlock(l: Lock): (r: (Lock, bool)) {
    var m := if l.state > 0 then l.(state := l.state - 1) else l;
    (m, m.state == 0 && m.waiting > 0)
  }

  function WriteTrylock(l: Lock): (r: (Lock, bool)) {
    if l.state == 0 then (l.(state := -1), true) else (l, false)
  }

  function Announce(l: Lock): (r: Lock) {
    l.(waiting := l.waiting + 1)
  }

  function Retract(l: Lock): (r: Lock) {
    if l.waiting > 0 then l.(waiting := l.waiting - 1) else l
  }

  /** Also tells whether writers are still waiting. */
  function WriteUnlock(l: Lock): (r: (Lock, bool)) {
    (l.(state := 0), l.waiting > 0)
  }

  // ---- Threads --------------------------------------------------------------------

  /** Where a thread is. `...Miss` is between a failed try and the wait. */
  datatype Pc =
    | Idle
    | ReadTry | ReadMiss | ReadWait | Reading | WakeOne
    | WriteBegin | WriteTry | WriteMiss | WriteWait | WriteGot | Writing
    | WakeReaders

  datatype World = World(lock: Lock, pc: map<nat, Pc>, readers: seq<nat>, writers: seq<nat>)

  datatype Action =
    | BeginRead(t: nat) | BeginWrite(t: nat)
    | TryRead(t: nat) | TryWrite(t: nat)
    | Go(t: nat)

  function Put(w: World, t: nat, p: Pc): (r: World) {
    w.(pc := w.pc[t := p])
  }

  /** Wake the first waiting writer, if there is one. */
  function WakeWriter(w: World): (r: World) {
    if w.writers == [] then w else Put(w, w.writers[0], WriteTry).(writers := w.writers[1..])
  }

  /** One step of thread `t` from where it is. */
  function Continue(w: World, t: nat): (r: World)
    requires t in w.pc
  {
    match w.pc[t]
    case Idle => w
    case ReadTry =>
      var (l, ok) := ReadTrylock(w.lock);
      Put(w.(lock := l), t, if ok then Reading else ReadMiss)
    case ReadMiss => Put(w, t, ReadWait).(readers := w.readers + [t])
    case ReadWait => w
    case Reading =>
      var (l, wake) := ReadUnlock(w.lock);
      Put(w.(lock := l), t, if wake then WakeOne else Idle)
    case WakeOne => Put(WakeWriter(w), t, Idle)
    case WriteBegin => Put(w.(lock := Announce(w.lock)), t, WriteTry)
    case WriteTry =>
      var (l, ok) := WriteTrylock(w.lock);
      Put(w.(lock := l), t, if ok then WriteGot else WriteMiss)
    case WriteMiss => Put(w, t, WriteWait).(writers := w.writers + [t])
    case WriteWait => w
    case WriteGot => Put(w.(lock := Retract(w.lock)), t, Writing)
    case Writing =>
      var (l, more) := WriteUnlock(w.lock);
      Put(w.(lock := l), t, if more then WakeOne else WakeReaders)
    case WakeReaders =>
      if w.readers == [] then Put(w, t, Idle)
      else Put(w, w.readers[0], ReadTry).(readers := w.readers[1..])
  }

  function Next(w: World, a: Action): (r: World) {
    if a.t !in w.pc then w
    else if a.Go? then Continue(w, a.t)
    else if w.pc[a.t] != Idle then w
    else
      match a
      case BeginRead(t) => Put(w, t, ReadTry)
      case BeginWrite(t) => Put(w, t, WriteBegin)
      case TryRead(t) =>
        var (l, ok) := ReadTrylock(w.lock);
        Put(w.(lock := l), t, if ok then Reading else Idle)
      case TryWrite(t) =>
        var (l, ok) := WriteTrylock(w.lock);
        Put(w.(lock := l), t, if ok then Writing else Idle)
  }

  function Init(threads: set<nat>): (w: World) {
    World(Lock(0, 0), map t | t in threads :: Idle, [], [])
  }

  // ---- Who is where ---------------------------------------------------------------

  function Among(pc: map<nat, Pc>, ps: set<Pc>): (s: set<nat>) {
    set t | t in pc && pc[t] in ps
  }

  const READING: set<Pc> := {Reading}
  const WRITING: set<Pc> := {WriteGot, Writing}
  const ANNOUNCED: set<Pc> := {WriteTry, WriteMiss, WriteWait, WriteGot}

  lemma {:induction false} AmongPut(pc: map<nat, Pc>, t: nat, p: Pc, ps: set<Pc>)
    requires t in pc
    ensures Among(pc[t := p], ps) == (if p in ps then Among(pc, ps) + {t} else Among(pc, ps) - {t})
    ensures |Among(pc[t := p], ps)| == |Among(pc, ps)| + (if p in ps then 1 else 0) - (if pc[t] in ps then 1 else 0)
  {
    var was, now := Among(pc, ps), Among(pc[t := p], ps);
    if p in ps {
      assert now == was + {t};
    } else {
      assert now == was - {t};
    }
  }

  /** -1 with exactly one writer inside and no reader, else the number of readers inside and
   *  no writer. */
  ghost predicate Exclusive(w: World) {
    if w.lock.state == -1 then |Among(w.pc, WRITING)| == 1 && |Among(w.pc, READING)| == 0
    else w.lock.state == |Among(w.pc, READING)| && |Among(w.pc, WRITING)| == 0
  }

  /** Each queue holds exactly the threads that wait in it, once. */
  ghost predicate Queues(w: World) {
    && NoDup(w.readers) && NoDup(w.writers)
    && (forall t :: t in w.readers <==> t in w.pc && w.pc[t] == ReadWait)
    && (forall t :: t in w.writers <==> t in w.pc && w.pc[t] == WriteWait)
  }

  ghost predicate Inv(w: World) {
    Exclusive(w) && Queues(w) && w.lock.waiting == |Among(w.pc, ANNOUNCED)|
  }

  // ---- Every step keeps the invariant ---------------------------------------------

  /** Moving one thread that is in neither queue before or after. */
  lemma {:induction false} MoveQueues(w: World, t: nat, l: Lock, p: Pc)
    requires Queues(w) && t in w.pc && w.pc[t] != ReadWait && w.pc[t] != WriteWait
    requires p != ReadWait && p != WriteWait
    ensures Queues(Put(w.(lock := l), t, p))
  {
  }

  lemma {:induction false} Counts(w: World, t: nat, p: Pc)
    requires t in w.pc
    ensures forall ps :: ps == READING || ps == WRITING || ps == ANNOUNCED ==>
      |Among(w.pc[t := p], ps)| == |Among(w.pc, ps)| + (if p in ps then 1 else 0) - (if w.pc[t] in ps then 1 else 0)
  {
    AmongPut(w.pc, t, p, READING);
    AmongPut(w.pc, t, p, WRITING);
    AmongPut(w.pc, t, p, ANNOUNCED);
  }

  /** A thread inside a counted set makes its size positive. */
  lemma {:induction false} Present(w: World, t: nat, ps: set<Pc>)
    requires t in w.pc && w.pc[t] in ps
    ensures |Among(w.pc, ps)| > 0
  {
    assert t in Among(w.pc, ps);
  }

  /** Threads that only move between places outside the lock. */
  lemma {:induction false} Outside(w: World, t: nat, p: Pc)
    requires Inv(w) && t in w.pc && w.pc[t] in {Idle, ReadTry, ReadMiss, WakeOne, WakeReaders, WriteBegin}
    requires p in {Idle, ReadTry, ReadMiss, WakeOne, WakeReaders, WriteBegin}
    ensures Inv(Put(w, t, p))
  {
    hide Queues;
    hide Among;
    Counts(w, t, p);
    MoveQueues(w, t, w.lock, p);
  }

  lemma {:induction false} EnterRead(w: World, t: nat, miss: Pc)
    requires Inv(w) && t in w.pc && w.pc[t] in {Idle, ReadTry} && miss in {Idle, ReadMiss}
    ensures var (l, ok) := ReadTrylock(w.lock);
      Inv(Put(w.(lock := l), t, if ok then Reading else miss))
  {
    hide Queues;
    hide Among;
    var (l, ok) := ReadTrylock(w.lock);
    if ok {
      Counts(w, t, Reading);
      MoveQueues(w, t, l, Reading);
    } else {
      Outside(w, t, miss);
    }
  }

  lemma {:induction false} EnterWrite(w: World, t: nat, got: Pc, miss: Pc)
    requires Inv(w) && t in w.pc
    requires
      || (w.pc[t] == Idle && got == Writing && miss == Idle)
      || (w.pc[t] == WriteTry && got == WriteGot && miss == WriteMiss)
    ensures var (l, ok) := WriteTrylock(w.lock);
      Inv(Put(w.(lock := l), t, if ok then got else miss))
  {
    hide Queues;
    hide Among;
    var (l, ok) := WriteTrylock(w.lock);
    var p := if ok then got else miss;
    Counts(w, t, p);
    MoveQueues(w, t, l, p);
  }

  lemma {:induction false} LeaveRead(w: World, t: nat)
    requires Inv(w) && t in w.pc && w.pc[t] == Reading
    ensures Inv(Continue(w, t))
  {
    hide Queues;
    hide Among;
    var (l, wake) := ReadUnlock(w.lock);
    var p := if wake then WakeOne else Idle;
    Present(w, t, READING);
    Counts(w, t, p);
    MoveQueues(w, t, l, p);
  }

  lemma {:induction false} LeaveWrite(w: World, t: nat)
    requires Inv(w) && t in w.pc && w.pc[t] == Writing
    ensures Inv(Continue(w, t))
  {
    hide Queues;
    hide Among;
    var l := WriteUnlock(w.lock).0;
    var p := if w.lock.waiting > 0 then WakeOne else WakeReaders;
    Present(w, t, WRITING);
    Counts(w, t, p);
    MoveQueues(w, t, l, p);
  }

  lemma {:induction false} AnnounceRetract(w: World, t: nat)
    requires Inv(w) && t in w.pc && (w.pc[t] == WriteBegin || w.pc[t] == WriteGot)
    ensures Inv(Continue(w, t))
  {
    hide Queues;
    hide Among;
    var l := if w.pc[t] == WriteBegin then Announce(w.lock) else Retract(w.lock);
    var p := if w.pc[t] == WriteBegin then WriteTry else Writing;
    if w.pc[t] == WriteGot {
      Present(w, t, ANNOUNCED);
    }
    Counts(w, t, p);
    MoveQueues(w, t, l, p);
  }

  lemma {:induction false} StartWait(w: World, t: nat)
    requires Inv(w) && t in w.pc && (w.pc[t] == ReadMiss || w.pc[t] == WriteMiss)
    ensures Inv(Continue(w, t))
  {
    hide Queues;
    hide Among;
    Counts(w, t, if w.pc[t] == ReadMiss then ReadWait else WriteWait);
    if w.pc[t] == ReadMiss {
      EnqueueReader(w, t);
    } else {
      EnqueueWriter(w, t);
    }
  }

  lemma {:induction false} EnqueueReader(w: World, t: nat)
    requires Queues(w) && t in w.pc && w.pc[t] == ReadMiss
    ensures Queues(Put(w, t, ReadWait).(readers := w.readers + [t]))
  {
    NoDupConcat(w.readers, [t]);
  }

  lemma {:induction false} EnqueueWriter(w: World, t: nat)
    requires Queues(w) && t in w.pc && w.pc[t] == WriteMiss
    ensures Queues(Put(w, t, WriteWait).(writers := w.writers + [t]))
  {
    NoDupConcat(w.writers, [t]);
  }

  lemma {:induction false} WakeReaderKeeps(w: World)
    requires Inv(w) && w.readers != []
    ensures Inv(Put(w, w.readers[0], ReadTry).(readers := w.readers[1..]))
  {
    assert w.readers[0] in w.readers;
    Counts(w, w.readers[0], ReadTry);
    TailFacts(w.readers);
  }

  lemma {:induction false} WakeWriterKeeps(w: World)
    requires Inv(w)
    ensures Inv(WakeWriter(w))
    ensures forall t :: t in w.pc ==> t in WakeWriter(w).pc && (w.pc[t] != WriteWait ==> WakeWriter(w).pc[t] == w.pc[t])
  {
    if w.writers != [] {
      assert w.writers[0] in w.writers;
      Counts(w, w.writers[0], WriteTry);
      TailFacts(w.writers);
    }
  }

  lemma {:induction false} ContinueKeeps(w: World, t: nat)
    requires Inv(w) && t in w.pc
    ensures Inv(Continue(w, t))
  {
    hide Inv;
    match w.pc[t]
    case Idle =>
    case ReadTry => EnterRead(w, t, ReadMiss);
    case ReadMiss => StartWait(w, t);
    case ReadWait =>
    case Reading => LeaveRead(w, t);
    case WakeOne =>
      WakeWriterKeeps(w);
      Outside(WakeWriter(w), t, Idle);
    case WriteBegin => AnnounceRetract(w, t);
    case WriteTry => EnterWrite(w, t, WriteGot, WriteMiss);
    case WriteMiss => StartWait(w, t);
    case WriteWait =>
    case WriteGot => AnnounceRetract(w, t);
    case Writing => LeaveWrite(w, t);
    case WakeReaders =>
      if w.readers == [] {
        Outside(w, t, Idle);
      } else {
        WakeReaderKeeps(w);
      }
  }

  lemma {:induction false} NextKeeps(w: World, a: Action)
    requires Inv(w)
    ensures Inv(Next(w, a))
  {
    hide Inv;
    hide Continue;
    if a.t in w.pc {
      if a.Go? {
        ContinueKeeps(w, a.t);
      } else if w.pc[a.t] == Idle {
        match a
        case BeginRead(t) => Outside(w, t, ReadTry);
        case BeginWrite(t) => Outside(w, t, WriteBegin);
        case TryRead(t) => EnterRead(w, t, Idle);
        case TryWrite(t) => EnterWrite(w, t, Writing, Idle);
      }
    }
  }

  // ---- Whole runs -----------------------------------------------------------------

  function Run(w: World, actions: seq<Action>): (r: World)
    decreases |actions|
  {
    if actions == [] then w else Run(Next(w, actions[0]), actions[1..])
  }

  lemma {:induction false} RunKeeps(w: World, actions: seq<Action>)
    requires Inv(w)
    ensures Inv(Run(w, actions))
    decreases |actions|
  {
    hide Inv;
    hide Next;
    if actions != [] {
      NextKeeps(w, actions[0]);
      RunKeeps(Next(w, actions[0]), actions[1..]);
    }
  }

  lemma {:induction false} InitInv(threads: set<nat>)
    ensures Inv(Init(threads))
  {
    var w := Init(threads);
    assert Among(w.pc, READING) == {} && Among(w.pc, WRITING) == {} && Among(w.pc, ANNOUNCED) == {};
  }

  lemma {:induction false} TwoAreTwo(s: set<nat>, t: nat, u: nat)
    requires t in s && u in s && t != u
    ensures |s| >= 2
  {
    var r := s - {t};
    assert s == r + {t} && |s| == |r| + 1;
    assert u in r && r != {};
  }

  /** Mutual exclusion in every reachable state: a thread inside as a writer is alone. */
  lemma {:induction false} WriterAlone(threads: set<nat>, actions: seq<Action>, t: nat, u: nat)
    requires var w := Run(Init(threads), actions);
      t in w.pc && u in w.pc && t != u && w.pc[t] in WRITING
    ensures var w := Run(Init(threads), actions);
      w.lock.state == -1 && w.pc[u] != Reading && w.pc[u] !in WRITING
  {
    var w := Run(Init(threads), actions);
    InitInv(threads);
    RunKeeps(Init(threads), actions);
    Present(w, t, WRITING);
    if w.pc[u] == Reading {
      Present(w, u, READING);
    }
    if w.pc[u] in WRITING {
      TwoAreTwo(Among(w.pc, WRITING), t, u);
    }
  }

  /** Writer preference: no step lets a reader in while any writer is between announcing
   *  itself and retracting. */
  lemma {:induction false} ReaderDeferred(threads: set<nat>, actions: seq<Action>, a: Action, t: nat, v: nat)
    requires var w := Run(Init(threads), actions);
      t in w.pc && v in w.pc && w.pc[v] in ANNOUNCED && w.pc[t] != Reading
    ensures var w := Run(Init(threads), actions); t in Next(w, a).pc && Next(w, a).pc[t] != Reading
  {
    var w := Run(Init(threads), actions);
    InitInv(threads);
    RunKeeps(Init(threads), actions);
    Present(w, v, ANNOUNCED);
  }

  // ---- Lost wake-ups --------------------------------------------------------------

  ghost predicate Someone(w: World, ps: set<Pc>) {
    exists t :: t in w.pc && w.pc[t] in ps
  }

  /** The lock is free and a writer is queued, but nobody is about to take it or to wake it. */
  ghost predicate WriterStranded(w: World) {
    w.lock.state == 0 && w.writers != [] && !Someone(w, {WakeOne, WriteTry})
  }

  /** A reader is queued although it would get in, and nobody is waking the readers. */
  ghost predicate ReaderStranded(w: World) {
    w.lock.state >= 0 && w.lock.waiting == 0 && w.readers != [] && !Someone(w, {WakeReaders})
  }

  ghost predicate Stranded(w: World) {
    WriterStranded(w) || ReaderStranded(w)
  }

  /** The step puts a thread to sleep after the wake-up it would have needed. */
  ghost predicate LateWait(w: World, a: Action) {
    && a.Go? && a.t in w.pc
    && ((w.pc[a.t] == WriteMiss && w.lock.state == 0 && !Someone(w, {WakeOne, WriteTry}))
        || (w.pc[a.t] == ReadMiss && w.lock.state >= 0 && w.lock.waiting == 0 && !Someone(w, {WakeReaders})))
  }

  /** A queued writer is announced. */
  lemma {:induction false} QueuedAnnounced(w: World)
    requires Inv(w) && w.writers != []
    ensures w.lock.waiting > 0
  {
    assert w.writers[0] in w.writers;
    Present(w, w.writers[0], ANNOUNCED);
  }

  /** The thread that acts is the only one that can leave `ps`. */
  lemma {:induction false} StillThere(w: World, v: World, t: nat, ps: set<Pc>)
    requires Someone(w, ps) && (t in w.pc ==> w.pc[t] !in ps)
    requires forall u :: u in w.pc && u != t && w.pc[u] in ps ==> u in v.pc && v.pc[u] in ps
    ensures Someone(v, ps)
  {
  }

  lemma {:induction false} WriterStep(w: World, t: nat)
    requires Inv(w) && !WriterStranded(w) && t in w.pc
    ensures WriterStranded(Continue(w, t)) <==> LateWait(w, Go(t)) && w.pc[t] == WriteMiss
  {
    hide Among;
    var v := Continue(w, t);
    if w.writers != [] {
      QueuedAnnounced(w);
      assert w.writers[0] in w.writers;
    }
    if w.pc[t] in {WakeOne, WriteTry} {
      if w.pc[t] == WakeOne && w.writers != [] {
        assert v.pc[w.writers[0]] == WriteTry;
      }
    } else if Someone(w, {WakeOne, WriteTry}) {
      StillThere(w, v, t, {WakeOne, WriteTry});
    } else if w.pc[t] == Reading || w.pc[t] == Writing {
      assert v.writers != [] && v.lock.state == 0 ==> v.pc[t] == WakeOne;
    }
  }

  lemma {:induction false} ReaderStep(w: World, t: nat)
    requires Inv(w) && !ReaderStranded(w) && t in w.pc
    ensures ReaderStranded(Continue(w, t)) <==> LateWait(w, Go(t)) && w.pc[t] == ReadMiss
  {
    hide Among;
    var v := Continue(w, t);
    if w.readers != [] {
      assert w.readers[0] in w.readers;
    }
    if w.writers != [] {
      assert w.writers[0] in w.writers;
    }
    if w.pc[t] == WriteGot {
      Present(w, t, WRITING);
    } else if w.pc[t] == WakeReaders {
      assert v.readers != [] ==> v.pc[t] == WakeReaders;
    } else if Someone(w, {WakeReaders}) {
      StillThere(w, v, t, {WakeReaders});
    } else if w.pc[t] == Writing {
      assert v.lock.waiting == 0 ==> v.pc[t] == WakeReaders;
    }
  }

  /** From a state with nobody stranded, exactly a late wait strands somebody. */
  lemma {:induction false} StrandsIff(w: World, a: Action)
    requires Inv(w) && !Stranded(w)
    ensures Stranded(Next(w, a)) <==> LateWait(w, a)
  {
    hide Continue;
    hide Inv;
    if a.t in w.pc && a.Go? {
      WriterStep(w, a.t);
      ReaderStep(w, a.t);
    } else if a.t in w.pc && w.pc[a.t] == Idle {
      BeginStep(w, a);
    }
  }

  lemma {:induction false} BeginStep(w: World, a: Action)
    requires Inv(w) && !Stranded(w) && a.t in w.pc && w.pc[a.t] == Idle && !a.Go?
    ensures !Stranded(Next(w, a))
  {
    hide Among;
    var v := Next(w, a);
    if w.writers != [] {
      QueuedAnnounced(w);
    }
    if Someone(w, {WakeOne, WriteTry}) {
      StillThere(w, v, a.t, {WakeOne, WriteTry});
    }
    if Someone(w, {WakeReaders}) {
      StillThere(w, v, a.t, {WakeReaders});
    }
  }

  /** No state of the run strands anybody. */
  ghost predicate NeverStranded(w: World, actions: seq<Action>)
    decreases |actions|
  {
    !Stranded(w) && (actions != [] ==> NeverStranded(Next(w, actions[0]), actions[1..]))
  }

  ghost predicate NoLateWait(w: World, actions: seq<Action>)
    decreases |actions|
  {
    actions != [] ==> !LateWait(w, actions[0]) && NoLateWait(Next(w, actions[0]), actions[1..])
  }

  lemma {:induction false} RunStrands(w: World, actions: seq<Action>)
    requires Inv(w) && !Stranded(w)
    ensures NeverStranded(w, actions) <==> NoLateWait(w, actions)
    decreases |actions|
  {
    hide Inv;
    hide Next;
    hide Stranded;
    hide LateWait;
    if actions != [] {
      var v := Next(w, actions[0]);
      StrandsIff(w, actions[0]);
      NextKeeps(w, actions[0]);
      if Stranded(v) {
        assert !NeverStranded(v, actions[1..]);
      } else {
        RunStrands(v, actions[1..]);
      }
    }
  }

  /** Every run: nobody is ever stranded exactly when no thread goes to sleep late. */
  lemma {:induction false} NobodyStrandedIff(threads: set<nat>, actions: seq<Action>)
    ensures NeverStranded(Init(threads), actions) <==> NoLateWait(Init(threads), actions)
  {
    InitInv(threads);
    RunStrands(Init(threads), actions);
  }

  const MISSED: set<Pc> := {ReadMiss, WriteMiss}

  /** While a thread stands between its failed try and its wait, only that thread acts. */
  ghost predicate Undisturbed(w: World, actions: seq<Action>)
    decreases |actions|
  {
    actions != [] ==>
      && (forall u :: u in w.pc && w.pc[u] in MISSED ==> actions[0] == Go(u))
      && Undisturbed(Next(w, actions[0]), actions[1..])
  }

  /** The failed try still describes the lock. */
  ghost predicate Current(w: World) {
    && (forall u :: u in w.pc && w.pc[u] == WriteMiss ==> w.lock.state != 0)
    && (forall u :: u in w.pc && w.pc[u] == ReadMiss ==> w.lock.state < 0 || w.lock.waiting > 0)
  }

  lemma {:induction false} HeadsWait(w: World)
    requires Inv(w)
    ensures w.readers != [] ==> w.readers[0] in w.pc && w.pc[w.readers[0]] == ReadWait
    ensures w.writers != [] ==> w.writers[0] in w.pc && w.pc[w.writers[0]] == WriteWait
  {
    assert w.readers != [] ==> w.readers[0] in w.readers;
    assert w.writers != [] ==> w.writers[0] in w.writers;
  }

  lemma {:induction false} CurrentKept(w: World, a: Action)
    requires Inv(w) && Current(w) && forall u :: u in w.pc && w.pc[u] in MISSED ==> a == Go(u)
    ensures Current(Next(w, a)) && !LateWait(w, a)
  {
    hide Inv;
    HeadsWait(w);
  }

  lemma {:induction false} UndisturbedWaits(w: World, actions: seq<Action>)
    requires Inv(w) && Current(w) && Undisturbed(w, actions)
    ensures NoLateWait(w, actions)
    decreases |actions|
  {
    hide Inv;
    hide Next;
    hide Current;
    hide LateWait;
    if actions != [] {
      CurrentKept(w, actions[0]);
      NextKeeps(w, actions[0]);
      UndisturbedWaits(Next(w, actions[0]), actions[1..]);
    }
  }

  /** With an undisturbed try-and-wait, no run ever strands a reader or a writer. */
  lemma {:induction false} UndisturbedSafe(threads: set<nat>, actions: seq<Action>)
    requires Undisturbed(Init(threads), actions)
    ensures NeverStranded(Init(threads), actions)
  {
    InitInv(threads);
    UndisturbedWaits(Init(threads), actions);
    NobodyStrandedIff(threads, actions);
  }

  /** The try and the wait are separate sections, so a wake-up can fall between them. After
   *  this run the lock is free, a writer waits in the queue and nobody is left to wake it;
   *  its announcement keeps every reader out. */
  lemma {:induction false} LostWakeup()
    ensures var w := Run(Init({0, 1}), [TryRead(0), BeginWrite(1), Go(1), Go(1), Go(0), Go(0), Go(1)]);
      && w.lock == Lock(0, 1) && w.pc == map[0 := Idle, 1 := WriteWait] && w.writers == [1] && w.readers == []
      && WriterStranded(w) && !ReadTrylock(w.lock).1
  {
    hide Next;
    hide Run;
    var s := [TryRead(0), BeginWrite(1), Go(1), Go(1), Go(0), Go(0), Go(1)];
    var w := Init({0, 1});
    assert w == World(Lock(0, 0), map[0 := Idle, 1 := Idle], [], []);
    RunSplit(w, s, 4);
    MissedTry(w);
    assert s[..4] == [TryRead(0), BeginWrite(1), Go(1), Go(1)] && s[4..] == [Go(0), Go(0), Go(1)];
    MissedWake(Run(w, s[..4]));
  }

  lemma {:induction false} RunOne(w: World, a: Action, rest: seq<Action>)
    ensures Run(w, [a] + rest) == Run(Next(w, a), rest)
  {
    assert ([a] + rest)[1..] == rest;
  }

  /** A reader is inside; the writer announces itself and its try fails. */
  lemma {:induction false} MissedTry(w: World)
    requires w == World(Lock(0, 0), map[0 := Idle, 1 := Idle], [], [])
    ensures Run(w, [TryRead(0), BeginWrite(1), Go(1), Go(1)])
         == World(Lock(1, 1), map[0 := Reading, 1 := WriteMiss], [], [])
  {
    var a := Next(w, TryRead(0));
    assert a == World(Lock(1, 0), map[0 := Reading, 1 := Idle], [], []);
    var b := Next(a, BeginWrite(1));
    assert b == World(Lock(1, 0), map[0 := Reading, 1 := WriteBegin], [], []);
    var c := Next(b, Go(1));
    assert c == World(Lock(1, 1), map[0 := Reading, 1 := WriteTry], [], []);
    var d := Next(c, Go(1));
    assert d == World(Lock(1, 1), map[0 := Reading, 1 := WriteMiss], [], []);
    hide Next;
    assert [TryRead(0), BeginWrite(1), Go(1), Go(1)] == [TryRead(0)] + ([BeginWrite(1)] + ([Go(1)] + ([Go(1)] + [])));
    RunOne(w, TryRead(0), [BeginWrite(1)] + ([Go(1)] + ([Go(1)] + [])));
    RunOne(a, BeginWrite(1), [Go(1)] + ([Go(1)] + []));
    RunOne(b, Go(1), [Go(1)] + []);
    RunOne(c, Go(1), []);
  }

  /** The reader leaves and wakes an empty queue; then the writer goes to wait. */
  lemma {:induction false} MissedWake(w: World)
    requires w == World(Lock(1, 1), map[0 := Reading, 1 := WriteMiss], [], [])
    ensures Run(w, [Go(0), Go(0), Go(1)]) == World(Lock(0, 1), map[0 := Idle, 1 := WriteWait], [], [1])
  {
    var a := Next(w, Go(0));
    assert a == World(Lock(0, 1), map[0 := WakeOne, 1 := WriteMiss], [], []);
    var b := Next(a, Go(0));
    assert b == World(Lock(0, 1), map[0 := Idle, 1 := WriteMiss], [], []);
    var c := Next(b, Go(1));
    assert c == World(Lock(0, 1), map[0 := Idle, 1 := WriteWait], [], [1]);
    hide Next;
    assert [Go(0), Go(0), Go(1)] == [Go(0)] + ([Go(0)] + ([Go(1)] + []));
    RunOne(w, Go(0), [Go(0)] + ([Go(1)] + []));
    RunOne(a, Go(0), [Go(1)] + []);
    RunOne(b, Go(1), []);
  }

  lemma {:induction false} RunSplit(w: World, actions: seq<Action>, k: nat)
    requires k <= |actions|
    ensures Run(w, actions) == Run(Run(w, actions[..k]), actions[k..])
    decreases k
  {
    if k == 0 {
      assert actions[0..] == actions;
    } else {
      assert actions[..k][1..] == actions[1..][..k - 1] && actions[1..][k - 1..] == actions[k..];
      RunSplit(Next(w, actions[0]), actions[1..], k - 1);
    }
  }

  // ---- What the fields mean ---------------------------------------------------------

  /** The two counters, read as the sets of threads they stand for. */
  lemma {:induction false} FieldsMean(w: World)
    requires Inv(w)
    ensures w.lock.state >= -1
    ensures w.lock.state == -1 <==> Among(w.pc, WRITING) != {}
    ensures w.lock.state > 0 <==> Among(w.pc, READING) != {}
    ensures w.lock.state >= 0 ==> w.lock.state == |Among(w.pc, READING)|
    ensures w.lock.waiting > 0 <==> Among(w.pc, ANNOUNCED) != {}
  {
  }

  lemma {:induction false} Joins(pc: map<nat, Pc>, t: nat, p: Pc, ps: set<Pc>)
    requires t in pc && pc[t] !in ps
    ensures Among(pc[t := p], ps) == Among(pc, ps) + (if p in ps then {t} else {})
  {
  }

  lemma {:induction false} OnlyWriter(w: World, t: nat)
    requires Inv(w) && t in w.pc && w.pc[t] in WRITING
    ensures Among(w.pc, WRITING) == {t}
  {
    var s := Among(w.pc, WRITING);
    assert t in s;
    Present(w, t, WRITING);
    forall u | u in s ensures u == t {
      if u != t {
        TwoAreTwo(s, t, u);
      }
    }
  }

  /** The step that thread `t` takes in a try section. */
  function TryStep(w: World, t: nat, read: bool): (a: Action) {
    if t in w.pc && w.pc[t] == Idle then (if read then TryRead(t) else TryWrite(t)) else Go(t)
  }

  lemma {:induction false} TryReadFacts(w: World, t: nat, p: Pc)
    requires Inv(w) && t in w.pc && w.pc[t] in {Idle, ReadTry}
    requires p == if ReadTrylock(w.lock).1 then Reading else if w.pc[t] == Idle then Idle else ReadMiss
    ensures Next(w, TryStep(w, t, true)) == w.(lock := ReadTrylock(w.lock).0, pc := w.pc[t := p])
    ensures Among(w.pc[t := p], READING) == Among(w.pc, READING) + (if p == Reading then {t} else {})
    ensures Among(w.pc[t := p], WRITING) == Among(w.pc, WRITING)
  {
    hide Inv;
    Joins(w.pc, t, p, READING);
    Joins(w.pc, t, p, WRITING);
  }

  lemma {:induction false} TryWriteFacts(w: World, t: nat, p: Pc)
    requires Inv(w) && t in w.pc && w.pc[t] in {Idle, WriteTry}
    requires p == if w.pc[t] == Idle then (if WriteTrylock(w.lock).1 then Writing else Idle)
                  else if WriteTrylock(w.lock).1 then WriteGot else WriteMiss
    ensures Next(w, TryStep(w, t, false)) == w.(lock := WriteTrylock(w.lock).0, pc := w.pc[t := p])
    ensures Among(w.pc[t := p], READING) == Among(w.pc, READING)
    ensures Among(w.pc[t := p], WRITING) == Among(w.pc, WRITING) + (if p in {Writing, WriteGot} then {t} else {})
  {
    hide Inv;
    Joins(w.pc, t, p, READING);
    Joins(w.pc, t, p, WRITING);
  }
}

/** The lock as the kernel keeps it, with where each thread is. The methods are the sections
 *  that run under the spinlock and the wait queues' operations. */
module RwLock {
  import opened Lists
  import opened RwLockSpec

  class RwLockObject {
    var state: int
    var waitingWriters: nat
    var readers: seq<nat>
    var writers: seq<nat>
    var pc: map<nat, Pc>

    ghost function Abs(): (w: World)
      reads this
    {
      World(Lock(state, waitingWriters), pc, readers, writers)
    }

    ghost predicate Valid()
      reads this
    {
      Inv(Abs())
    }

    constructor (threads: set<nat>)
      ensures Valid() && Abs() == Init(threads)
    {
      state, waitingWriters, readers, writers := 0, 0, [], [];
      pc := map t | t in threads :: Idle;
      new;
      InitInv(threads);
    }

    /** `rwlock_reader_count`. */
    method ReaderCount() returns (n: int)
      requires Valid()
      ensures n == |Among(pc, READING)|
    {
      FieldsMean(Abs());
      n := if state > 0 then state else 0;
    }

    /** `rwlock_write_held`. */
    method WriteHeld() returns (held: bool)
      requires Valid()
      ensures held <==> Among(pc, WRITING) != {}
    {
      FieldsMean(Abs());
      held := state < 0;
    }

    /** A reader gets in exactly when no writer is inside and none is announced. */
    method TryReadLock(t: nat) returns (ok: bool)
      requires Valid() && t in pc && pc[t] in {Idle, ReadTry}
      modifies `state, `pc
      ensures Valid() && Abs() == Next(old(Abs()), TryStep(old(Abs()), t, true))
      ensures ok <==> Among(old(pc), WRITING) == {} && Among(old(pc), ANNOUNCED) == {}
      ensures Among(pc, READING) == Among(old(pc), READING) + (if ok then {t} else {})
      ensures Among(pc, WRITING) == Among(old(pc), WRITING)
    {
      hide Among;
      hide Next;
      hide Inv;
      ghost var w := Abs();
      NextKeeps(w, TryStep(w, t, true));
      FieldsMean(w);
      ok := false;
      if state >= 0 && waitingWriters == 0 {
        state := state + 1;
        ok := true;
      }
      var p := if ok then Reading else if pc[t] == Idle then Idle else ReadMiss;
      TryReadFacts(w, t, p);
      pc := pc[t := p];
    }

    /** The last reader to leave is told to wake a writer exactly when one is announced. */
    method UnlockRead(t: nat) returns (wakeWriter: bool)
      requires Valid() && t in pc && pc[t] == Reading
      modifies `state, `pc
      ensures Valid() && Abs() == Next(old(Abs()), Go(t))
      ensures Among(pc, READING) == Among(old(pc), READING) - {t}
      ensures wakeWriter <==> Among(pc, READING) == {} && Among(pc, ANNOUNCED) != {}
      ensures wakeWriter ==> pc[t] == WakeOne
    {
      hide Inv;
      ghost var w := Abs();
      NextKeeps(w, Go(t));
      FieldsMean(w);
      assert t in Among(pc, READING);
      if state > 0 {
        state := state - 1;
      }
      wakeWriter := state == 0 && waitingWriters > 0;
      pc := pc[t := if wakeWriter then WakeOne else Idle];
      FieldsMean(Abs());
    }

    /** A writer gets in exactly when the lock is empty, and is then alone in it. */
    method TryWriteLock(t: nat) returns (ok: bool)
      requires Valid() && t in pc && pc[t] in {Idle, WriteTry}
      modifies `state, `pc
      ensures Valid() && Abs() == Next(old(Abs()), TryStep(old(Abs()), t, false))
      ensures ok <==> Among(old(pc), READING) == {} && Among(old(pc), WRITING) == {}
      ensures Among(pc, WRITING) == (if ok then {t} else Among(old(pc), WRITING))
      ensures Among(pc, READING) == Among(old(pc), READING)
    {
      hide Among;
      hide Next;
      hide Inv;
      ghost var w := Abs();
      NextKeeps(w, TryStep(w, t, false));
      FieldsMean(w);
      ok := false;
      if state == 0 {
        state := -1;
        ok := true;
      }
      var p := if pc[t] == Idle then (if ok then Writing else Idle) else if ok then WriteGot else WriteMiss;
      TryWriteFacts(w, t, p);
      pc := pc[t := p];
    }

    method AnnounceWriter(t: nat)
      requires Valid() && t in pc && pc[t] == WriteBegin
      modifies `waitingWriters, `pc
      ensures Valid() && Abs() == Next(old(Abs()), Go(t))
      ensures Among(pc, ANNOUNCED) == Among(old(pc), ANNOUNCED) + {t}
    {
      hide Inv;
      NextKeeps(Abs(), Go(t));
      waitingWriters := waitingWriters + 1;
      pc := pc[t := WriteTry];
    }

    /** The guard never hides an announcement: the count is positive here. */
    method RetractWriter(t: nat)
      requires Valid() && t in pc && pc[t] == WriteGot
      modifies `waitingWriters, `pc
      ensures Valid() && Abs() == Next(old(Abs()), Go(t))
      ensures waitingWriters == old(waitingWriters) - 1
      ensures Among(pc, ANNOUNCED) == Among(old(pc), ANNOUNCED) - {t}
      ensures Among(pc, WRITING) == {t} == Among(old(pc), WRITING)
    {
      hide Inv;
      ghost var w := Abs();
      NextKeeps(w, Go(t));
      FieldsMean(w);
      assert t in Among(pc, ANNOUNCED);
      OnlyWriter(w, t);
      if waitingWriters > 0 {
        waitingWriters := waitingWriters - 1;
      }
      pc := pc[t := Writing];
    }

    /** After the unlock the lock is empty; a writer is preferred if one is announced. */
    method UnlockWrite(t: nat) returns (moreWriters: bool)
      requires Valid() && t in pc && pc[t] == Writing
      modifies `state, `pc
      ensures Valid() && Abs() == Next(old(Abs()), Go(t))
      ensures Among(pc, WRITING) == {} && Among(pc, READING) == {}
      ensures moreWriters <==> Among(pc, ANNOUNCED) != {}
      ensures pc[t] == if moreWriters then WakeOne else WakeReaders
    {
      hide Inv;
      NextKeeps(Abs(), Go(t));
      state := 0;
      moreWriters := waitingWriters > 0;
      pc := pc[t := if moreWriters then WakeOne else WakeReaders];
      FieldsMean(Abs());
    }

    /** `waitqueue_wait` after a failed try: last in its queue. */
    method Wait(t: nat, write: bool)
      requires Valid() && t in pc && pc[t] == if write then WriteMiss else ReadMiss
      modifies `readers, `writers, `pc
      ensures Valid() && Abs() == Next(old(Abs()), Go(t))
      ensures old(!Stranded(Abs())) ==> (Stranded(Abs()) <==> old(LateWait(Abs(), Go(t))))
    {
      hide Inv;
      hide Among;
      NextKeeps(Abs(), Go(t));
      if !Stranded(Abs()) {
        StrandsIff(Abs(), Go(t));
      }
      if write {
        writers := writers + [t];
        pc := pc[t := WriteWait];
      } else {
        readers := readers + [t];
        pc := pc[t := ReadWait];
      }
    }

    /** `waitqueue_wake_one` on the writers: the one that has waited longest tries again. */
    method WakeOneWriter(t: nat)
      requires Valid() && t in pc && pc[t] == WakeOne
      modifies `writers, `pc
      ensures Valid() && Abs() == Next(old(Abs()), Go(t))
      ensures old(writers) != [] ==> pc[old(writers)[0]] == WriteTry && old(writers) == [old(writers)[0]] + writers
    {
      hide Inv;
      hide Among;
      ghost var w := Abs();
      NextKeeps(w, Go(t));
      HeadsWait(w);
      if writers != [] {
        pc := pc[writers[0] := WriteTry];
        writers := writers[1..];
      }
      pc := pc[t := Idle];
    }

    /** One turn of `waitqueue_wake_all` on the readers, or its end. */
    method WakeNextReader(t: nat)
      requires Valid() && t in pc && pc[t] == WakeReaders
      modifies `readers, `pc
      ensures Valid() && Abs() == Next(old(Abs()), Go(t))
      ensures pc[t] == if old(readers) == [] then Idle else WakeReaders
    {
      hide Inv;
      hide Among;
      ghost var w := Abs();
      NextKeeps(w, Go(t));
      HeadsWait(w);
      if readers == [] {
        pc := pc[t := Idle];
      } else {
        pc := pc[readers[0] := ReadTry];
        readers := readers[1..];
      }
    }

    /** `waitqueue_wake_all` undisturbed: every queued reader tries again, nobody else moves. */
    method WakeAllReaders(t: nat)
      requires Valid() && t in pc && pc[t] == WakeReaders
      modifies `readers, `pc
      ensures Valid() && readers == [] && pc.Keys == old(pc).Keys && pc[t] == Idle
      ensures forall u :: u in pc && u != t ==>
        pc[u] == if old(pc)[u] == ReadWait then ReadTry else old(pc)[u]
    {
      hide Inv;
      hide Among;
      QueueExact(Abs());
      while readers != []
        invariant Valid() && pc.Keys == old(pc).Keys && pc[t] == WakeReaders
        invariant forall u :: u in pc && u != t ==>
          pc[u] == if old(pc)[u] == ReadWait && u !in readers then ReadTry else old(pc)[u]
        decreases |readers|
      {
        ghost var w := Abs();
        HeadsWait(w);
        WakeReaderQueue(w);
        WakeNextReader(t);
        assert readers == w.readers[1..] && pc == w.pc[w.readers[0] := ReadTry];
      }
      QueueExact(Abs());
      WakeNextReader(t);
    }

    /** A thread does what comes next for it; the scheduler has chosen the action. */
    method Act(a: Action)
      requires Valid()
      modifies this
      ensures Valid() && Abs() == Next(old(Abs()), a)
    {
      hide Inv;
      hide Among;
      ghost var w := Abs();
      NextKeeps(w, a);
      if a.t !in pc {
        return;
      }
      match a
      case BeginRead(t) => if pc[t] == Idle { pc := pc[t := ReadTry]; }
      case BeginWrite(t) => if pc[t] == Idle { pc := pc[t := WriteBegin]; }
      case TryRead(t) => if pc[t] == Idle { var _ := TryReadLock(t); }
      case TryWrite(t) => if pc[t] == Idle { var _ := TryWriteLock(t); }
      case Go(t) => Resume(t);
    }

    method Resume(t: nat)
      requires Valid() && t in pc
      modifies this
      ensures Valid() && Abs() == Next(old(Abs()), Go(t))
    {
      hide Inv;
      hide Among;
      match pc[t]
      case ReadTry => var _ := TryReadLock(t);
      case ReadMiss => Wait(t, false);
      case Reading => var _ := UnlockRead(t);
      case WakeOne => WakeOneWriter(t);
      case WriteBegin => AnnounceWriter(t);
      case WriteTry => var _ := TryWriteLock(t);
      case WriteMiss => Wait(t, true);
      case WriteGot => RetractWriter(t);
      case Writing => var _ := UnlockWrite(t);
      case WakeReaders => WakeNextReader(t);
      case _ =>
    }

    /** Any interleaving of the threads' sections. */
    method Perform(actions: seq<Action>)
      requires Valid()
      modifies this
      ensures Valid() && Abs() == Run(old(Abs()), actions)
    {
      hide Inv;
      hide Next;
      for i := 0 to |actions|
        invariant Valid() && Run(Abs(), actions[i..]) == Run(old(Abs()), actions)
      {
        assert actions[i..][1..] == actions[i + 1..];
        Act(actions[i]);
      }
    }
  }

  lemma {:induction false} WakeReaderQueue(w: World)
    requires Inv(w) && w.readers != []
    ensures w.readers[0] !in w.readers[1..] && forall u :: u in w.readers <==> u == w.readers[0] || u in w.readers[1..]
  {
    TailFacts(w.readers);
  }

  lemma {:induction false} QueueExact(w: World)
    requires Inv(w)
    ensures forall u :: u in w.readers <==> u in w.pc && w.pc[u] == ReadWait
  {
  }
}
