/** The per-key reader/writer lock map (pkg/util/lockmap/lockmap.go): any number of threads lock
    and unlock keys while a background sweep drops the mutexes nobody uses. Each step below is
    one atomic action of the source: taking the big lock, `LoadOrStore`, a count update, and so on. */
module LockMap {
  import opened Wrappers

  type Thread = nat
  type MutexId = nat

  datatype Mode = Exclusive | Shared

  /** Where a thread is inside `Lock`/`RLock` or the unlock closure; a thread that is not in the
      map is outside both. */
  datatype Pc =
    | HaveBig(key: string, mode: Mode)
    | Stored(key: string, mode: Mode, id: MutexId)     // after LoadOrStore, still under the big lock
    | Counted(key: string, mode: Mode, id: MutexId)    // after Inc, still under the big lock
    | Waiting(key: string, mode: Mode, id: MutexId)    // before the first atomic action of the mutex
    | Announced(key: string, mode: Mode, id: MutexId)  // a writer that new readers wait for
    | Queued(key: string, mode: Mode, id: MutexId)     // a reader that found a writer
    | Holding(key: string, mode: Mode, id: MutexId)
    | Released(key: string, mode: Mode, id: MutexId)   // after Unlock, before Dec

  datatype GcPc =
    | Sleeping
    | Ranging
    | Visiting(key: string, id: MutexId)               // Range called back, big lock not yet taken
    | Checking(key: string, id: MutexId)               // under the big lock
    | Deleting(key: string, id: MutexId)               // under the big lock, count was read as zero
    | Leaving                                          // under the big lock, about to release it

  datatype BigLock = Free | HeldBy(thread: Thread) | HeldByGc

  /** A counted `sync.RWMutex`. `readers` have it, though a reader that a writer let in may not have
      noticed yet; `announced` waits for them to leave, and `queued` wait for that writer. */
  datatype Mutex = Mutex(
    count: int,
    writer: Option<Thread>,
    readers: set<Thread>,
    announced: Option<Thread>,
    queued: set<Thread>)

  datatype State = State(
    bigLock: BigLock,
    mutexes: map<string, MutexId>,        // the sync.Map
    heap: map<MutexId, Mutex>,            // every mutex ever allocated
    threads: map<Thread, Pc>,
    gc: GcPc,
    start: set<string>,                   // the keys present when the sweep began
    visited: set<string>,                 // the keys the sweep has visited
    seen: set<(string, MutexId)>)         // the mappings that held at some time during the sweep

  datatype Step =
    | TakeBig(t: Thread, key: string, mode: Mode)
    | LoadOrStore(t: Thread, newId: MutexId)
    | Inc(t: Thread)
    | DropBig(t: Thread)
    | Announce(t: Thread)
    | Queue(t: Thread)
    | Acquire(t: Thread)
    | Wake(t: Thread)
    | Unlock(t: Thread)
    | Dec(t: Thread)
    | GcStart
    | GcVisit(key: string, id: MutexId)
    | GcTakeBig
    | GcCheck
    | GcDelete
    | GcDropBig
    | GcEnd

  ghost predicate Init(s: State) {
    && s.bigLock == Free && s.mutexes == map[] && s.heap == map[] && s.threads == map[]
    && s.gc == Sleeping && s.start == {} && s.visited == {} && s.seen == {}
  }

  /** A writer has the mutex or is waiting for the readers to leave. */
  predicate Closed(m: Mutex) {
    m.writer.Some? || m.announced.Some?
  }

  predicate At(s: State, t: Thread) {
    t in s.threads && !s.threads[t].HaveBig? && s.threads[t].id in s.heap
  }

  predicate Arriving(s: State, t: Thread, mode: Mode) {
    At(s, t) && s.threads[t].Waiting? && s.threads[t].mode == mode
  }

  predicate Enabled(s: State, step: Step) {
    match step
    case TakeBig(t, k, m) => t !in s.threads && s.bigLock == Free
    case LoadOrStore(t, n) => t in s.threads && s.threads[t].HaveBig? && n !in s.heap
    case Inc(t) => At(s, t) && s.threads[t].Stored?
    case DropBig(t) => At(s, t) && s.threads[t].Counted?
    case Announce(t) => Arriving(s, t, Exclusive) && !Closed(s.heap[s.threads[t].id])
    case Queue(t) => Arriving(s, t, Shared) && Closed(s.heap[s.threads[t].id])
    case Acquire(t) =>
      || (Arriving(s, t, Shared) && !Closed(s.heap[s.threads[t].id]))
      || (At(s, t) && s.threads[t].Announced? && s.heap[s.threads[t].id].readers == {})
    case Wake(t) => At(s, t) && s.threads[t].Queued? && t in s.heap[s.threads[t].id].readers
    case Unlock(t) => At(s, t) && s.threads[t].Holding?
    case Dec(t) => At(s, t) && s.threads[t].Released?
    case GcStart => s.gc.Sleeping?
    case GcVisit(k, id) => s.gc.Ranging? && (k, id) in s.seen && k !in s.visited
    case GcTakeBig => s.gc.Visiting? && s.bigLock == Free
    case GcCheck => s.gc.Checking? && s.gc.id in s.heap
    case GcDelete => s.gc.Deleting?
    case GcDropBig => s.gc.Leaving?
    case GcEnd => s.gc.Ranging? && s.start <= s.visited
  }

  const NEW_MUTEX := Mutex(0, None, {}, None, {})

  function Move(s: State, t: Thread, pc: Pc): State {
    s.(threads := s.threads[t := pc])
  }

  /** Thread `t` moves, and its mutex changes with it. */
  function On(s: State, t: Thread, pc: Pc, m: Mutex): State
    requires t in s.threads && !s.threads[t].HaveBig?
  {
    Move(s, t, pc).(heap := s.heap[s.threads[t].id := m])
  }

  function Apply(s: State, step: Step): State
    requires Enabled(s, step)
  {
    match step
    case TakeBig(t, k, m) => Move(s, t, HaveBig(k, m)).(bigLock := HeldBy(t))
    case LoadOrStore(t, n) =>
      var pc := s.threads[t];
      if pc.key in s.mutexes then Move(s, t, Stored(pc.key, pc.mode, s.mutexes[pc.key]))
      else Move(s, t, Stored(pc.key, pc.mode, n))
           .(mutexes := s.mutexes[pc.key := n],
             heap := s.heap[n := NEW_MUTEX],
             seen := s.seen + {(pc.key, n)})
    case Inc(t) =>
      var pc := s.threads[t];
      var m := s.heap[pc.id];
      On(s, t, Counted(pc.key, pc.mode, pc.id), m.(count := m.count + 1))
    case DropBig(t) =>
      var pc := s.threads[t];
      On(s, t, Waiting(pc.key, pc.mode, pc.id), s.heap[pc.id]).(bigLock := Free)
    case Announce(t) =>
      var pc := s.threads[t];
      On(s, t, Announced(pc.key, pc.mode, pc.id), s.heap[pc.id].(announced := Some(t)))
    case Queue(t) =>
      var pc := s.threads[t];
      var m := s.heap[pc.id];
      On(s, t, Queued(pc.key, pc.mode, pc.id), m.(queued := m.queued + {t}))
    case Acquire(t) =>
      var pc := s.threads[t];
      var m := s.heap[pc.id];
      On(s, t, Holding(pc.key, pc.mode, pc.id),
         if pc.Announced? then m.(writer := Some(t), announced := None) else m.(readers := m.readers + {t}))
    case Wake(t) =>
      var pc := s.threads[t];
      On(s, t, Holding(pc.key, pc.mode, pc.id), s.heap[pc.id])
    case Unlock(t) =>
      // A writer lets every queued reader in before the next writer can announce itself.
      var pc := s.threads[t];
      var m := s.heap[pc.id];
      On(s, t, Released(pc.key, pc.mode, pc.id),
         if pc.mode == Exclusive then m.(writer := None, readers := m.queued, queued := {})
         else m.(readers := m.readers - {t}))
    case Dec(t) =>
      var pc := s.threads[t];
      var m := s.heap[pc.id];
      s.(threads := s.threads - {t}, heap := s.heap[pc.id := m.(count := m.count - 1)])
    case GcStart =>
      s.(gc := Ranging, start := s.mutexes.Keys, visited := {}, seen := s.mutexes.Items)
    case GcVisit(k, id) => s.(gc := Visiting(k, id), visited := s.visited + {k})
    case GcTakeBig => s.(gc := Checking(s.gc.key, s.gc.id), bigLock := HeldByGc)
    case GcCheck => s.(gc := if s.heap[s.gc.id].count == 0 then Deleting(s.gc.key, s.gc.id) else Leaving)
    case GcDelete => s.(gc := Leaving, mutexes := s.mutexes - {s.gc.key})
    case GcDropBig => s.(gc := Ranging, bigLock := Free)
    case GcEnd => s.(gc := Sleeping)
  }

  // ---------------------------------------------------------------- invariant

  predicate CountedIn(pc: Pc, id: MutexId) {
    !pc.HaveBig? && !pc.Stored? && pc.id == id
  }

  /** The threads between their increment and their decrement of a mutex's count. */
  function Users(threads: map<Thread, Pc>, id: MutexId): set<Thread> {
    set t | t in threads && CountedIn(threads[t], id)
  }

  predicate UnderBig(pc: Pc) {
    pc.HaveBig? || pc.Stored? || pc.Counted?
  }

  /** The big lock is held exactly by the agent whose position says so. */
  ghost predicate BigLockExact(s: State) {
    && (forall t :: t in s.threads && UnderBig(s.threads[t]) ==> s.bigLock == HeldBy(t))
    && (s.gc.Checking? || s.gc.Deleting? || s.gc.Leaving? ==> s.bigLock == HeldByGc)
    && (s.bigLock.HeldBy? ==> s.bigLock.thread in s.threads && UnderBig(s.threads[s.bigLock.thread]))
  }

  /** A thread that has looked its key up uses the mutex the map holds for that key. */
  ghost predicate UsesMapped(s: State) {
    && (forall k :: k in s.mutexes ==> s.mutexes[k] in s.heap)
    && (forall t :: t in s.threads && !s.threads[t].HaveBig? ==>
          s.threads[t].key in s.mutexes && s.mutexes[s.threads[t].key] == s.threads[t].id)
  }

  ghost predicate Injective(s: State) {
    forall k, k' :: k in s.mutexes && k' in s.mutexes && s.mutexes[k] == s.mutexes[k'] ==> k == k'
  }

  ghost predicate CountsExact(s: State) {
    forall id :: id in s.heap ==> s.heap[id].count == |Users(s.threads, id)|
  }

  /** Where a mutex has a thread that is at a given position. */
  predicate Placed(pc: Pc, t: Thread, m: Mutex) {
    match pc
    case Holding(_, mode, _) => if mode == Exclusive then m.writer == Some(t) else t in m.readers
    case Announced(_, mode, _) => mode == Exclusive && m.announced == Some(t)
    case Queued(_, mode, _) => mode == Shared && (t in m.queued || t in m.readers)
    case _ => true
  }

  /** A writer is alone, and readers queue only behind a writer. */
  predicate Exclusion(m: Mutex) {
    && (m.writer.Some? ==> m.readers == {} && m.announced.None?)
    && (m.queued != {} ==> Closed(m))
    && m.queued !! m.readers
  }

  predicate HoldsAs(threads: map<Thread, Pc>, id: MutexId, t: Thread, mode: Mode) {
    t in threads && threads[t].Holding? && threads[t].id == id && threads[t].mode == mode
  }

  predicate QueuedAt(threads: map<Thread, Pc>, id: MutexId, t: Thread) {
    t in threads && threads[t].Queued? && threads[t].id == id
  }

  /** A mutex has exactly the threads whose positions say so. */
  ghost predicate MutexExact(threads: map<Thread, Pc>, id: MutexId, m: Mutex) {
    && Exclusion(m)
    && (forall t :: t in threads && !threads[t].HaveBig? && threads[t].id == id ==> Placed(threads[t], t, m))
    && (m.writer.Some? ==> HoldsAs(threads, id, m.writer.value, Exclusive))
    && (m.announced.Some? ==>
          m.announced.value in threads && threads[m.announced.value].Announced? && threads[m.announced.value].id == id)
    && (forall t :: t in m.readers ==> HoldsAs(threads, id, t, Shared) || QueuedAt(threads, id, t))
    && (forall t :: t in m.queued ==> QueuedAt(threads, id, t))
  }

  ghost predicate HoldersExact(s: State) {
    forall id :: id in s.heap ==> MutexExact(s.threads, id, s.heap[id])
  }

  /** Whatever mapping the sweep may still visit, or is visiting, is the one in the map. */
  ghost predicate SweepCurrent(s: State) {
    && (!s.gc.Sleeping? ==> forall k, id :: (k, id) in s.seen && k !in s.visited ==> k in s.mutexes && s.mutexes[k] == id)
    && (!s.gc.Sleeping? ==> forall k :: k in s.start && k !in s.visited ==> k in s.mutexes)
    && (s.gc.Visiting? || s.gc.Checking? || s.gc.Deleting? ==>
          && s.gc.key in s.mutexes && s.mutexes[s.gc.key] == s.gc.id && s.gc.key in s.visited)
    && (s.gc.Deleting? ==> s.gc.id in s.heap && s.heap[s.gc.id].count == 0)
  }

  ghost predicate Inv(s: State) {
    BigLockExact(s) && UsesMapped(s) && Injective(s) && CountsExact(s) && HoldersExact(s) && SweepCurrent(s)
  }

  // ---------------------------------------------------------------- preservation

  /** How a thread's move changes the users of a mutex. */
  lemma UsersAfterMove(threads: map<Thread, Pc>, t: Thread, pc: Pc, id: MutexId)
    ensures Users(threads[t := pc], id) ==
            if CountedIn(pc, id) then Users(threads, id) + {t} else Users(threads, id) - {t}
  {
  }

  lemma UsersAfterLeave(threads: map<Thread, Pc>, t: Thread, id: MutexId)
    ensures Users(threads - {t}, id) == Users(threads, id) - {t}
  {
  }

  lemma BigLockStep(s: State, step: Step)
    requires BigLockExact(s) && Enabled(s, step)
    ensures BigLockExact(Apply(s, step))
  {
  }

  lemma InjectiveStep(s: State, step: Step)
    requires UsesMapped(s) && Injective(s) && Enabled(s, step)
    ensures Injective(Apply(s, step))
  {
  }

  /** When the sweep deletes, nobody uses the key: a user would be counted, and a thread that has
      looked the key up but not yet counted itself would hold the big lock. */
  lemma NobodyUsesDeleted(s: State, t: Thread)
    requires BigLockExact(s) && UsesMapped(s) && CountsExact(s) && SweepCurrent(s)
    requires s.gc.Deleting? && t in s.threads && !s.threads[t].HaveBig?
    ensures s.threads[t].key != s.gc.key
  {
    assert t in Users(s.threads, s.threads[t].id);
  }

  lemma UsesMappedAfterDelete(s: State, step: Step)
    requires BigLockExact(s) && UsesMapped(s) && CountsExact(s) && SweepCurrent(s) && Enabled(s, step)
    requires step.GcDelete?
    ensures UsesMapped(Apply(s, step))
  {
    forall t | t in s.threads && !s.threads[t].HaveBig?
      ensures s.threads[t].key != s.gc.key
    {
      NobodyUsesDeleted(s, t);
    }
  }

  lemma UsesMappedOtherwise(s: State, step: Step)
    requires UsesMapped(s) && Enabled(s, step) && !step.GcDelete?
    ensures UsesMapped(Apply(s, step))
  {
  }

  /** A move that neither enters nor leaves the counted region, with the counts kept. */
  lemma CountsAfterNeutralMove(s: State, s': State, t: Thread, pc: Pc)
    requires CountsExact(s) && s'.threads == s.threads[t := pc]
    requires forall id :: id in s'.heap ==>
               && CountedIn(pc, id) == (t in s.threads && CountedIn(s.threads[t], id))
               && (if id in s.heap then s'.heap[id].count == s.heap[id].count
                   else s'.heap[id].count == 0 && forall u :: u in s.threads ==> !CountedIn(s.threads[u], id))
    ensures CountsExact(s')
  {
    forall id | id in s'.heap
      ensures s'.heap[id].count == |Users(s'.threads, id)|
    {
      UsersAfterMove(s.threads, t, pc, id);
      assert Users(s'.threads, id) == Users(s.threads, id);
      assert id !in s.heap ==> Users(s.threads, id) == {};
    }
  }

  lemma CountsAfterInc(s: State, step: Step)
    requires CountsExact(s) && Enabled(s, step) && step.Inc?
    ensures CountsExact(Apply(s, step))
  {
    var t, s' := step.t, Apply(s, step);
    forall id | id in s'.heap
      ensures s'.heap[id].count == |Users(s'.threads, id)|
    {
      UsersAfterMove(s.threads, t, s'.threads[t], id);
      assert t !in Users(s.threads, id);
      assert id != s.threads[t].id ==> Users(s'.threads, id) == Users(s.threads, id);
    }
  }

  lemma CountsAfterDec(s: State, step: Step)
    requires CountsExact(s) && Enabled(s, step) && step.Dec?
    ensures CountsExact(Apply(s, step))
  {
    var t, s' := step.t, Apply(s, step);
    forall id | id in s'.heap
      ensures s'.heap[id].count == |Users(s'.threads, id)|
    {
      UsersAfterLeave(s.threads, t, id);
      assert t in Users(s.threads, id) <==> id == s.threads[t].id;
      assert id != s.threads[t].id ==> Users(s'.threads, id) == Users(s.threads, id);
    }
  }

  lemma CountsOnMutex(s: State, step: Step)
    requires CountsExact(s) && Enabled(s, step) && OnMutex(step) && !step.Inc?
    ensures CountsExact(Apply(s, step))
  {
    var s' := Apply(s, step);
    CountsAfterNeutralMove(s, s', step.t, s'.threads[step.t]);
  }

  lemma CountsStep(s: State, step: Step)
    requires UsesMapped(s) && CountsExact(s) && Enabled(s, step)
    ensures CountsExact(Apply(s, step))
  {
    var s' := Apply(s, step);
    match step
    case TakeBig(t, _, _) => CountsAfterNeutralMove(s, s', t, s'.threads[t]);
    case LoadOrStore(t, _) => CountsAfterNeutralMove(s, s', t, s'.threads[t]);
    case Inc(t) => CountsAfterInc(s, step);
    case Dec(t) => CountsAfterDec(s, step);
    case _ =>
      if OnMutex(step) {
        CountsOnMutex(s, step);
      }
  }

  /** A thread that moves on its own mutex, or on none yet, does not concern the other mutexes. */
  lemma OtherMutex(threads: map<Thread, Pc>, t: Thread, pc: Pc, id: MutexId, m: Mutex)
    requires MutexExact(threads, id, m)
    requires t in threads ==> threads[t].HaveBig? || threads[t].id != id
    requires pc.HaveBig? || pc.id != id || pc.Stored?
    ensures MutexExact(threads[t := pc], id, m)
  {
  }

  /** So a step of a thread on its mutex only has to keep that mutex exact. */
  lemma HoldersOn(s: State, t: Thread, pc: Pc, m: Mutex)
    requires HoldersExact(s) && At(s, t) && !pc.HaveBig? && pc.id == s.threads[t].id
    requires MutexExact(s.threads[t := pc], pc.id, m)
    ensures HoldersExact(On(s, t, pc, m))
  {
    forall id | id in s.heap && id != pc.id
      ensures MutexExact(s.threads[t := pc], id, s.heap[id])
    {
      OtherMutex(s.threads, t, pc, id, s.heap[id]);
    }
  }

  /** Counting does not matter to who has a mutex. */
  lemma SameHolders(threads: map<Thread, Pc>, id: MutexId, m: Mutex, count: int, t: Thread, pc: Pc)
    requires MutexExact(threads, id, m) && t in threads && !threads[t].HaveBig? && threads[t].id == id
    requires threads[t].Stored? || threads[t].Counted?
    requires pc == Counted(pc.key, pc.mode, id) || pc == Waiting(pc.key, pc.mode, id)
    ensures MutexExact(threads[t := pc], id, m.(count := count))
  {
  }

  lemma AnnounceExact(threads: map<Thread, Pc>, id: MutexId, m: Mutex, t: Thread)
    requires MutexExact(threads, id, m) && t in threads && threads[t].Waiting? && threads[t].id == id
    requires threads[t].mode == Exclusive && !Closed(m)
    ensures MutexExact(threads[t := Announced(threads[t].key, Exclusive, id)], id, m.(announced := Some(t)))
  {
  }

  lemma QueueExact(threads: map<Thread, Pc>, id: MutexId, m: Mutex, t: Thread)
    requires MutexExact(threads, id, m) && t in threads && threads[t].Waiting? && threads[t].id == id
    requires threads[t].mode == Shared && Closed(m)
    ensures MutexExact(threads[t := Queued(threads[t].key, Shared, id)], id, m.(queued := m.queued + {t}))
  {
    assert t !in m.readers;
  }

  lemma AcquireExact(threads: map<Thread, Pc>, id: MutexId, m: Mutex, t: Thread, m': Mutex)
    requires MutexExact(threads, id, m) && t in threads && !threads[t].HaveBig? && threads[t].id == id
    requires || (threads[t].Waiting? && threads[t].mode == Shared && !Closed(m) && m' == m.(readers := m.readers + {t}))
             || (threads[t].Announced? && m.readers == {} && m' == m.(writer := Some(t), announced := None))
    ensures MutexExact(threads[t := Holding(threads[t].key, threads[t].mode, id)], id, m')
  {
  }

  lemma WakeExact(threads: map<Thread, Pc>, id: MutexId, m: Mutex, t: Thread)
    requires MutexExact(threads, id, m) && t in threads && threads[t].Queued? && threads[t].id == id && t in m.readers
    ensures MutexExact(threads[t := Holding(threads[t].key, threads[t].mode, id)], id, m)
  {
  }

  lemma UnlockExact(threads: map<Thread, Pc>, id: MutexId, m: Mutex, t: Thread, m': Mutex)
    requires MutexExact(threads, id, m) && t in threads && threads[t].Holding? && threads[t].id == id
    requires m' == if threads[t].mode == Exclusive then m.(writer := None, readers := m.queued, queued := {})
                   else m.(readers := m.readers - {t})
    ensures MutexExact(threads[t := Released(threads[t].key, threads[t].mode, id)], id, m')
  {
  }

  lemma ExactWithout(threads: map<Thread, Pc>, t: Thread, id: MutexId, m: Mutex, count: int)
    requires MutexExact(threads, id, m) && t in threads && threads[t].Released?
    ensures MutexExact(threads - {t}, id, m.(count := count))
  {
  }

  lemma HoldersAfterDec(s: State, t: Thread)
    requires HoldersExact(s) && Enabled(s, Dec(t))
    ensures HoldersExact(Apply(s, Dec(t)))
  {
    var s' := Apply(s, Dec(t));
    forall id | id in s.heap
      ensures MutexExact(s'.threads, id, s'.heap[id])
    {
      ExactWithout(s.threads, t, id, s.heap[id], s'.heap[id].count);
    }
  }

  lemma HoldersAfterStore(s: State, t: Thread, n: MutexId)
    requires UsesMapped(s) && HoldersExact(s) && Enabled(s, LoadOrStore(t, n))
    ensures HoldersExact(Apply(s, LoadOrStore(t, n)))
  {
    var s' := Apply(s, LoadOrStore(t, n));
    forall id | id in s.heap
      ensures MutexExact(s'.threads, id, s.heap[id])
    {
      OtherMutex(s.threads, t, s'.threads[t], id, s.heap[id]);
    }
    assert forall u :: u in s.threads && !s.threads[u].HaveBig? ==> s.threads[u].id in s.heap;
  }

  lemma HoldersAfterTake(s: State, step: Step)
    requires HoldersExact(s) && Enabled(s, step) && step.TakeBig?
    ensures HoldersExact(Apply(s, step))
  {
    var pc := HaveBig(step.key, step.mode);
    forall id | id in s.heap
      ensures MutexExact(s.threads[step.t := pc], id, s.heap[id])
    {
      OtherMutex(s.threads, step.t, pc, id, s.heap[id]);
    }
  }

  lemma HoldersStep(s: State, step: Step)
    requires UsesMapped(s) && HoldersExact(s) && Enabled(s, step)
    ensures HoldersExact(Apply(s, step))
  {
    match step
    case TakeBig(_, _, _) => HoldersAfterTake(s, step);
    case LoadOrStore(t, n) => HoldersAfterStore(s, t, n);
    case Dec(t) => HoldersAfterDec(s, t);
    case Inc(_) => HoldersOnMutex(s, step);
    case DropBig(_) => HoldersOnMutex(s, step);
    case Announce(_) => HoldersOnMutex(s, step);
    case Queue(_) => HoldersOnMutex(s, step);
    case Acquire(_) => HoldersOnMutex(s, step);
    case Wake(_) => HoldersOnMutex(s, step);
    case Unlock(_) => HoldersOnMutex(s, step);
    case _ =>
  }

  predicate OnMutex(step: Step) {
    step.Inc? || step.DropBig? || step.Announce? || step.Queue? || step.Acquire? || step.Wake? || step.Unlock?
  }

  lemma HoldersOnMutex(s: State, step: Step)
    requires HoldersExact(s) && Enabled(s, step) && OnMutex(step)
    ensures HoldersExact(Apply(s, step))
  {
    match step
    case Inc(t) => HoldersAfterInc(s, t);
    case DropBig(t) => HoldersAfterDropBig(s, t);
    case Announce(t) =>
      var pc := s.threads[t];
      AnnounceExact(s.threads, pc.id, s.heap[pc.id], t);
      HoldersOn(s, t, Announced(pc.key, Exclusive, pc.id), s.heap[pc.id].(announced := Some(t)));
    case Queue(t) =>
      var pc := s.threads[t];
      var m := s.heap[pc.id];
      QueueExact(s.threads, pc.id, m, t);
      HoldersOn(s, t, Queued(pc.key, Shared, pc.id), m.(queued := m.queued + {t}));
    case _ => HoldersTaking(s, step);
  }

  lemma HoldersAfterInc(s: State, t: Thread)
    requires HoldersExact(s) && Enabled(s, Inc(t))
    ensures HoldersExact(Apply(s, Inc(t)))
  {
    var pc := s.threads[t];
    var m := s.heap[pc.id];
    assert MutexExact(s.threads, pc.id, m);
    SameHolders(s.threads, pc.id, m, m.count + 1, t, Counted(pc.key, pc.mode, pc.id));
    HoldersOn(s, t, Counted(pc.key, pc.mode, pc.id), m.(count := m.count + 1));
    assert Apply(s, Inc(t)) == On(s, t, Counted(pc.key, pc.mode, pc.id), m.(count := m.count + 1));
  }

  lemma HoldersAfterDropBig(s: State, t: Thread)
    requires HoldersExact(s) && Enabled(s, DropBig(t))
    ensures HoldersExact(Apply(s, DropBig(t)))
  {
    var pc := s.threads[t];
    var m := s.heap[pc.id];
    assert MutexExact(s.threads, pc.id, m);
    SameHolders(s.threads, pc.id, m, m.count, t, Waiting(pc.key, pc.mode, pc.id));
    HoldersOn(s, t, Waiting(pc.key, pc.mode, pc.id), m);
  }

  lemma HoldersTaking(s: State, step: Step)
    requires HoldersExact(s) && Enabled(s, step) && (step.Acquire? || step.Wake? || step.Unlock?)
    ensures HoldersExact(Apply(s, step))
  {
    var t := step.t;
    var pc := s.threads[t];
    var m, m' := s.heap[pc.id], Apply(s, step).heap[pc.id];
    match step {
      case Acquire(_) => AcquireExact(s.threads, pc.id, m, t, m');
      case Wake(_) => WakeExact(s.threads, pc.id, m, t);
      case Unlock(_) => UnlockExact(s.threads, pc.id, m, t, m');
    }
    HoldersOn(s, t, Apply(s, step).threads[t], m');
  }

  lemma SweepAfterThreadStep(s: State, step: Step)
    requires BigLockExact(s) && CountsExact(s) && SweepCurrent(s) && Enabled(s, step)
    requires step.TakeBig? || step.LoadOrStore? || step.Dec? || OnMutex(step)
    ensures SweepCurrent(Apply(s, step))
  {
    if step.Dec? {
      assert step.t in Users(s.threads, s.threads[step.t].id);
    }
  }

  lemma SweepStep(s: State, step: Step)
    requires BigLockExact(s) && UsesMapped(s) && CountsExact(s) && SweepCurrent(s) && Enabled(s, step)
    ensures SweepCurrent(Apply(s, step))
  {
    match step
    case GcStart =>
    case GcVisit(_, _) =>
    case GcTakeBig =>
    case GcCheck =>
    case GcDelete =>
    case GcDropBig =>
    case GcEnd =>
    case _ => SweepAfterThreadStep(s, step);
  }

  lemma StepInv(s: State, step: Step)
    requires Inv(s) && Enabled(s, step)
    ensures Inv(Apply(s, step))
  {
    BigLockStep(s, step);
    if step.GcDelete? {
      UsesMappedAfterDelete(s, step);
    } else {
      UsesMappedOtherwise(s, step);
    }
    InjectiveStep(s, step);
    CountsStep(s, step);
    HoldersStep(s, step);
    SweepStep(s, step);
  }

  // ---------------------------------------------------------------- runs

  ghost predicate Follows(run: seq<State>, steps: seq<Step>, k: nat)
    requires k < |steps| < |run|
  {
    Enabled(run[k], steps[k]) && run[k + 1] == Apply(run[k], steps[k])
  }

  ghost predicate IsRun(run: seq<State>, steps: seq<Step>) {
    |run| == |steps| + 1 && Init(run[0]) && forall k :: 0 <= k < |steps| ==> Follows(run, steps, k)
  }

  lemma {:induction false} RunInv(run: seq<State>, steps: seq<Step>, k: nat)
    requires IsRun(run, steps) && k < |run|
    ensures Inv(run[k])
  {
    if k > 0 {
      RunInv(run, steps, k - 1);
      assert Follows(run, steps, k - 1);
      StepInv(run[k - 1], steps[k - 1]);
    }
  }

  /** Per-key mutual exclusion, across any number of sweeps: two threads between looking a key up
      and giving its count back use one mutex, which is the one in the map; and a thread that holds
      the key exclusively is the only one that holds it. */
  lemma MutualExclusion(run: seq<State>, steps: seq<Step>, k: nat, t: Thread, u: Thread)
    requires IsRun(run, steps) && k < |run| && t != u
    requires t in run[k].threads && u in run[k].threads
    requires var p, q := run[k].threads[t], run[k].threads[u];
             !p.HaveBig? && !q.HaveBig? && p.key == q.key
    ensures var s := run[k];
            var p, q := s.threads[t], s.threads[u];
            && p.id == q.id && p.key in s.mutexes && s.mutexes[p.key] == p.id
            && !(p.Holding? && q.Holding? && p.mode == Exclusive)
  {
    RunInv(run, steps, k);
  }

  /** Different keys never share a mutex, so they never block each other. */
  lemma KeysAreIndependent(run: seq<State>, steps: seq<Step>, k: nat, t: Thread, u: Thread)
    requires IsRun(run, steps) && k < |run| && t in run[k].threads && u in run[k].threads
    requires var p, q := run[k].threads[t], run[k].threads[u];
             !p.HaveBig? && !q.HaveBig? && p.key != q.key
    ensures run[k].threads[t].id != run[k].threads[u].id
  {
    RunInv(run, steps, k);
  }

  /** A thread that wants a key and does not have it yet. */
  predicate Wants(pc: Pc, key: string) {
    (pc.Waiting? || pc.Announced? || pc.Queued?) && pc.key == key
  }

  predicate Has(pc: Pc, key: string, mode: Mode) {
    pc.Holding? && pc.key == key && pc.mode == mode
  }

  /** Some thread has the key exclusively, or has announced that it wants it. */
  ghost predicate WriterAround(s: State, key: string) {
    exists u :: u in s.threads && (Has(s.threads[u], key, Exclusive) || (s.threads[u].Announced? && s.threads[u].key == key))
  }

  lemma ClosedMeansWriterAround(s: State, t: Thread)
    requires Inv(s) && t in s.threads && !s.threads[t].HaveBig?
    ensures Closed(s.heap[s.threads[t].id]) <==> WriterAround(s, s.threads[t].key)
  {
    var id, key := s.threads[t].id, s.threads[t].key;
    var m := s.heap[id];
    assert MutexExact(s.threads, id, m);
    if m.writer.Some? {
      assert Has(s.threads[m.writer.value], key, Exclusive);
    } else if m.announced.Some? {
      assert s.threads[m.announced.value].Announced? && s.threads[m.announced.value].key == key;
    }
    forall u | u in s.threads && (Has(s.threads[u], key, Exclusive) || (s.threads[u].Announced? && s.threads[u].key == key))
      ensures Closed(m)
    {
      assert s.threads[u].id == id;
    }
  }

  /** A reader that arrives gets the key at once if and only if no thread has it exclusively or has
      announced that it wants it exclusively, however many readers there are; otherwise it queues. */
  lemma ReaderGoesOnExactly(run: seq<State>, steps: seq<Step>, k: nat, t: Thread)
    requires IsRun(run, steps) && k < |run| && t in run[k].threads
    requires run[k].threads[t].Waiting? && run[k].threads[t].mode == Shared
    ensures Enabled(run[k], Acquire(t)) <==> !WriterAround(run[k], run[k].threads[t].key)
    ensures Enabled(run[k], Queue(t)) <==> WriterAround(run[k], run[k].threads[t].key)
  {
    RunInv(run, steps, k);
    ClosedMeansWriterAround(run[k], t);
  }

  /** A writer that arrives can announce itself under the same condition. */
  lemma WriterAnnouncesExactly(run: seq<State>, steps: seq<Step>, k: nat, t: Thread)
    requires IsRun(run, steps) && k < |run| && t in run[k].threads
    requires run[k].threads[t].Waiting? && run[k].threads[t].mode == Exclusive
    ensures Enabled(run[k], Announce(t)) <==> !WriterAround(run[k], run[k].threads[t].key)
  {
    RunInv(run, steps, k);
    ClosedMeansWriterAround(run[k], t);
  }

  /** While readers have a key, a writer that has announced itself keeps new readers out: the reader is
      not enabled though every holder is a reader. */
  lemma WaitingWriterBlocksReaders(run: seq<State>, steps: seq<Step>, k: nat, t: Thread, w: Thread)
    requires IsRun(run, steps) && k < |run| && t in run[k].threads && w in run[k].threads
    requires run[k].threads[w].Announced? && run[k].threads[t].Waiting? && run[k].threads[t].mode == Shared
    requires run[k].threads[t].key == run[k].threads[w].key
    ensures !Enabled(run[k], Acquire(t))
    ensures forall u :: u in run[k].threads && run[k].threads[u].Holding? ==>
              run[k].threads[u].key != run[k].threads[w].key || run[k].threads[u].mode == Shared
  {
    RunInv(run, steps, k);
    ClosedMeansWriterAround(run[k], t);
    var id := run[k].threads[w].id;
    assert MutexExact(run[k].threads, id, run[k].heap[id]);
  }

  /** A step that brings the thread that takes it closer to its key. */
  predicate GoesOn(step: Step) {
    step.Announce? || step.Acquire? || step.Wake?
  }

  /** Whenever a thread wants a key that nobody has, some thread that wants that key can go on: no set
      of waiting readers and writers blocks itself. */
  lemma SomeWaiterGoesOn(run: seq<State>, steps: seq<Step>, k: nat, t: Thread) returns (step: Step)
    requires IsRun(run, steps) && k < |run| && t in run[k].threads && Wants(run[k].threads[t], run[k].threads[t].key)
    requires forall u :: u in run[k].threads && run[k].threads[u].Holding? ==> run[k].threads[u].key != run[k].threads[t].key
    ensures GoesOn(step) && Enabled(run[k], step) && Wants(run[k].threads[step.t], run[k].threads[t].key)
  {
    RunInv(run, steps, k);
    var s := run[k];
    var id := s.threads[t].id;
    var m := s.heap[id];
    assert MutexExact(s.threads, id, m);
    if m.readers != {} {
      var u :| u in m.readers;
      assert QueuedAt(s.threads, id, u);
      step := Wake(u);
    } else if m.announced.Some? {
      step := Acquire(m.announced.value);
    } else {
      assert m.writer.None? && m.queued == {};
      step := if s.threads[t].mode == Exclusive then Announce(t) else Acquire(t);
    }
  }

  lemma ServedByUnlock(s: State, t: Thread, w: Thread)
    requires Inv(s) && Enabled(s, Unlock(w)) && s.threads[w].mode == Exclusive
    requires t in s.threads && s.threads[t].Queued? && s.threads[t].key == s.threads[w].key
    ensures var s' := Apply(s, Unlock(w));
            t in s'.threads && s'.threads[t] == s.threads[t] && t in s'.heap[s.threads[t].id].readers
  {
    assert s.threads[t].id == s.threads[w].id;
    assert MutexExact(s.threads, s.threads[t].id, s.heap[s.threads[t].id]);
  }

  /** A queued reader waits for one writer only: when that writer gives the key back, the reader has
      it, and no other writer gets in before it. */
  lemma QueuedReaderIsServedNext(run: seq<State>, steps: seq<Step>, k: nat, t: Thread, w: Thread)
    requires IsRun(run, steps) && k < |steps| && steps[k] == Unlock(w)
    requires t in run[k].threads && run[k].threads[t].Queued?
    requires w in run[k].threads && Has(run[k].threads[w], run[k].threads[t].key, Exclusive)
    ensures Enabled(run[k + 1], Wake(t))
    ensures forall u :: u in run[k + 1].threads && run[k + 1].threads[u].Announced? ==>
              run[k + 1].threads[u].id != run[k + 1].threads[t].id || !Enabled(run[k + 1], Acquire(u))
  {
    RunInv(run, steps, k);
    assert Follows(run, steps, k);
    ServedByUnlock(run[k], t, w);
  }

  /** Every count is the number of threads between their increment and their decrement. */
  lemma CountsAreExact(run: seq<State>, steps: seq<Step>, k: nat, id: MutexId)
    requires IsRun(run, steps) && k < |run| && id in run[k].heap
    ensures run[k].heap[id].count == |Users(run[k].threads, id)|
    ensures run[k].heap[id].count >= 0
  {
    RunInv(run, steps, k);
  }

  /** The pair a sweep deletes is the one it observed and still the current one, and no thread is
      between looking that key up and giving its count back. */
  lemma GcDeletesOnlyUnused(run: seq<State>, steps: seq<Step>, k: nat)
    requires IsRun(run, steps) && k < |steps| && steps[k] == GcDelete
    ensures run[k].gc.Deleting?
    ensures run[k].gc.key in run[k].mutexes && run[k].mutexes[run[k].gc.key] == run[k].gc.id
    ensures forall t :: t in run[k].threads && !run[k].threads[t].HaveBig? ==>
              run[k].threads[t].key != run[k].gc.key
  {
    RunInv(run, steps, k);
    assert Follows(run, steps, k);
    forall t | t in run[k].threads && !run[k].threads[t].HaveBig?
      ensures run[k].threads[t].key != run[k].gc.key
    {
      NobodyUsesDeleted(run[k], t);
    }
  }

  // ---------------------------------------------------------------- a quiet sweep

  /** What a sweep has achieved while no thread was active: every key it is done with is gone. */
  ghost predicate SweptSoFar(s: State) {
    && !s.gc.Sleeping?
    && s.mutexes.Keys <= s.start
    && (forall k :: k in s.visited && k in s.mutexes ==>
          (s.gc.Visiting? || s.gc.Checking? || s.gc.Deleting?) && s.gc.key == k)
  }

  lemma QuietSweepStep(s: State, step: Step)
    requires Inv(s) && Enabled(s, step) && SweptSoFar(s) && s.threads == map[]
    requires Apply(s, step).threads == map[] && !step.GcEnd?
    ensures SweptSoFar(Apply(s, step))
  {
    if step.GcCheck? {
      assert Users(s.threads, s.gc.id) == {};
    }
  }

  lemma {:induction false} QuietSweep(run: seq<State>, steps: seq<Step>, a: nat, b: nat)
    requires IsRun(run, steps) && a < b < |run| && steps[a] == GcStart
    requires forall k :: a <= k <= b ==> run[k].threads == map[]
    requires forall k :: a < k < b ==> steps[k] != GcEnd
    ensures SweptSoFar(run[b])
    decreases b
  {
    assert Follows(run, steps, b - 1);
    if a + 1 < b {
      QuietSweep(run, steps, a, b - 1);
      RunInv(run, steps, b - 1);
      QuietSweepStep(run[b - 1], steps[b - 1]);
    }
  }

  /** A full sweep during which no thread is active empties the map. */
  lemma QuietSweepEmptiesMap(run: seq<State>, steps: seq<Step>, a: nat, b: nat)
    requires IsRun(run, steps) && a < b < |steps| && steps[a] == GcStart && steps[b] == GcEnd
    requires forall k :: a <= k <= b ==> run[k].threads == map[]
    requires forall k :: a < k < b ==> steps[k] != GcEnd
    ensures run[b + 1].mutexes == map[]
  {
    QuietSweep(run, steps, a, b);
    assert Follows(run, steps, b);
    assert run[b].mutexes.Keys == {};
  }
}
