/**
 The portable read/write lock that prefers writers: a writer that is queued keeps new readers out.

 Any number of threads run it, one access to shared data at a time. A wait gives up the mutex; a
 waiting thread may be woken by a signal (at least one waiting thread if there is any), by a broadcast
 (all of them), or for no reason; and a woken thread must take the mutex again before it goes on.
 */
module RwLock {

  import opened Threads

  datatype PC =
    | Idle             // outside, without a lock
    | RdLocking        // rdlock: about to lock the mutex
    | RdLoop           //         about to test the wait loop's condition
    | RdWaiting        //         asleep on `readers`
    | RdWoken          //         woken, without the mutex
    | TryRdLocking     // tryrdlock: about to lock the mutex
    | TryRdTest        //         about to test whether it may have the lock
    | RdEnter          // either: about to count itself
    | RdRelease        //         about to unlock the mutex
    | Reading          // outside, with a read lock
    | WrLocking        // wrlock: about to lock the mutex
    | WrQueue          //         about to count itself as queued
    | WrLoop           //         about to test the wait loop's condition
    | WrWaiting        //         asleep on `writers`
    | WrWoken          //         woken, without the mutex
    | WrEnter          //         about to mark the lock as taken
    | WrLeave          //         about to count itself out
    | TryWrLocking     // trywrlock: about to lock the mutex
    | TryWrTest        //         about to test whether it may have the lock
    | TryWrEnter       //         about to mark the lock as taken
    | WrRelease        // either: about to unlock the mutex
    | Writing          // outside, with the write lock
    | Busy(write: bool)       // a try for either lock: refused, about to unlock the mutex
    | UnLocking(write: bool)  // unlock: about to lock the mutex
    | UnTest(write: bool)     //         about to test which lock is released
    | UnFree(write: bool)     //         writer: about to mark the lock as available
    | UnWaiters        //                 about to test for queued writers
    | UnBroadcast      //                 about to wake all readers
    | UnCount(write: bool)    //         reader: about to count itself out
    | UnLast           //                 about to test whether it was the last one
    | UnSignal         // either branch: about to signal a writer
    | UnRelease        //                about to unlock the mutex

  datatype Lock = Lock(mutex: Owner, state: int, waiters: int, pc: map<Tid, PC>)

  datatype Move = Go | AskRead | TryRead | AskWrite | TryWrite | Wake(woken: set<Tid>) | Spurious

  ghost function Sleepers(s: Lock, p: PC): set<Tid> {
    set t | t in s.pc && s.pc[t] == p
  }

  ghost predicate Enabled(s: Lock, t: Tid, m: Move) {
    t in s.pc &&
    match s.pc[t]
    case Idle => m in {AskRead, TryRead, AskWrite, TryWrite}
    case RdLocking | RdWoken | TryRdLocking | WrLocking | WrWoken | TryWrLocking => m == Go && s.mutex == Nobody
    case UnLocking(_) => m == Go && s.mutex == Nobody
    case RdWaiting | WrWaiting => m == Spurious
    case UnSignal => m.Wake? && m.woken <= Sleepers(s, WrWaiting) && (m.woken == {} ==> Sleepers(s, WrWaiting) == {})
    case UnBroadcast => m.Wake? && m.woken == Sleepers(s, RdWaiting)
    case _ => m == Go
  }

  /** A thread's own place, and the shared data. */
  datatype View = View(pc: PC, mutex: Owner, state: int, waiters: int)

  function ViewOf(s: Lock, t: Tid): View
    requires t in s.pc
  {
    View(s.pc[t], s.mutex, s.state, s.waiters)
  }

  /** What one step of thread t does to its own place and to the shared data. */
  function Act(v: View, t: Tid, m: Move): View {
    match v.pc
    case Idle => v.(pc := if m == AskRead then RdLocking else if m == TryRead then TryRdLocking
                          else if m == AskWrite then WrLocking else TryWrLocking)
    case RdLocking => v.(pc := RdLoop, mutex := By(t))
    case RdLoop => if v.state < 0 || v.waiters != 0 then v.(pc := RdWaiting, mutex := Nobody) else v.(pc := RdEnter)
    case RdWaiting => v.(pc := RdWoken)
    case RdWoken => v.(pc := RdLoop, mutex := By(t))
    case TryRdLocking => v.(pc := TryRdTest, mutex := By(t))
    case TryRdTest => v.(pc := if v.state < 0 || v.waiters != 0 then Busy(false) else RdEnter)
    case RdEnter => v.(pc := RdRelease, state := v.state + 1)
    case RdRelease => v.(pc := Reading, mutex := Nobody)
    case Reading => v.(pc := UnLocking(false))
    case WrLocking => v.(pc := WrQueue, mutex := By(t))
    case WrQueue => v.(pc := WrLoop, waiters := v.waiters + 1)
    case WrLoop => if v.state != 0 then v.(pc := WrWaiting, mutex := Nobody) else v.(pc := WrEnter)
    case WrWaiting => v.(pc := WrWoken)
    case WrWoken => v.(pc := WrLoop, mutex := By(t))
    case WrEnter => v.(pc := WrLeave, state := -1)
    case WrLeave => v.(pc := WrRelease, waiters := v.waiters - 1)
    case TryWrLocking => v.(pc := TryWrTest, mutex := By(t))
    case TryWrTest => v.(pc := if v.state != 0 then Busy(true) else TryWrEnter)
    case TryWrEnter => v.(pc := WrRelease, state := -1)
    case WrRelease => v.(pc := Writing, mutex := Nobody)
    case Writing => v.(pc := UnLocking(true))
    case Busy(_) => v.(pc := Idle, mutex := Nobody)
    case UnLocking(write) => v.(pc := UnTest(write), mutex := By(t))
    case UnTest(write) => v.(pc := if v.state == -1 then UnFree(write) else UnCount(write))
    case UnFree(_) => v.(pc := UnWaiters, state := 0)
    case UnWaiters => v.(pc := if v.waiters != 0 then UnSignal else UnBroadcast)
    case UnBroadcast => v.(pc := UnRelease)
    case UnCount(_) => v.(pc := UnLast, state := v.state - 1)
    case UnLast => v.(pc := if v.state == 0 && v.waiters != 0 then UnSignal else UnRelease)
    case UnSignal => v.(pc := UnRelease)
    case UnRelease => v.(pc := Idle, mutex := Nobody)
  }

  /** Where a thread is after it has been woken. */
  function Woken(p: PC): PC {
    if p == WrWaiting then WrWoken else if p == RdWaiting then RdWoken else p
  }

  /** One step of thread t: its own, and the waking of others. */
  function Next(s: Lock, t: Tid, m: Move): (u: Lock)
    requires Enabled(s, t, m)
  {
    var v := Act(ViewOf(s, t), t, m);
    Lock(v.mutex, v.state, v.waiters,
         map w | w in s.pc :: if w == t then v.pc else if m.Wake? && w in m.woken then Woken(s.pc[w]) else s.pc[w])
  }

  function Initial(threads: set<Tid>): Lock {
    Lock(Nobody, 0, 0, map t | t in threads :: Idle)
  }

  // ---------- counting threads ----------

  /** Threads at these places hold the mutex. */
  predicate Holds(p: PC) {
    match p
    case RdLoop | TryRdTest | RdEnter | RdRelease | WrQueue | WrLoop | WrEnter | WrLeave => true
    case TryWrTest | TryWrEnter | WrRelease | Busy(_) => true
    case UnTest(_) | UnFree(_) | UnCount(_) => true
    case UnWaiters | UnBroadcast | UnLast | UnSignal | UnRelease => true
    case _ => false
  }

  /** They have a read lock that they have not given back yet. */
  predicate Reads(p: PC) {
    match p
    case RdRelease | Reading => true
    case UnLocking(write) => !write
    case UnTest(write) => !write
    case UnCount(_) => true
    case _ => false
  }

  /** They have the write lock, and have not given it back yet. */
  predicate Writes(p: PC) {
    match p
    case WrLeave | WrRelease | Writing => true
    case UnLocking(write) => write
    case UnTest(write) => write
    case UnFree(_) => true
    case _ => false
  }

  /** They are queued writers. */
  predicate Queues(p: PC) {
    (p.WrLoop? || p.WrWaiting? || p.WrWoken? || p.WrEnter? || p.WrLeave?)
  }

  ghost function Readers(s: Lock): set<Tid> {
    set t | t in s.pc && Reads(s.pc[t])
  }

  ghost function Writers(s: Lock): set<Tid> {
    set t | t in s.pc && Writes(s.pc[t])
  }

  ghost function Queued(s: Lock): set<Tid> {
    set t | t in s.pc && Queues(s.pc[t])
  }

  // ---------- the invariant ----------

  /** At these places the next step is to lock the mutex. */
  predicate Locks(p: PC) {
    p.RdLocking? || p.RdWoken? || p.TryRdLocking? || p.WrLocking? || p.WrWoken? || p.TryWrLocking? || p.UnLocking?
  }

  predicate ViewOk(v: View, t: Tid) {
    && (Holds(v.pc) <==> v.mutex == By(t))
    && (v.pc.RdEnter? ==> v.state >= 0 && v.waiters == 0)
    && (v.pc.WrEnter? || v.pc.TryWrEnter? || v.pc.UnWaiters? || v.pc.UnBroadcast? ==> v.state == 0)
    && (v.pc.UnBroadcast? ==> v.waiters == 0)
    && (v.pc.UnSignal? ==> v.state == 0 && v.waiters != 0)
    && (v.pc.Busy? ==> v.state < 0 || (if v.pc.write then v.state > 0 else v.waiters > 0))
    && v.pc != UnFree(false) && v.pc != UnCount(true)
  }

  /** What each thread's place says about the lock. */
  ghost predicate ThreadOk(s: Lock, t: Tid)
    requires t in s.pc
  {
    ViewOk(ViewOf(s, t), t)
  }

  /** -1 stands for one writer, and any other state is the number of readers. */
  ghost predicate StateOk(s: Lock) {
    if s.state == -1 then |Writers(s)| == 1 && |Readers(s)| == 0
    else Writers(s) == {} && s.state == |Readers(s)|
  }

  /** The holder of the mutex at one of these places signals a writer before it lets go, or takes the
      lock itself, as long as the lock is free. */
  predicate WillSignal(p: PC) {
    (p.UnWaiters? || p.UnLast? || p.UnSignal? || p.WrLoop? || p.WrEnter?)
  }

  /** A writer sleeps on a free lock only while another writer is woken, or a signal is on its way. */
  ghost predicate WritersNotStranded(s: Lock) {
    s.state == 0 && Sleepers(s, WrWaiting) != {} ==>
      || Sleepers(s, WrWoken) != {}
      || (s.mutex.By? && s.mutex.tid in s.pc && WillSignal(s.pc[s.mutex.tid]))
  }

  /** A reader sleeps only while a writer has the lock or is queued, or a broadcast is on its way. */
  ghost predicate ReadersNotStranded(s: Lock) {
    Sleepers(s, RdWaiting) != {} ==>
      || s.state < 0 || s.waiters > 0
      || (s.mutex.By? && s.mutex.tid in s.pc && (s.pc[s.mutex.tid].UnWaiters? || s.pc[s.mutex.tid].UnBroadcast?))
  }

  ghost predicate Inv(s: Lock) {
    && (s.mutex.By? ==> s.mutex.tid in s.pc)
    && StateOk(s) && s.waiters == |Queued(s)|
    && (forall t :: t in s.pc ==> ThreadOk(s, t))
    && WritersNotStranded(s) && ReadersNotStranded(s)
  }

  lemma InitialOk(threads: set<Tid>)
    ensures Inv(Initial(threads))
  {
    var s := Initial(threads);
    assert Readers(s) == {} && Writers(s) == {} && Queued(s) == {};
    assert Sleepers(s, WrWaiting) == {} && Sleepers(s, RdWaiting) == {};
  }

  /** A step moves one thread, or wakes sleeping ones. */
  lemma StepMoves(s: Lock, t: Tid, m: Move, w: Tid)
    requires Enabled(s, t, m) && w in s.pc
    ensures var u := Next(s, t, m);
            && u.pc.Keys == s.pc.Keys
            && (w != t ==>
                  || u.pc[w] == s.pc[w]
                  || (s.pc[w] == WrWaiting && u.pc[w] == WrWoken)
                  || (s.pc[w] == RdWaiting && u.pc[w] == RdWoken))
  {
  }

  lemma StepCounts(s: Lock, t: Tid, m: Move)
    requires Enabled(s, t, m)
    ensures var u := Next(s, t, m);
            && u.pc.Keys == s.pc.Keys
            && |Readers(u)| == |Readers(s)| - (if Reads(s.pc[t]) then 1 else 0) + (if Reads(u.pc[t]) then 1 else 0)
            && |Writers(u)| == |Writers(s)| - (if Writes(s.pc[t]) then 1 else 0) + (if Writes(u.pc[t]) then 1 else 0)
            && |Queued(u)| == |Queued(s)| - (if Queues(s.pc[t]) then 1 else 0) + (if Queues(u.pc[t]) then 1 else 0)
  {
    hide Next;
    var u := Next(s, t, m);
    forall w | w in s.pc
      ensures w in u.pc
      ensures w != t ==> Reads(u.pc[w]) == Reads(s.pc[w]) && Writes(u.pc[w]) == Writes(s.pc[w])
      ensures w != t ==> Queues(u.pc[w]) == Queues(s.pc[w])
    {
      StepMoves(s, t, m, w);
    }
    StepMoves(s, t, m, t);
    SameButOne(Readers(s), Readers(u), t);
    SameButOne(Writers(s), Writers(u), t);
    SameButOne(Queued(s), Queued(u), t);
  }

  /** Unlock takes the branch of the lock that the caller has. */
  lemma OwnBranch(s: Lock, t: Tid, write: bool)
    requires Inv(s) && t in s.pc && s.pc[t] == UnTest(write)
    ensures (s.state == -1) == write && s.state != 0
  {
    if write { assert t in Writers(s); } else { assert t in Readers(s); }
  }

  lemma ActOk(v: View, t: Tid, m: Move)
    requires ViewOk(v, t) && v.waiters >= 0 && v.state >= -1
    requires Locks(v.pc) ==> v.mutex == Nobody
    requires v.pc.UnTest? ==> (v.state == -1) == v.pc.write
    ensures ViewOk(Act(v, t, m), t)
  {
  }

  lemma StepSelf(s: Lock, t: Tid, m: Move)
    requires Inv(s) && Enabled(s, t, m)
    ensures ThreadOk(Next(s, t, m), t)
  {
    hide ViewOk, Act, Sleepers;
    assert ThreadOk(s, t);
    if s.pc[t].UnTest? { OwnBranch(s, t, s.pc[t].write); }
    StateRange(s);
    ActOk(ViewOf(s, t), t, m);
  }

  lemma StateRange(s: Lock)
    requires Inv(s)
    ensures s.state >= -1 && s.waiters >= 0
  {
  }

  /** Only the holder of the mutex changes the state and the number of waiters. */
  lemma StepFrame(s: Lock, t: Tid, m: Move)
    requires Inv(s) && Enabled(s, t, m)
    ensures var u := Next(s, t, m);
            && (s.mutex != By(t) ==> u.state == s.state && u.waiters == s.waiters)
            && (u.mutex != s.mutex ==> s.mutex in {Nobody, By(t)} && u.mutex in {Nobody, By(t)})
  {
    assert ThreadOk(s, t);
  }

  lemma StepThread(s: Lock, t: Tid, m: Move, w: Tid)
    requires Inv(s) && Enabled(s, t, m) && w in s.pc
    ensures w in Next(s, t, m).pc && ThreadOk(Next(s, t, m), w)
  {
    hide Next, Readers, Writers, Queued, Sleepers, WritersNotStranded, ReadersNotStranded, StateOk;
    StepMoves(s, t, m, w);
    if w == t {
      StepSelf(s, t, m);
    } else {
      assert ThreadOk(s, t) && ThreadOk(s, w);
      StepFrame(s, t, m);
    }
  }

  /** What a step does to the state goes together with what it does to the thread's own lock. */
  lemma ActState(v: View, t: Tid, m: Move)
    requires ViewOk(v, t) && (v.pc.UnTest? ==> (v.state == -1) == v.pc.write)
    ensures var u := Act(v, t, m);
            || (u.state == v.state && Reads(u.pc) == Reads(v.pc) && Writes(u.pc) == Writes(v.pc))
            || (0 <= v.state == u.state - 1 && !Reads(v.pc) && Reads(u.pc) && !Writes(v.pc) && !Writes(u.pc))
            || (u.state == v.state - 1 && Reads(v.pc) && !Reads(u.pc) && !Writes(v.pc) && !Writes(u.pc))
            || (v.state == 0 && u.state == -1 && !Writes(v.pc) && Writes(u.pc) && !Reads(v.pc) && !Reads(u.pc))
            || (u.state == 0 && Writes(v.pc) && !Writes(u.pc) && !Reads(v.pc) && !Reads(u.pc))
  {
  }

  lemma ActWaiters(v: View, t: Tid, m: Move)
    ensures var u := Act(v, t, m);
            u.waiters == v.waiters - (if Queues(v.pc) then 1 else 0) + (if Queues(u.pc) then 1 else 0)
  {
  }

  lemma StepState(s: Lock, t: Tid, m: Move)
    requires Inv(s) && Enabled(s, t, m)
    ensures StateOk(Next(s, t, m)) && Next(s, t, m).waiters == |Queued(Next(s, t, m))|
  {
    hide Act, Readers, Writers, Queued, Sleepers, WritersNotStranded, ReadersNotStranded, ViewOk, Reads, Writes, Queues;
    assert ThreadOk(s, t);
    StepCounts(s, t, m);
    if s.pc[t].UnTest? { OwnBranch(s, t, s.pc[t].write); }
    if Writes(s.pc[t]) { Counted(s, t); }
    if Reads(s.pc[t]) { CountedReader(s, t); }
    ActState(ViewOf(s, t), t, m);
    ActWaiters(ViewOf(s, t), t, m);
    NoWriters(Next(s, t, m));
  }

  lemma CountedReader(s: Lock, t: Tid)
    requires t in s.pc && Reads(s.pc[t])
    ensures |Readers(s)| > 0
  {
    assert t in Readers(s);
  }

  lemma NoWriters(s: Lock)
    ensures |Writers(s)| == 0 ==> Writers(s) == {}
  {
  }

  lemma Counted(s: Lock, t: Tid)
    requires t in s.pc && Writes(s.pc[t])
    ensures |Writers(s)| > 0
  {
    assert t in Writers(s);
  }

  lemma ActSignals(v: View, t: Tid, m: Move)
    requires ViewOk(v, t) && (Locks(v.pc) ==> v.mutex == Nobody)
    ensures var u := Act(v, t, m);
            && (u.pc.WrWaiting? ==> u.state != 0 || v.pc.WrWaiting?)
            && (v.state != 0 && u.state == 0 ==> u.mutex == By(t) && WillSignal(u.pc))
            && (v.state == 0 == u.state && v.waiters > 0 && WillSignal(v.pc) && !v.pc.UnSignal? ==>
                  u.mutex == By(t) && WillSignal(u.pc))
            && (v.pc.WrWoken? ==> u.mutex == By(t) && WillSignal(u.pc))
            && (v.mutex != Nobody && v.mutex != By(t) ==> u.mutex == v.mutex)
  {
  }

  lemma StepWriters(s: Lock, t: Tid, m: Move)
    requires Inv(s) && Enabled(s, t, m)
    ensures WritersNotStranded(Next(s, t, m))
  {
    hide Act, Readers, Writers, StateOk, ReadersNotStranded, Holds;
    var u := Next(s, t, m);
    assert ThreadOk(s, t);
    ActSignals(ViewOf(s, t), t, m);
    if z :| z in Sleepers(u, WrWaiting) {
      assert z == t || (z in Sleepers(s, WrWaiting) && z in Queued(s));
      if u.state == 0 && s.state == 0 {
        if y :| y in Sleepers(s, WrWoken) {
          assert y == t || y in Sleepers(u, WrWoken);
        } else if s.pc[t] == UnSignal {
          var y :| y in m.woken;
          assert y in Sleepers(u, WrWoken);
        }
      }
    }
  }

  lemma ActReaders(v: View, t: Tid, m: Move)
    requires ViewOk(v, t) && v.waiters >= 0 && (Locks(v.pc) ==> v.mutex == Nobody) && (Writes(v.pc) ==> v.state == -1)
    ensures var u := Act(v, t, m);
            && (u.pc.RdWaiting? ==> u.state < 0 || u.waiters > 0 || v.pc.RdWaiting?)
            && (v.mutex != Nobody && v.mutex != By(t) ==>
                  u.mutex == v.mutex && u.state == v.state && u.waiters == v.waiters)
            && (v.state < 0 || v.waiters > 0 ==>
                  u.state < 0 || u.waiters > 0 || (u.mutex == By(t) && u.pc.UnWaiters?))
            && (v.pc.UnWaiters? ==> u.waiters > 0 || (u.mutex == By(t) && u.pc.UnBroadcast?))
            && (v.mutex == Nobody ==> u.state == v.state && u.waiters == v.waiters)
            && (v.pc.RdWaiting? || v.pc.WrWaiting? ==> u.mutex == v.mutex)
  {
  }

  lemma StepReaders(s: Lock, t: Tid, m: Move)
    requires Inv(s) && Enabled(s, t, m)
    ensures ReadersNotStranded(Next(s, t, m))
  {
    hide Act, Readers, Queued, ViewOk, Holds, Reads, Queues, WritersNotStranded;
    var u := Next(s, t, m);
    assert ThreadOk(s, t);
    StateRange(s);
    if Writes(s.pc[t]) { Counted(s, t); }
    ActReaders(ViewOf(s, t), t, m);
    if z :| z in Sleepers(u, RdWaiting) {
      assert z in Sleepers(s, RdWaiting) || z == t;
    }
  }

  /** Every step keeps the invariant. */
  lemma StepOk(s: Lock, t: Tid, m: Move)
    requires Inv(s) && Enabled(s, t, m)
    ensures Inv(Next(s, t, m))
  {
    hide Next, StateOk, Queued, WritersNotStranded, ReadersNotStranded;
    var u := Next(s, t, m);
    StepCounts(s, t, m);
    forall w | w in u.pc ensures ThreadOk(u, w) {
      StepThread(s, t, m, w);
    }
    StepState(s, t, m);
    StepWriters(s, t, m);
    StepReaders(s, t, m);
    StepFrame(s, t, m);
  }

  // ---------- what follows for every run ----------

  datatype Event = Event(tid: Tid, move: Move)

  /** The steps lead from lock state s to u. */
  ghost predicate IsRun(s: Lock, steps: seq<Event>, u: Lock)
    decreases |steps|
  {
    if steps == [] then u == s
    else Enabled(s, steps[0].tid, steps[0].move) && IsRun(Next(s, steps[0].tid, steps[0].move), steps[1..], u)
  }

  lemma {:induction false} RunKeeps(s: Lock, steps: seq<Event>, u: Lock)
    requires Inv(s) && IsRun(s, steps, u)
    ensures Inv(u)
    decreases |steps|
  {
    if steps != [] {
      StepOk(s, steps[0].tid, steps[0].move);
      RunKeeps(Next(s, steps[0].tid, steps[0].move), steps[1..], u);
    }
  }

  ghost predicate Reachable(threads: set<Tid>, u: Lock) {
    exists steps :: IsRun(Initial(threads), steps, u)
  }

  lemma ReachableOk(threads: set<Tid>, u: Lock)
    requires Reachable(threads, u)
    ensures Inv(u)
  {
    InitialOk(threads);
    var steps :| IsRun(Initial(threads), steps, u);
    RunKeeps(Initial(threads), steps, u);
  }

  /** The state is -1 exactly when one thread has the write lock, and then no thread has a read lock;
      otherwise it is the number of readers. The number of waiters is that of the queued writers. */
  lemma StateIsTrue(threads: set<Tid>, s: Lock)
    requires Reachable(threads, s)
    ensures s.state == -1 <==> |Writers(s)| == 1
    ensures s.state == -1 ==> Readers(s) == {}
    ensures s.state != -1 ==> Writers(s) == {} && s.state == |Readers(s)|
    ensures s.waiters == |Queued(s)|
  {
    ReachableOk(threads, s);
  }

  /** Unlock never meets a free lock, and releases the kind of lock that the caller has. */
  lemma UnlockFits(threads: set<Tid>, s: Lock, t: Tid, write: bool)
    requires Reachable(threads, s) && t in s.pc && s.pc[t] == UnTest(write)
    ensures s.state != 0 && (s.state == -1 <==> write)
  {
    ReachableOk(threads, s);
    OwnBranch(s, t, write);
  }

  lemma ActReads(v: View, t: Tid, m: Move)
    requires ViewOk(v, t) && (Locks(v.pc) ==> v.mutex == Nobody) && v.waiters != 0
    requires (v.pc.UnTest? ==> (v.state == -1) == v.pc.write)
    ensures var u := Act(v, t, m);
            (Reads(u.pc) ==> Reads(v.pc)) && (v.state >= 0 ==> u.state <= v.state)
  {
  }

  /** While a writer is queued, no step lets another reader in. */
  lemma ReadersKeptOut(threads: set<Tid>, s: Lock, t: Tid, m: Move)
    requires Reachable(threads, s) && Enabled(s, t, m) && Queued(s) != {}
    ensures Readers(Next(s, t, m)) <= Readers(s)
    ensures s.state >= 0 ==> Next(s, t, m).state <= s.state
  {
    hide Act, Holds, StateOk, WritersNotStranded, ReadersNotStranded;
    ReachableOk(threads, s);
    assert ThreadOk(s, t);
    if s.pc[t].UnTest? { OwnBranch(s, t, s.pc[t].write); }
    assert |Queued(s)| > 0;
    ActReads(ViewOf(s, t), t, m);
  }

  /** Nobody sleeps through a release, though a sleeper may wake for no reason too; and a signal is sent only when
      the lock is free and writers are queued. */
  lemma NobodyStranded(threads: set<Tid>, s: Lock, t: Tid)
    requires Reachable(threads, s) && t in s.pc
    ensures WritersNotStranded(s) && ReadersNotStranded(s)
    ensures s.pc[t] in {RdWaiting, WrWaiting} ==> Enabled(s, t, Spurious)
    ensures s.pc[t] == UnSignal ==> s.state == 0 && Queued(s) != {}
  {
    ReachableOk(threads, s);
    SignalOk(s, t);
  }

  lemma SignalOk(s: Lock, t: Tid)
    requires Inv(s) && t in s.pc
    ensures s.pc[t] == UnSignal ==> s.state == 0 && Queued(s) != {}
  {
    hide WritersNotStranded, ReadersNotStranded, StateOk;
    assert ThreadOk(s, t);
  }

  function SignalRank(p: PC): nat {
    match p
    case WrLoop => 2
    case UnWaiters | UnLast | WrEnter => 1
    case _ => 0
  }

  lemma ActSignalRank(v: View, t: Tid, m: Move)
    requires v.mutex == By(t) && WillSignal(v.pc) && v.state == 0 && v.waiters > 0
    ensures var u := Act(v, t, m);
            || v.pc == UnSignal || u.state == -1
            || (u.mutex == By(t) && WillSignal(u.pc) && u.state == 0 && SignalRank(u.pc) < SignalRank(v.pc))
  {
  }

  lemma SleeperQueues(s: Lock, z: Tid)
    requires Inv(s) && z in Sleepers(s, WrWaiting)
    ensures s.waiters > 0
  {
    assert z in Queued(s);
  }

  /** The holder that a sleeping writer relies on wakes a writer or takes the lock itself, without
      letting go of the mutex before. */
  lemma SignalComes(threads: set<Tid>, s: Lock, t: Tid, m: Move)
    requires Reachable(threads, s) && Enabled(s, t, m) && s.mutex == By(t) && WillSignal(s.pc[t])
    requires s.state == 0 && Sleepers(s, WrWaiting) != {}
    ensures var u := Next(s, t, m);
            || (u.mutex == By(t) && WillSignal(u.pc[t]) && u.state == 0 && SignalRank(u.pc[t]) < SignalRank(s.pc[t]))
            || u.state == -1
            || exists w :: w in Sleepers(s, WrWaiting) && u.pc[w] == WrWoken
  {
    hide Act, Inv, WillSignal, SignalRank, Reachable;
    ReachableOk(threads, s);
    var z :| z in Sleepers(s, WrWaiting);
    SleeperQueues(s, z);
    ActSignalRank(ViewOf(s, t), t, m);
    if s.pc[t] == UnSignal {
      var y :| y in m.woken;
      assert y in Sleepers(s, WrWaiting) && Next(s, t, m).pc[y] == WrWoken;
    }
  }

  lemma ActBroadcast(v: View, t: Tid, m: Move)
    requires (v.pc == UnWaiters && v.waiters == 0) || v.pc == UnBroadcast
    ensures Act(v, t, m) == v.(pc := if v.pc == UnWaiters then UnBroadcast else UnRelease)
  {
  }

  lemma HolderIs(s: Lock, t: Tid)
    requires Inv(s) && t in s.pc && Holds(s.pc[t])
    ensures s.mutex == By(t)
  {
    assert ThreadOk(s, t);
  }

  /** The holder that a sleeping reader relies on wakes all sleeping readers, if no writer is queued. */
  lemma BroadcastComes(threads: set<Tid>, s: Lock, t: Tid, m: Move)
    requires Reachable(threads, s) && Enabled(s, t, m) && (s.pc[t].UnWaiters? || s.pc[t].UnBroadcast?) && s.waiters == 0
    ensures var u := Next(s, t, m);
            if s.pc[t] == UnWaiters then u.pc[t] == UnBroadcast && u.mutex == By(t) && u.waiters == 0
            else Sleepers(u, RdWaiting) == {} && forall w :: w in Sleepers(s, RdWaiting) ==> u.pc[w] == RdWoken
  {
    hide Act, Inv, Reachable;
    ReachableOk(threads, s);
    HolderIs(s, t);
    ActBroadcast(ViewOf(s, t), t, m);
  }

  // ---------- no deadlock ----------

  /** Outside, without a lock or with one. */
  predicate AtRest(p: PC) {
    p.Idle? || p.Reading? || p.Writing?
  }

  /** Thread t can take a step on its way in or out, other than to wake up for no reason. */
  ghost predicate CanMove(s: Lock, t: Tid) {
    t in s.pc && !AtRest(s.pc[t]) && exists m :: m != Spurious && Enabled(s, t, m)
  }

  lemma MoveIs(s: Lock, t: Tid)
    requires t in s.pc && !AtRest(s.pc[t]) && !s.pc[t].WrWaiting? && !s.pc[t].RdWaiting?
    requires Locks(s.pc[t]) ==> s.mutex == Nobody
    ensures CanMove(s, t)
  {
    if s.pc[t] == UnSignal {
      assert Enabled(s, t, Wake(Sleepers(s, WrWaiting)));
    } else if s.pc[t] == UnBroadcast {
      assert Enabled(s, t, Wake(Sleepers(s, RdWaiting)));
    } else {
      assert Enabled(s, t, Go);
    }
  }

  /** A sleeping writer on a free mutex: a writer has been woken, or someone has the lock. */
  lemma WriterHasHope(s: Lock, t: Tid)
    requires Inv(s) && s.mutex == Nobody && t in s.pc && s.pc[t] == WrWaiting
    ensures exists w :: w in s.pc && (s.pc[w] == WrWoken || Reads(s.pc[w]) || Writes(s.pc[w]))
  {
    if s.state == 0 {
      assert t in Sleepers(s, WrWaiting);
      var w :| w in Sleepers(s, WrWoken);
    } else if s.state == -1 {
      var w :| w in Writers(s);
    } else {
      var w :| w in Readers(s);
    }
  }

  /** A sleeping reader on a free mutex: a writer is queued, or has the lock. */
  lemma ReaderHasHope(s: Lock, t: Tid)
    requires Inv(s) && s.mutex == Nobody && t in s.pc && s.pc[t] == RdWaiting
    ensures exists w :: w in s.pc && (Queues(s.pc[w]) || Writes(s.pc[w]))
  {
    assert t in Sleepers(s, RdWaiting);
    StateRange(s);
    if s.waiters > 0 {
      var w :| w in Queued(s);
    } else {
      var w :| w in Writers(s);
    }
  }

  /** As long as a thread is on its way in or out, some thread has the lock and is free to go on with its own
      work, or some thread can take its next step. */
  lemma NoDeadlock(threads: set<Tid>, s: Lock, t: Tid)
    requires Reachable(threads, s) && t in s.pc && !AtRest(s.pc[t])
    ensures exists w :: w in s.pc && (s.pc[w] == Reading || s.pc[w] == Writing || CanMove(s, w))
  {
    hide Reachable, Inv, CanMove;
    ReachableOk(threads, s);
    if s.mutex.By? {
      HolderMoves(s);
    } else if s.pc[t] == RdWaiting {
      ReaderHasHope(s, t);
      var w :| w in s.pc && (Queues(s.pc[w]) || Writes(s.pc[w]));
      WaiterOrHolderMoves(s, w);
    } else {
      WaiterOrHolderMoves(s, t);
    }
  }

  lemma HolderMoves(s: Lock)
    requires Inv(s) && s.mutex.By?
    ensures s.mutex.tid in s.pc && CanMove(s, s.mutex.tid)
  {
    assert ThreadOk(s, s.mutex.tid);
    MoveIs(s, s.mutex.tid);
  }

  lemma WaiterOrHolderMoves(s: Lock, t: Tid)
    requires Inv(s) && s.mutex == Nobody && t in s.pc && s.pc[t] != Idle && s.pc[t] != RdWaiting
    ensures exists w :: w in s.pc && (s.pc[w] == Reading || s.pc[w] == Writing || CanMove(s, w))
  {
    if s.pc[t] == WrWaiting {
      WriterHasHope(s, t);
      var w :| w in s.pc && (s.pc[w] == WrWoken || Reads(s.pc[w]) || Writes(s.pc[w]));
      if !AtRest(s.pc[w]) { MoveIs(s, w); }
    } else if !AtRest(s.pc[t]) {
      MoveIs(s, t);
    }
  }

  // ---------- what a request comes to ----------

  /** The places of a thread on its way in, by what it asked for. */
  predicate OnTheWay(ask: Move, p: PC) {
    match ask
    case AskRead => (p.RdLocking? || p.RdLoop? || p.RdWaiting? || p.RdWoken? || p.RdEnter? || p.RdRelease?)
    case TryRead => (p.TryRdLocking? || p.TryRdTest? || p.RdEnter? || p.RdRelease? || p == Busy(false))
    case AskWrite =>
      || p.WrLocking? || p.WrQueue? || p.WrLoop? || p.WrWaiting? || p.WrWoken? || p.WrEnter? || p.WrLeave?
      || p.WrRelease?
    case TryWrite => (p.TryWrLocking? || p.TryWrTest? || p.TryWrEnter? || p.WrRelease? || p == Busy(true))
    case _ => false
  }

  /** In some state of the run a writer has the lock, or else a writer is queued (for a try to read), or a
      reader has the lock (for a try to write). */
  ghost predicate Contended(s: Lock, steps: seq<Event>, ask: Move) {
    exists k: nat, v :: k <= |steps| && IsRun(s, steps[..k], v) &&
      (Writers(v) != {} || (if ask == TryRead then Queued(v) != {} else Readers(v) != {}))
  }

  /** Thread t is at rest in no state of the run, but perhaps the last one. */
  ghost predicate Away(s: Lock, steps: seq<Event>, t: Tid)
    decreases |steps|
  {
    steps != [] ==>
      && t in s.pc && !AtRest(s.pc[t])
      && (Enabled(s, steps[0].tid, steps[0].move) ==> Away(Next(s, steps[0].tid, steps[0].move), steps[1..], t))
  }

  /** A refused try has met another holder, or, when it asked to read, a queued writer. */
  lemma RefusedFor(threads: set<Tid>, s: Lock, t: Tid, write: bool)
    requires Reachable(threads, s) && t in s.pc && s.pc[t] == Busy(write)
    ensures Writers(s) != {} || (if write then Readers(s) != {} else Queued(s) != {})
  {
    ReachableOk(threads, s);
    RefusedOk(s, t, write);
  }

  lemma RefusedOk(s: Lock, t: Tid, write: bool)
    requires Inv(s) && t in s.pc && s.pc[t] == Busy(write)
    ensures Writers(s) != {} || (if write then Readers(s) != {} else Queued(s) != {})
  {
    assert ThreadOk(s, t);
  }

  lemma StepOnTheWay(s: Lock, t: Tid, ask: Move, e: Tid, m: Move)
    requires t in s.pc && OnTheWay(ask, s.pc[t]) && Enabled(s, e, m)
    ensures var p := Next(s, e, m).pc[t];
            || OnTheWay(ask, p)
            || (e == t && p == if ask in {AskRead, TryRead} then Reading else Writing)
            || (e == t && p == Idle && ask in {TryRead, TryWrite} && s.pc[t] == Busy(ask == TryWrite))
  {
  }

  lemma ContendedLater(s: Lock, steps: seq<Event>, ask: Move)
    requires steps != [] && Enabled(s, steps[0].tid, steps[0].move)
    requires Contended(Next(s, steps[0].tid, steps[0].move), steps[1..], ask)
    ensures Contended(s, steps, ask)
  {
    var v := Next(s, steps[0].tid, steps[0].move);
    var k: nat, w :| k <= |steps[1..]| && IsRun(v, steps[1..][..k], w) &&
      (Writers(w) != {} || (if ask == TryRead then Queued(w) != {} else Readers(w) != {}));
    assert steps[..k + 1][1..] == steps[1..][..k];
    assert IsRun(s, steps[..k + 1], w);
  }

  lemma {:induction false} WayEnds(s: Lock, t: Tid, ask: Move, steps: seq<Event>, u: Lock)
    requires Inv(s) && t in s.pc && OnTheWay(ask, s.pc[t]) && IsRun(s, steps, u) && Away(s, steps, t)
    ensures t in u.pc
    ensures || OnTheWay(ask, u.pc[t]) || u.pc[t] == (if ask in {AskRead, TryRead} then Reading else Writing)
            || (u.pc[t] == Idle && ask in {TryRead, TryWrite} && Contended(s, steps, ask))
    decreases |steps|
  {
    hide Inv, Next, Act, Enabled, OnTheWay, Contended;
    if steps != [] {
      var e, m := steps[0].tid, steps[0].move;
      var v := Next(s, e, m);
      StepOk(s, e, m);
      StepMoves(s, e, m, t);
      StepOnTheWay(s, t, ask, e, m);
      if OnTheWay(ask, v.pc[t]) {
        WayEnds(v, t, ask, steps[1..], u);
      } else {
        assert steps[1..] == [] by { assert !Away(v, steps[1..], t) || steps[1..] == []; }
        if v.pc[t] == Idle {
          RefusedOk(s, t, ask == TryWrite);
          ContendedNow(s, steps, ask);
        }
      }
      if Contended(v, steps[1..], ask) { ContendedLater(s, steps, ask); }
    }
  }

  lemma ContendedNow(s: Lock, steps: seq<Event>, ask: Move)
    requires Writers(s) != {} || (if ask == TryRead then Queued(s) != {} else Readers(s) != {})
    ensures Contended(s, steps, ask)
  {
    assert steps[..0] == [] && IsRun(s, steps[..0], s);
  }

  /** In whatever order the threads run: when a thread that has asked for a lock is next at rest, it has the
      lock it asked for. Only a try may come back without one, and then it was up against another holder, or,
      when it asked to read, against a queued writer. */
  lemma Answered(threads: set<Tid>, s: Lock, t: Tid, ask: Move, steps: seq<Event>, u: Lock)
    requires Reachable(threads, s) && t in s.pc && s.pc[t] == Idle && Enabled(s, t, ask)
    requires IsRun(Next(s, t, ask), steps, u) && Away(Next(s, t, ask), steps, t)
    ensures t in u.pc && (AtRest(u.pc[t]) ==>
      match ask
      case AskRead => u.pc[t] == Reading
      case AskWrite => u.pc[t] == Writing
      case TryRead => u.pc[t] == Reading || (u.pc[t] == Idle && Contended(Next(s, t, ask), steps, ask))
      case TryWrite => u.pc[t] == Writing || (u.pc[t] == Idle && Contended(Next(s, t, ask), steps, ask))
      case _ => false)
  {
    hide Reachable, Inv, Contended, Away, IsRun;
    ReachableOk(threads, s);
    StepOk(s, t, ask);
    WayEnds(Next(s, t, ask), t, ask, steps, u);
  }

  /** What thread t last asked for in the run; `before`, when it asked for nothing. */
  function LastAsk(steps: seq<Event>, t: Tid, before: Move): Move {
    if steps == [] then before
    else
      var e := steps[0];
      LastAsk(steps[1..], t, if e.tid == t && e.move in {AskRead, TryRead, AskWrite, TryWrite} then e.move else before)
  }

  /** Thread t has, or is about to have, the kind of lock that it last asked for. */
  ghost predicate AsAsked(p: PC, ask: Move) {
    && (p.Reading? ==> ask in {AskRead, TryRead})
    && (p.Writing? ==> ask in {AskWrite, TryWrite})
    && (AtRest(p) || Unlocks(p) || OnTheWay(ask, p))
  }

  predicate Unlocks(p: PC) {
    || p.UnLocking? || p.UnTest? || p.UnFree? || p.UnWaiters? || p.UnBroadcast? || p.UnCount? || p.UnLast?
    || p.UnSignal? || p.UnRelease?
  }

  lemma ActAsAsked(v: View, t: Tid, m: Move, ask: Move)
    requires AsAsked(v.pc, ask) && (m in {AskRead, TryRead, AskWrite, TryWrite} <==> v.pc == Idle)
    ensures AsAsked(Act(v, t, m).pc, if v.pc == Idle then m else ask)
  {
  }

  lemma StepAsAsked(s: Lock, t: Tid, ask: Move, e: Event)
    requires t in s.pc && AsAsked(s.pc[t], ask) && Enabled(s, e.tid, e.move)
    ensures t in Next(s, e.tid, e.move).pc && AsAsked(Next(s, e.tid, e.move).pc[t], LastAsk([e], t, ask))
  {
    assert [e][1..] == [] && forall a :: LastAsk([], t, a) == a;
    if e.tid == t {
      hide Act, AsAsked;
      assert e.move in {AskRead, TryRead, AskWrite, TryWrite} <==> s.pc[t] == Idle;
      ActAsAsked(ViewOf(s, t), t, e.move, ask);
    } else {
      hide Next, Enabled;
      StepMoves(s, e.tid, e.move, t);
    }
  }

  lemma {:induction false} RunAsAsked(s: Lock, t: Tid, ask: Move, steps: seq<Event>, u: Lock)
    requires t in s.pc && AsAsked(s.pc[t], ask) && IsRun(s, steps, u)
    ensures t in u.pc && AsAsked(u.pc[t], LastAsk(steps, t, ask))
    decreases |steps|
  {
    hide Next, AsAsked, Enabled;
    if steps != [] {
      StepAsAsked(s, t, ask, steps[0]);
      assert LastAsk(steps, t, ask) == LastAsk(steps[1..], t, LastAsk([steps[0]], t, ask)) by {
        assert [steps[0]][1..] == [] && forall a :: LastAsk([], t, a) == a;
      }
      RunAsAsked(Next(s, steps[0].tid, steps[0].move), t, LastAsk([steps[0]], t, ask), steps[1..], u);
    }
  }

  /** Of the threads with a lock each has the kind that it asked for last; and one that asked to write is
      alone with its lock. */
  lemma HeldAsAsked(threads: set<Tid>, steps: seq<Event>, u: Lock, t: Tid, w: Tid)
    requires IsRun(Initial(threads), steps, u) && t in u.pc && w in u.pc && t != w
    ensures u.pc[t] == Reading ==> LastAsk(steps, t, Go) in {AskRead, TryRead}
    ensures u.pc[t] == Writing ==> LastAsk(steps, t, Go) in {AskWrite, TryWrite}
    ensures LastAsk(steps, t, Go) in {AskWrite, TryWrite} && u.pc[t] in {Reading, Writing} ==>
      u.pc[w] !in {Reading, Writing}
  {
    hide Inv, Next, Enabled, StateOk;
    assert Reachable(threads, u);
    SameThreads(Initial(threads), steps, u);
    RunAsAsked(Initial(threads), t, Go, steps, u);
    StateIsTrue(threads, u);
    if u.pc[t] == Writing {
      OneWriter(u, t, w);
    }
  }

  lemma {:induction false} SameThreads(s: Lock, steps: seq<Event>, u: Lock)
    requires IsRun(s, steps, u)
    ensures s.pc.Keys == u.pc.Keys
    decreases |steps|
  {
    if steps != [] { SameThreads(Next(s, steps[0].tid, steps[0].move), steps[1..], u); }
  }

  lemma OneWriter(s: Lock, t: Tid, w: Tid)
    requires t in s.pc && w in s.pc && t != w && Writes(s.pc[t])
    requires if s.state == -1 then |Writers(s)| == 1 && Readers(s) == {} else Writers(s) == {}
    ensures !Reads(s.pc[w]) && !Writes(s.pc[w])
  {
    assert t in Writers(s);
    assert w in Readers(s) <==> Reads(s.pc[w]);
    if w in Writers(s) {
      TwoOf(Writers(s), t, w);
    }
  }

  // ---------- without contention ----------

  /** The lock that a request is for. */
  function Target(ask: Move): PC {
    if ask in {AskRead, TryRead} then Reading else Writing
  }

  /** The next step of t gets it nearer to its lock. */
  function ToLock(p: PC): nat {
    match p
    case WrLocking => 6
    case WrQueue => 5
    case RdLocking | TryRdLocking | WrLoop | TryWrLocking => 4
    case RdLoop | TryRdTest | WrEnter | TryWrTest => 3
    case RdEnter | WrLeave | TryWrEnter => 2
    case RdRelease | WrRelease => 1
    case _ => 0
  }

  /** Nothing is in the way of thread t, which has asked for a lock. */
  predicate FreeView(v: View, t: Tid, ask: Move) {
    && OnTheWay(ask, v.pc) && ToLock(v.pc) > 0 && v.mutex == (if Locks(v.pc) then Nobody else By(t))
    && if Target(ask) == Reading then v.state >= 0 && v.waiters == 0 else v.state == 0 || ToLock(v.pc) <= 2
  }

  lemma ActFree(v: View, t: Tid, ask: Move)
    requires FreeView(v, t, ask)
    ensures var u := Act(v, t, Go);
            if ToLock(v.pc) == 1 then u.pc == Target(ask) else FreeView(u, t, ask) && ToLock(u.pc) < ToLock(v.pc)
  {
  }

  lemma FreeEnabled(s: Lock, t: Tid, ask: Move)
    requires t in s.pc && FreeView(ViewOf(s, t), t, ask)
    ensures Enabled(s, t, Go)
  {
  }

  lemma {:induction false} FreeRun(s: Lock, t: Tid, ask: Move) returns (steps: seq<Event>, u: Lock)
    requires t in s.pc && FreeView(ViewOf(s, t), t, ask)
    ensures IsRun(s, steps, u) && |steps| <= ToLock(s.pc[t]) && (forall e :: e in steps ==> e.tid == t)
    ensures t in u.pc && u.pc[t] == Target(ask)
    decreases ToLock(s.pc[t])
  {
    hide Act, FreeView, ToLock, Enabled;
    FreeEnabled(s, t, ask);
    ActFree(ViewOf(s, t), t, ask);
    u, steps := Next(s, t, Go), [];
    assert ViewOf(u, t) == Act(ViewOf(s, t), t, Go);
    if ToLock(s.pc[t]) > 1 {
      steps, u := FreeRun(u, t, ask);
    }
    var all := [Event(t, Go)] + steps;
    assert all[1..] == steps;
    steps := all;
  }

  lemma FreeStart(s: Lock, t: Tid, ask: Move)
    requires Inv(s) && t in s.pc && s.pc[t] == Idle && s.mutex == Nobody && Writers(s) == {}
    requires ask in {AskRead, TryRead, AskWrite, TryWrite}
    requires if Target(ask) == Reading then Queued(s) == {} else Readers(s) == {}
    ensures Enabled(s, t, ask) && t in Next(s, t, ask).pc && FreeView(ViewOf(Next(s, t, ask), t), t, ask)
    ensures ToLock(Next(s, t, ask).pc[t]) <= 6
  {
    hide Inv, Act, FreeView, ToLock, Readers, Writers, Queued;
    FreeState(s);
    ActAsk(ViewOf(s, t), t, ask);
    assert ViewOf(Next(s, t, ask), t) == Act(ViewOf(s, t), t, ask);
  }

  lemma ActAsk(v: View, t: Tid, ask: Move)
    requires v.pc == Idle && v.mutex == Nobody && ask in {AskRead, TryRead, AskWrite, TryWrite}
    requires if Target(ask) == Reading then v.state >= 0 && v.waiters == 0 else v.state == 0
    ensures FreeView(Act(v, t, ask), t, ask) && ToLock(Act(v, t, ask).pc) <= 6
  {
  }

  lemma FreeState(s: Lock)
    requires Inv(s) && Writers(s) == {}
    ensures s.state >= 0 && (Queued(s) == {} ==> s.waiters == 0) && (Readers(s) == {} ==> s.state == 0)
  {
    hide WritersNotStranded, ReadersNotStranded, ThreadOk;
  }

  /** Where nobody is in its way every request is granted, a try as well, by steps of the thread alone. */
  lemma Uncontended(threads: set<Tid>, s: Lock, t: Tid, ask: Move) returns (steps: seq<Event>, u: Lock)
    requires Reachable(threads, s) && t in s.pc && s.pc[t] == Idle && s.mutex == Nobody && Writers(s) == {}
    requires ask in {AskRead, TryRead, AskWrite, TryWrite}
    requires if ask in {AskRead, TryRead} then Queued(s) == {} else Readers(s) == {}
    ensures IsRun(s, steps, u) && |steps| <= 7 && steps != [] && steps[0].move == ask
    ensures (forall e :: e in steps ==> e.tid == t)
    ensures t in u.pc && u.pc[t] == if ask in {AskRead, TryRead} then Reading else Writing
  {
    hide Reachable, Inv, Act, FreeView, Enabled, Next;
    ReachableOk(threads, s);
    FreeStart(s, t, ask);
    steps, u := FreeRun(Next(s, t, ask), t, ask);
    var all := [Event(t, ask)] + steps;
    assert all[1..] == steps;
    steps := all;
  }
}
