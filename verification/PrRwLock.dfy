/**
 The read/write lock that prefers readers and keeps its mutex for as long as the write lock is held.

 Any number of threads run it, one access to shared data at a time. A wait gives up the mutex; a
 waiting thread may be woken by a signal, which wakes at least one waiting thread if there is any, or
 for no reason; and a woken thread must take the mutex again before it goes on.
 */
module PrRwLock {

  import opened Threads

  datatype PC =
    | Idle            // outside, without a lock
    | RdLocking       // rdlock: about to lock the mutex
    | RdEnter         //         about to count itself
    | RdUnlocking     //         about to unlock the mutex
    | Reading         // outside, with a read lock
    | WrLocking       // wrlock: about to lock the mutex
    | WrTest          //         about to look for active readers
    | WrQueue         //         about to count itself as waiting
    | WrLoop          //         about to test the wait loop's condition
    | WrWaiting       //         asleep on no_active_readers
    | WrWoken         //         woken, without the mutex
    | WrLeave         //         about to count itself out
    | WrGrant         //         about to set active_writer
    | Writing         // outside, with the write lock
    | UnTest(write: bool)   // unlock: about to read active_writer, without regard to the mutex
    | UnClear(write: bool)  //         write branch: about to clear active_writer
    | UnWriters       //               about to test writers_waiting_readers
    | UnLocking(write: bool)  //       read branch: about to lock the mutex
    | UnLeave         //               about to count itself out
    | UnReaders       //               about to test whether it was the last one
    | UnSignal        // either branch: about to signal
    | UnRelease       //                about to unlock the mutex

  datatype Lock = Lock(mutex: Owner, active_readers: int, writers_waiting_readers: int, active_writer: bool,
                         pc: map<Tid, PC>)

  /** What a thread does next: its own next step; which kind of lock it asks for; whom its signal
      wakes; or a wake-up for no reason. */
  datatype Move = Go | AskRead | AskWrite | Wake(woken: set<Tid>) | Spurious

  predicate Asleep(s: Lock, t: Tid) {
    t in s.pc && s.pc[t] == WrWaiting
  }

  predicate Enabled(s: Lock, t: Tid, m: Move) {
    t in s.pc &&
    match s.pc[t]
    case Idle => m == AskRead || m == AskWrite
    case RdLocking | WrLocking | WrWoken => m == Go && s.mutex == Nobody
    case UnLocking(_) => m == Go && s.mutex == Nobody
    case WrWaiting => m == Spurious
    case UnSignal =>
      && m.Wake? && (forall w :: w in m.woken ==> Asleep(s, w))
      && (m.woken == {} ==> forall w :: w in s.pc ==> !Asleep(s, w))
    case _ => m == Go
  }

  /** A thread's own place, and the shared data. */
  datatype View = View(pc: PC, mutex: Owner, active_readers: int, writers_waiting_readers: int, active_writer: bool)

  function ViewOf(s: Lock, t: Tid): View
    requires t in s.pc
  {
    View(s.pc[t], s.mutex, s.active_readers, s.writers_waiting_readers, s.active_writer)
  }

  /** What one step of thread t does to its own place and to the shared data. */
  function Act(v: View, t: Tid, m: Move): View {
    match v.pc
    case Idle => v.(pc := if m == AskRead then RdLocking else WrLocking)
    case RdLocking => v.(pc := RdEnter, mutex := By(t))
    case RdEnter => v.(pc := RdUnlocking, active_readers := v.active_readers + 1)
    case RdUnlocking => v.(pc := Reading, mutex := Nobody)
    case Reading => v.(pc := UnTest(false))
    case WrLocking => v.(pc := WrTest, mutex := By(t))
    case WrTest => v.(pc := if v.active_readers != 0 then WrQueue else WrGrant)
    case WrQueue => v.(pc := WrLoop, writers_waiting_readers := v.writers_waiting_readers + 1)
    case WrLoop => if v.active_readers != 0 then v.(pc := WrWaiting, mutex := Nobody) else v.(pc := WrLeave)
    case WrWaiting => v.(pc := WrWoken)
    case WrWoken => v.(pc := WrLoop, mutex := By(t))
    case WrLeave => v.(pc := WrGrant, writers_waiting_readers := v.writers_waiting_readers - 1)
    case WrGrant => v.(pc := Writing, active_writer := true)
    case Writing => v.(pc := UnTest(true))
    case UnTest(write) => v.(pc := if v.active_writer then UnClear(write) else UnLocking(write))
    case UnClear(_) => v.(pc := UnWriters, active_writer := false)
    case UnWriters => v.(pc := if v.writers_waiting_readers != 0 then UnSignal else UnRelease)
    case UnLocking(_) => v.(pc := UnLeave, mutex := By(t))
    case UnLeave => v.(pc := UnReaders, active_readers := v.active_readers - 1)
    case UnReaders => v.(pc := if v.active_readers == 0 && v.writers_waiting_readers != 0 then UnSignal else UnRelease)
    case UnSignal => v.(pc := UnRelease)
    case UnRelease => v.(pc := Idle, mutex := Nobody)
  }

  /** One step of thread t: its own, and the waking of others. */
  function Next(s: Lock, t: Tid, m: Move): Lock
    requires Enabled(s, t, m)
  {
    var v := Act(ViewOf(s, t), t, m);
    Lock(v.mutex, v.active_readers, v.writers_waiting_readers, v.active_writer,
         map w | w in s.pc :: if w == t then v.pc else if m.Wake? && w in m.woken then WrWoken else s.pc[w])
  }

  function Initial(threads: set<Tid>): Lock {
    Lock(Nobody, 0, 0, false, map t | t in threads :: Idle)
  }

  // ---------- counting threads ----------

  /** Threads at these places hold the mutex. */
  predicate Holds(p: PC) {
    match p
    case RdEnter | RdUnlocking | WrTest | WrQueue | WrLoop | WrLeave | WrGrant | Writing => true
    case UnTest(write) => write
    case UnClear(_) | UnWriters | UnLeave | UnReaders | UnSignal | UnRelease => true
    case _ => false
  }

  /** They have a read lock that they have not given back yet. */
  predicate Reads(p: PC) {
    match p
    case RdUnlocking | Reading | UnLeave => true
    case UnTest(write) => !write
    case UnLocking(_) => true
    case _ => false
  }

  /** They have the write lock. */
  predicate Writes(p: PC) {
    match p
    case Writing => true
    case UnTest(write) => write
    case UnClear(_) => true
    case _ => false
  }

  /** They are waiting for the readers to go away. */
  predicate Waits(p: PC) {
    (p.WrLoop? || p.WrWaiting? || p.WrWoken? || p.WrLeave?)
  }

  ghost function Readers(s: Lock): set<Tid> {
    set t | t in s.pc && Reads(s.pc[t])
  }

  ghost function Waiters(s: Lock): set<Tid> {
    set t | t in s.pc && Waits(s.pc[t])
  }

  // ---------- the invariant ----------

  /** At these places the next step is to lock the mutex. */
  predicate Locks(p: PC) {
    p.RdLocking? || p.WrLocking? || p.WrWoken? || p.UnLocking?
  }

  predicate ViewOk(v: View, t: Tid) {
    && (Holds(v.pc) <==> v.mutex == By(t))
    && (Writes(v.pc) ==> v.active_writer)
    && (v.pc.WrLeave? || v.pc.WrGrant? || v.pc.UnWriters? || Writes(v.pc) ==> v.active_readers == 0)
    && (v.pc.WrQueue? ==> v.active_readers != 0)
    && (v.pc.UnSignal? ==> v.active_readers == 0 && v.writers_waiting_readers != 0)
    && v.pc != UnClear(false) && v.pc != UnLocking(true)
  }

  /** What each thread's place says about the lock. */
  ghost predicate ThreadOk(s: Lock, t: Tid)
    requires t in s.pc
  {
    ViewOk(ViewOf(s, t), t)
  }

  /** A holder of the mutex at one of these places signals before it lets go, as long as there are no
      active readers. */
  predicate WillSignal(p: PC) {
    (p.UnReaders? || p.UnSignal? || p.WrLoop? || p.WrLeave? || p.WrGrant? || p.UnWriters?) || Writes(p)
  }

  ghost predicate SomeoneAwake(s: Lock) {
    || (exists t :: t in s.pc && s.pc[t] == WrWoken)
    || (s.mutex.By? && s.mutex.tid in s.pc && WillSignal(s.pc[s.mutex.tid]))
  }

  /** No wake-up is lost: when no reader is active, a writer sleeps only while another one is woken, or
      while the mutex is held by a thread that is going to signal. */
  ghost predicate NoLostWakeup(s: Lock) {
    s.active_readers == 0 && (exists t :: Asleep(s, t)) ==> SomeoneAwake(s)
  }

  ghost predicate Inv(s: Lock) {
    && (s.mutex.By? ==> s.mutex.tid in s.pc)
    && s.active_readers == |Readers(s)| && s.writers_waiting_readers == |Waiters(s)|
    && (s.active_writer ==> s.mutex.By? && Writes(s.pc[s.mutex.tid]))
    && (forall t :: t in s.pc ==> ThreadOk(s, t))
    && NoLostWakeup(s)
  }

  lemma InitialOk(threads: set<Tid>)
    ensures Inv(Initial(threads))
  {
    var s := Initial(threads);
    assert Readers(s) == {} && Waiters(s) == {};
  }

  /** A step moves one thread, or wakes sleeping ones, so it changes the counts by at most one. */
  lemma StepCounts(s: Lock, t: Tid, m: Move)
    requires Enabled(s, t, m)
    ensures var u := Next(s, t, m);
            && u.pc.Keys == s.pc.Keys
            && |Readers(u)| == |Readers(s)| - (if Reads(s.pc[t]) then 1 else 0) + (if Reads(u.pc[t]) then 1 else 0)
            && |Waiters(u)| == |Waiters(s)| - (if Waits(s.pc[t]) then 1 else 0) + (if Waits(u.pc[t]) then 1 else 0)
  {
    var u := Next(s, t, m);
    SameButOne(Readers(s), Readers(u), t);
    SameButOne(Waiters(s), Waiters(u), t);
  }

  /** The unlock reads active_writer without the mutex, and still goes the way that fits the lock that
      the thread has. */
  lemma OwnBranch(s: Lock, t: Tid, write: bool)
    requires Inv(s) && t in s.pc && s.pc[t] == UnTest(write)
    ensures s.active_writer == write
  {
    assert ThreadOk(s, t);
    if s.active_writer { assert ThreadOk(s, s.mutex.tid); }
    assert t in Readers(s) <==> !write;
  }

  lemma ActOk(v: View, t: Tid, m: Move)
    requires ViewOk(v, t)
    requires Locks(v.pc) ==> v.mutex == Nobody
    requires v.pc.UnTest? ==> v.active_writer == v.pc.write
    ensures ViewOk(Act(v, t, m), t)
  {
  }

  /** Only the holder of the mutex changes anything that other threads rely on. */
  lemma ActFrame(v: View, t: Tid, m: Move)
    requires ViewOk(v, t)
    requires Locks(v.pc) ==> v.mutex == Nobody
    ensures var u := Act(v, t, m);
            && (v.mutex != By(t) ==>
                  && u.active_readers == v.active_readers && u.active_writer == v.active_writer
                  && u.writers_waiting_readers == v.writers_waiting_readers)
            && (u.mutex != v.mutex ==>
                  (v.mutex == Nobody || v.mutex == By(t)) && (u.mutex == Nobody || u.mutex == By(t)))
  {
  }

  lemma StepThread(s: Lock, t: Tid, m: Move, w: Tid)
    requires Inv(s) && Enabled(s, t, m) && w in s.pc
    ensures w in Next(s, t, m).pc && ThreadOk(Next(s, t, m), w)
  {
    hide Act, Readers, Waiters, NoLostWakeup;
    assert ThreadOk(s, t) && ThreadOk(s, w);
    if s.pc[t].UnTest? { OwnBranch(s, t, s.pc[t].write); }
    ActOk(ViewOf(s, t), t, m);
    ActFrame(ViewOf(s, t), t, m);
  }

  lemma ActSignals(v: View, t: Tid, m: Move)
    requires ViewOk(v, t) && (Locks(v.pc) ==> v.mutex == Nobody) && (v.pc.UnTest? ==> v.active_writer == v.pc.write)
    ensures var u := Act(v, t, m);
            && (u.pc.WrWaiting? ==> u.active_readers != 0 || v.pc.WrWaiting?)
            && (v.active_readers != 0 && u.active_readers == 0 ==>
                  v.active_readers < 0 || (u.mutex == By(t) && WillSignal(u.pc)))
            && (v.active_readers == 0 == u.active_readers && v.writers_waiting_readers > 0 && v.mutex == By(t) ==>
                  WillSignal(v.pc) && !v.pc.UnSignal? ==> u.mutex == By(t) && WillSignal(u.pc))
            && (v.pc.WrWoken? ==> u.mutex == By(t) && WillSignal(u.pc))
            && (v.mutex != Nobody && v.mutex != By(t) ==> u.mutex == v.mutex)
  {
  }

  lemma StepWakes(s: Lock, t: Tid, m: Move)
    requires Inv(s) && Enabled(s, t, m)
    ensures NoLostWakeup(Next(s, t, m))
  {
    hide Act, Readers, ViewOk, Holds, Reads, Writes, WillSignal;
    var u := Next(s, t, m);
    assert ThreadOk(s, t);
    if s.pc[t].UnTest? { OwnBranch(s, t, s.pc[t].write); }
    ActSignals(ViewOf(s, t), t, m);
    if z :| u.active_readers == 0 && Asleep(u, z) {
      assert Asleep(s, z) || z == t;
      assert Asleep(s, z) ==> z in Waiters(s);
      if s.active_readers == 0 {
        if y :| y in s.pc && s.pc[y] == WrWoken {
          assert y == t || u.pc[y] == WrWoken;
        } else if s.pc[t] == UnSignal {
          var y :| y in m.woken;
          assert u.pc[y] == WrWoken;
        }
      }
    }
  }

  /** Every step keeps the invariant. */
  lemma StepOk(s: Lock, t: Tid, m: Move)
    requires Inv(s) && Enabled(s, t, m)
    ensures Inv(Next(s, t, m))
  {
    hide Readers, Waiters, NoLostWakeup;
    StepCounts(s, t, m);
    var u := Next(s, t, m);
    forall w | w in u.pc ensures ThreadOk(u, w) {
      StepThread(s, t, m, w);
    }
    StepWakes(s, t, m);
    assert ThreadOk(s, t);
    if s.pc[t].UnTest? { OwnBranch(s, t, s.pc[t].write); }
  }

  // ---------- what follows for every run ----------

  datatype Event = Event(tid: Tid, move: Move)

  /** The steps lead from lock state s to u. */
  ghost predicate IsRun(s: Lock, steps: seq<Event>, u: Lock)
    decreases |steps|
  {
    if steps == [] then u == s
    else Enabled(s, steps[0].tid, steps[0].move) && IsRun(Next(s, steps[0].tid, steps[0].move), steps[1..], u)
  }

  lemma {:induction false} RunKeeps(s: Lock, steps: seq<Event>, u: Lock)
    requires Inv(s) && IsRun(s, steps, u)
    ensures Inv(u)
    decreases |steps|
  {
    if steps != [] {
      StepOk(s, steps[0].tid, steps[0].move);
      RunKeeps(Next(s, steps[0].tid, steps[0].move), steps[1..], u);
    }
  }

  ghost predicate Reachable(threads: set<Tid>, u: Lock) {
    exists steps :: IsRun(Initial(threads), steps, u)
  }

  lemma ReachableOk(threads: set<Tid>, u: Lock)
    requires Reachable(threads, u)
    ensures Inv(u)
  {
    InitialOk(threads);
    var steps :| IsRun(Initial(threads), steps, u);
    RunKeeps(Initial(threads), steps, u);
  }

  /** A thread with the write lock is alone: no other thread has a read lock or a write lock. */
  lemma Exclusion(threads: set<Tid>, s: Lock, t: Tid, w: Tid)
    requires Reachable(threads, s) && t in s.pc && w in s.pc && t != w && Writes(s.pc[t])
    ensures !Reads(s.pc[w]) && !Writes(s.pc[w])
  {
    ReachableOk(threads, s);
    assert ThreadOk(s, t) && ThreadOk(s, w);
    assert w in Readers(s) <==> Reads(s.pc[w]);
  }

  /** The counters are the numbers of threads they stand for, and unlock takes the caller's own branch. */
  lemma CountsAreTrue(threads: set<Tid>, s: Lock)
    requires Reachable(threads, s)
    ensures s.active_readers == |Readers(s)| && s.writers_waiting_readers == |Waiters(s)|
    ensures forall t, write :: t in s.pc && s.pc[t] == UnTest(write) ==> s.active_writer == write
  {
    ReachableOk(threads, s);
    forall t, write | t in s.pc && s.pc[t] == UnTest(write) ensures s.active_writer == write {
      OwnBranch(s, t, write);
    }
  }

  /** No wake-up is lost, though a sleeper may wake for no reason too; and a signal is sent only when there are
      waiting writers and no reader is active. */
  lemma WakeupsAreKept(threads: set<Tid>, s: Lock, t: Tid)
    requires Reachable(threads, s)
    ensures NoLostWakeup(s)
    ensures Asleep(s, t) ==> Enabled(s, t, Spurious)
    ensures t in s.pc && s.pc[t] == UnSignal ==> s.active_readers == 0 && Waiters(s) != {}
  {
    ReachableOk(threads, s);
    if t in s.pc { assert ThreadOk(s, t); }
  }

  lemma ActSignalRank(v: View, t: Tid, m: Move)
    requires v.mutex == By(t) && WillSignal(v.pc) && v.active_readers == 0 && v.writers_waiting_readers > 0
    requires v.pc.UnTest? ==> v.active_writer == v.pc.write
    ensures var u := Act(v, t, m);
            || v.pc == UnSignal
            || (u.mutex == By(t) && WillSignal(u.pc) && u.active_readers == 0 && SignalRank(u.pc) < SignalRank(v.pc))
  {
  }

  lemma SleeperWaits(s: Lock, w: Tid)
    requires Inv(s) && Asleep(s, w)
    ensures s.writers_waiting_readers > 0
  {
    assert w in Waiters(s);
  }

  /** A holder that is to signal comes to its signal: each of its own steps keeps it on the way, or wakes
      a sleeping writer. */
  lemma SignalComes(threads: set<Tid>, s: Lock, t: Tid, m: Move)
    requires Reachable(threads, s) && Enabled(s, t, m) && s.mutex == By(t) && WillSignal(s.pc[t])
    requires s.active_readers == 0 && exists w :: Asleep(s, w)
    ensures var u := Next(s, t, m);
            if s.pc[t] == UnSignal then exists w :: Asleep(s, w) && u.pc[w] == WrWoken
            else
              && u.mutex == By(t) && WillSignal(u.pc[t]) && u.active_readers == 0
              && SignalRank(u.pc[t]) < SignalRank(s.pc[t])
  {
    hide Act, Inv, WillSignal, SignalRank, Reachable;
    ReachableOk(threads, s);
    var w :| Asleep(s, w);
    SleeperWaits(s, w);
    if s.pc[t].UnTest? { OwnBranch(s, t, s.pc[t].write); }
    ActSignalRank(ViewOf(s, t), t, m);
    if s.pc[t] == UnSignal {
      var y :| y in m.woken;
      assert Asleep(s, y) && Next(s, t, m).pc[y] == WrWoken;
    }
  }

  function SignalRank(p: PC): nat {
    match p
    case WrLoop => 8
    case WrLeave => 7
    case WrGrant => 6
    case Writing => 5
    case UnTest(_) => 4
    case UnClear(_) => 3
    case UnWriters => 2
    case UnReaders => 1
    case _ => 0
  }

  // ---------- readers first ----------

  /** How many steps of its own the holder of the mutex is from giving it up, while readers are active. */
  function ToRelease(p: PC): nat {
    match p
    case WrTest => 3
    case WrQueue => 2
    case WrLoop => 1
    case RdEnter => 2
    case RdUnlocking => 1
    case UnLeave => 4
    case UnReaders => 3
    case UnSignal => 2
    case UnRelease => 1
    case _ => 0
  }

  /** h holds the mutex and is on its way to giving it up. */
  ghost predicate Leaving(s: Lock, h: Tid) {
    && s.mutex == By(h) && h in s.pc && 1 <= ToRelease(s.pc[h]) <= 4
    && ((s.pc[h].WrTest? || s.pc[h].WrQueue? || s.pc[h].WrLoop?) ==> s.active_readers != 0)
  }

  /** Each own step of such a holder brings the release nearer. */
  lemma LeavingOn(s: Lock, h: Tid, m: Move)
    requires Leaving(s, h) && Enabled(s, h, m)
    ensures var u := Next(s, h, m);
            if ToRelease(s.pc[h]) == 1 then u.mutex == Nobody
            else Leaving(u, h) && ToRelease(u.pc[h]) < ToRelease(s.pc[h])
  {
  }

  /** No step of another thread sets it back. */
  lemma LeavingStays(s: Lock, h: Tid, t: Tid, m: Move)
    requires Inv(s) && Leaving(s, h) && t != h && Enabled(s, t, m)
    ensures var u := Next(s, t, m);
            Leaving(u, h) && ToRelease(u.pc[h]) == ToRelease(s.pc[h])
  {
    hide Act;
    assert ThreadOk(s, t);
    ActFrame(ViewOf(s, t), t, m);
  }

  lemma LeavingStep(s: Lock, h: Tid) returns (m: Move)
    requires Leaving(s, h)
    ensures Enabled(s, h, m)
    ensures forall t :: t in s.pc && t != h && s.pc[t] == RdLocking ==> Next(s, h, m).pc[t] == RdLocking
  {
    m := Go;
    if s.pc[h] == UnSignal {
      var all := set w | w in s.pc && Asleep(s, w);
      assert forall w :: w in s.pc && Asleep(s, w) ==> w in all;
      m := Wake(all);
    }
  }

  /** While a reader is active, whoever holds the mutex is at most four steps of its own from giving it
      up: each of them brings that nearer, and no step of any other thread sets it back. */
  lemma ReadersFirst(threads: set<Tid>, s: Lock, h: Tid)
    requires Reachable(threads, s) && s.active_readers > 0 && s.mutex == By(h)
    ensures Leaving(s, h) && 1 <= ToRelease(s.pc[h]) <= 4 && exists m :: Enabled(s, h, m)
    ensures forall t, m :: Enabled(s, t, m) ==>
      var u := Next(s, t, m);
      if t == h && ToRelease(s.pc[h]) == 1 then u.mutex == Nobody
      else Leaving(u, h) && ToRelease(u.pc[h]) <= ToRelease(s.pc[h]) - (if t == h then 1 else 0)
  {
    ReachableOk(threads, s);
    assert ThreadOk(s, h);
    var _ := LeavingStep(s, h);
    forall t, m | Enabled(s, t, m)
      ensures var u := Next(s, t, m);
              if t == h && ToRelease(s.pc[h]) == 1 then u.mutex == Nobody
              else Leaving(u, h) && ToRelease(u.pc[h]) <= ToRelease(s.pc[h]) - (if t == h then 1 else 0)
    {
      if t == h { LeavingOn(s, h, m); } else { LeavingStays(s, h, t, m); }
    }
  }

  /** How many of the steps are taken by thread t. */
  function Own(steps: seq<Event>, t: Tid): nat {
    if steps == [] then 0 else (if steps[0].tid == t then 1 else 0) + Own(steps[1..], t)
  }

  /** The run passes a state in which the mutex is free. */
  ghost predicate ComesFree(s: Lock, steps: seq<Event>) {
    exists k: nat, v :: k <= |steps| && IsRun(s, steps[..k], v) && v.mutex == Nobody
  }

  lemma {:induction false} HolderLeaves(s: Lock, h: Tid, steps: seq<Event>, u: Lock)
    requires Inv(s) && Leaving(s, h) && IsRun(s, steps, u) && Own(steps, h) >= ToRelease(s.pc[h])
    ensures ComesFree(s, steps)
    decreases |steps|
  {
    var e, rest := steps[0], steps[1..];
    var v := Next(s, e.tid, e.move);
    StepOk(s, e.tid, e.move);
    if e.tid == h { LeavingOn(s, h, e.move); } else { LeavingStays(s, h, e.tid, e.move); }
    if v.mutex == Nobody {
      assert steps[..1][1..] == [] && IsRun(v, [], v);
      assert IsRun(s, steps[..1], v);
    } else {
      HolderLeaves(v, h, rest, u);
      var k: nat, w :| k <= |rest| && IsRun(v, rest[..k], w) && w.mutex == Nobody;
      assert steps[..k + 1][1..] == rest[..k];
      assert IsRun(s, steps[..k + 1], w);
    }
  }

  /** In whatever order the threads run: once the holder of the mutex has had its steps, four at the most,
      the mutex has been free. */
  lemma MutexComesFree(threads: set<Tid>, s: Lock, h: Tid, steps: seq<Event>, u: Lock)
    requires Reachable(threads, s) && s.active_readers > 0 && s.mutex == By(h)
    requires IsRun(s, steps, u) && Own(steps, h) >= 4
    ensures ComesFree(s, steps)
  {
    ReachableOk(threads, s);
    ReadersFirst(threads, s, h);
    HolderLeaves(s, h, steps, u);
  }

  /** How many steps of its own a thread is from having its read lock. */
  function ToRead(p: PC): nat {
    match p
    case RdLocking => 3
    case RdEnter => 2
    case RdUnlocking => 1
    case _ => 0
  }

  /** The run passes a state in which t has its read lock. */
  ghost predicate GetsToRead(s: Lock, steps: seq<Event>, t: Tid) {
    exists k: nat, v :: k <= |steps| && IsRun(s, steps[..k], v) && t in v.pc && v.pc[t] == Reading
  }

  lemma {:induction false} ReaderGoesOn(s: Lock, t: Tid, steps: seq<Event>, u: Lock)
    requires t in s.pc && ToRead(s.pc[t]) > 0 && IsRun(s, steps, u) && Own(steps, t) >= ToRead(s.pc[t])
    ensures GetsToRead(s, steps, t)
    decreases |steps|
  {
    var e, rest := steps[0], steps[1..];
    var v := Next(s, e.tid, e.move);
    if v.pc[t] == Reading {
      assert steps[..1][1..] == [] && IsRun(v, [], v);
      assert IsRun(s, steps[..1], v);
    } else {
      ReaderGoesOn(v, t, rest, u);
      var k: nat, w :| k <= |rest| && IsRun(v, rest[..k], w) && t in w.pc && w.pc[t] == Reading;
      assert steps[..k + 1][1..] == rest[..k];
      assert IsRun(s, steps[..k + 1], w);
    }
  }

  /** A request for a read lock waits for nothing but the mutex, and in whatever order the threads run it is
      granted by the third step that the thread takes, whatever writers may be waiting. */
  lemma ReadGranted(threads: set<Tid>, s: Lock, t: Tid, steps: seq<Event>, u: Lock)
    requires Reachable(threads, s) && t in s.pc && s.pc[t] == RdLocking && IsRun(s, steps, u)
    ensures Enabled(s, t, Go) <==> s.mutex == Nobody
    ensures Own(steps, t) >= 3 ==> GetsToRead(s, steps, t)
  {
    if Own(steps, t) >= 3 { ReaderGoesOn(s, t, steps, u); }
  }

  lemma {:induction false} Drain(s: Lock, h: Tid, t: Tid) returns (steps: seq<Event>, u: Lock)
    requires Leaving(s, h) && t in s.pc && t != h && s.pc[t] == RdLocking
    ensures IsRun(s, steps, u) && |steps| <= ToRelease(s.pc[h]) && (forall e :: e in steps ==> e.tid == h)
    ensures u.mutex == Nobody && t in u.pc && u.pc[t] == RdLocking
    decreases ToRelease(s.pc[h])
  {
    var m := LeavingStep(s, h);
    LeavingOn(s, h, m);
    u := Next(s, h, m);
    steps := [];
    if ToRelease(s.pc[h]) > 1 {
      steps, u := Drain(u, h, t);
    }
    var all := [Event(h, m)] + steps;
    assert all[1..] == steps;
    steps := all;
  }

  lemma {:induction false} RunJoin(s: Lock, xs: seq<Event>, u: Lock, ys: seq<Event>, v: Lock)
    requires IsRun(s, xs, u) && IsRun(u, ys, v)
    ensures IsRun(s, xs + ys, v)
    decreases |xs|
  {
    if xs == [] {
      assert xs + ys == ys;
    } else {
      RunJoin(Next(s, xs[0].tid, xs[0].move), xs[1..], u, ys, v);
      assert (xs + ys)[1..] == xs[1..] + ys;
    }
  }

  lemma NotHolding(threads: set<Tid>, s: Lock, t: Tid)
    requires Reachable(threads, s) && t in s.pc && s.pc[t] == RdLocking
    ensures s.mutex != By(t)
  {
    ReachableOk(threads, s);
    assert ThreadOk(s, t);
  }

  /** And there is always a way to get there: while a reader is active, seven steps of the thread and of the
      holder of the mutex are enough. */
  lemma ReadSchedule(threads: set<Tid>, s: Lock, t: Tid) returns (steps: seq<Event>, u: Lock)
    requires Reachable(threads, s) && s.active_readers > 0 && t in s.pc && s.pc[t] == RdLocking
    ensures IsRun(s, steps, u) && |steps| <= 7 && t in u.pc && u.pc[t] == Reading
    ensures forall e :: e in steps ==> e.tid == t || s.mutex == By(e.tid)
  {
    hide Inv, Leaving, Reachable, Next, Enabled;
    steps, u := [], s;
    if s.mutex.By? {
      ReadersFirst(threads, s, s.mutex.tid);
      NotHolding(threads, s, t);
      steps, u := Drain(s, s.mutex.tid, t);
    }
    ghost var v := u;
    var ours;
    ours, u := FreeRun(u, t, AskRead);
    RunJoin(s, steps, v, ours, u);
    steps := steps + ours;
  }

  // ---------- last access ----------

  /** At these places a thread is inside unlock. */
  predicate Unlocks(p: PC) {
    || p.UnTest? || p.UnClear? || p.UnLocking?
    || p.UnWriters? || p.UnLeave? || p.UnReaders? || p.UnSignal? || p.UnRelease?
  }

  /** Once a thread has the write lock, or once nobody has the lock and the mutex is free, no other
      thread is still inside an unlock: the lock may be destroyed. */
  lemma LastAccess(threads: set<Tid>, s: Lock, t: Tid)
    requires Reachable(threads, s) && t in s.pc && Unlocks(s.pc[t])
    ensures forall w :: w in s.pc && w != t ==> s.pc[w] != Writing
    ensures s.active_readers == 0 ==> s.mutex == By(t)
  {
    ReachableOk(threads, s);
    assert ThreadOk(s, t);
    if Reads(s.pc[t]) { assert t in Readers(s); }
    forall w | w in s.pc && w != t ensures s.pc[w] != Writing {
      assert ThreadOk(s, w);
    }
  }

  // ---------- no deadlock ----------

  /** Outside, without a lock or with one. */
  predicate AtRest(p: PC) {
    p.Idle? || p.Reading? || p.Writing?
  }

  /** Thread t can take a step on its way in or out, other than to wake up for no reason. */
  ghost predicate CanMove(s: Lock, t: Tid) {
    t in s.pc && !AtRest(s.pc[t]) && exists m :: m != Spurious && Enabled(s, t, m)
  }

  lemma MoveIs(s: Lock, t: Tid)
    requires t in s.pc && !AtRest(s.pc[t]) && !s.pc[t].WrWaiting? && (Locks(s.pc[t]) ==> s.mutex == Nobody)
    ensures CanMove(s, t)
  {
    if s.pc[t] == UnSignal {
      var all := set w | w in s.pc && Asleep(s, w);
      assert forall w :: w in s.pc && Asleep(s, w) ==> w in all;
      assert Enabled(s, t, Wake(all));
    } else {
      assert Enabled(s, t, Go);
    }
  }

  /** A sleeping writer on a free mutex: a writer has been woken, or there is a reader. */
  lemma SleeperHasHope(s: Lock, t: Tid)
    requires Inv(s) && s.mutex == Nobody && Asleep(s, t)
    ensures exists w :: w in s.pc && (s.pc[w] == WrWoken || Reads(s.pc[w]))
  {
    if s.active_readers != 0 {
      var w :| w in Readers(s);
    }
  }

  /** As long as a thread is on its way in or out, some thread has the lock and is free to go on with its own
      work, or some thread can take its next step. */
  lemma NoDeadlock(threads: set<Tid>, s: Lock, t: Tid)
    requires Reachable(threads, s) && t in s.pc && !AtRest(s.pc[t])
    ensures exists w :: w in s.pc && (s.pc[w] == Reading || s.pc[w] == Writing || CanMove(s, w))
  {
    ReachableOk(threads, s);
    if s.mutex.By? {
      var h := s.mutex.tid;
      assert ThreadOk(s, h);
      if s.pc[h] != Writing { MoveIs(s, h); }
    } else if s.pc[t] == WrWaiting {
      SleeperHasHope(s, t);
      var w :| w in s.pc && (s.pc[w] == WrWoken || Reads(s.pc[w]));
      if s.pc[w] != Reading { MoveIs(s, w); }
    } else {
      MoveIs(s, t);
    }
  }

  // ---------- what a request comes to ----------

  /** The places of a thread on its way in, by what it asked for. */
  predicate OnTheWay(ask: Move, p: PC) {
    match ask
    case AskRead => (p.RdLocking? || p.RdEnter? || p.RdUnlocking?)
    case AskWrite =>
      (p.WrLocking? || p.WrTest? || p.WrQueue? || p.WrLoop? || p.WrWaiting? || p.WrWoken? || p.WrLeave? || p.WrGrant?)
    case _ => false
  }

  /** Thread t is at rest in no state of the run, but perhaps the last one. */
  ghost predicate Away(s: Lock, steps: seq<Event>, t: Tid)
    decreases |steps|
  {
    steps != [] ==>
      && t in s.pc && !AtRest(s.pc[t])
      && (Enabled(s, steps[0].tid, steps[0].move) ==> Away(Next(s, steps[0].tid, steps[0].move), steps[1..], t))
  }

  lemma StepOnTheWay(s: Lock, t: Tid, ask: Move, e: Tid, m: Move)
    requires t in s.pc && OnTheWay(ask, s.pc[t]) && Enabled(s, e, m)
    ensures t in Next(s, e, m).pc
    ensures var p := Next(s, e, m).pc[t]; OnTheWay(ask, p) || p == if ask == AskRead then Reading else Writing
  {
  }

  lemma {:induction false} WayEnds(s: Lock, t: Tid, ask: Move, steps: seq<Event>, u: Lock)
    requires t in s.pc && OnTheWay(ask, s.pc[t]) && IsRun(s, steps, u) && Away(s, steps, t)
    ensures t in u.pc && (OnTheWay(ask, u.pc[t]) || u.pc[t] == if ask == AskRead then Reading else Writing)
    decreases |steps|
  {
    hide Next, Enabled, OnTheWay;
    if steps != [] {
      var v := Next(s, steps[0].tid, steps[0].move);
      StepOnTheWay(s, t, ask, steps[0].tid, steps[0].move);
      if OnTheWay(ask, v.pc[t]) { WayEnds(v, t, ask, steps[1..], u); }
    }
  }

  /** In whatever order the threads run: when a thread that has asked for a lock is next at rest, it has the
      lock it asked for. */
  lemma Answered(s: Lock, t: Tid, ask: Move, steps: seq<Event>, u: Lock)
    requires t in s.pc && s.pc[t] == Idle && Enabled(s, t, ask)
    requires IsRun(Next(s, t, ask), steps, u) && Away(Next(s, t, ask), steps, t)
    ensures t in u.pc && (AtRest(u.pc[t]) ==> u.pc[t] == if ask == AskRead then Reading else Writing)
  {
    WayEnds(Next(s, t, ask), t, ask, steps, u);
  }

  /** What thread t last asked for in the run; `before`, when it asked for nothing. */
  function LastAsk(steps: seq<Event>, t: Tid, before: Move): Move {
    if steps == [] then before
    else
      var e := steps[0];
      LastAsk(steps[1..], t, if e.tid == t && e.move in {AskRead, AskWrite} then e.move else before)
  }

  /** A thread at place p has, or is about to have, the lock that it asked for. */
  predicate AsAsked(p: PC, ask: Move) {
    && (p.Reading? ==> ask == AskRead) && (p.Writing? ==> ask == AskWrite)
    && (AtRest(p) || Unlocks(p) || OnTheWay(ask, p))
  }

  lemma StepAsAsked(s: Lock, t: Tid, ask: Move, e: Event)
    requires t in s.pc && AsAsked(s.pc[t], ask) && Enabled(s, e.tid, e.move)
    ensures t in Next(s, e.tid, e.move).pc && AsAsked(Next(s, e.tid, e.move).pc[t], LastAsk([e], t, ask))
  {
    assert [e][1..] == [] && forall a :: LastAsk([], t, a) == a;
  }

  lemma {:induction false} RunAsAsked(s: Lock, t: Tid, ask: Move, steps: seq<Event>, u: Lock)
    requires t in s.pc && AsAsked(s.pc[t], ask) && IsRun(s, steps, u)
    ensures t in u.pc && AsAsked(u.pc[t], LastAsk(steps, t, ask))
    decreases |steps|
  {
    hide Next, AsAsked, Enabled;
    if steps != [] {
      StepAsAsked(s, t, ask, steps[0]);
      assert LastAsk(steps, t, ask) == LastAsk(steps[1..], t, LastAsk([steps[0]], t, ask)) by {
        assert [steps[0]][1..] == [] && forall a :: LastAsk([], t, a) == a;
      }
      RunAsAsked(Next(s, steps[0].tid, steps[0].move), t, LastAsk([steps[0]], t, ask), steps[1..], u);
    }
  }

  lemma {:induction false} SameThreads(s: Lock, steps: seq<Event>, u: Lock)
    requires IsRun(s, steps, u)
    ensures s.pc.Keys == u.pc.Keys
    decreases |steps|
  {
    if steps != [] { SameThreads(Next(s, steps[0].tid, steps[0].move), steps[1..], u); }
  }

  /** Of the threads with a lock each has the kind that it asked for last; and one that asked to write is
      alone with its lock. */
  lemma HeldAsAsked(threads: set<Tid>, steps: seq<Event>, u: Lock, t: Tid, w: Tid)
    requires IsRun(Initial(threads), steps, u) && t in u.pc && w in u.pc && t != w
    ensures u.pc[t] == Reading ==> LastAsk(steps, t, Go) == AskRead
    ensures u.pc[t] == Writing ==> LastAsk(steps, t, Go) == AskWrite
    ensures LastAsk(steps, t, Go) == AskWrite && u.pc[t] in {Reading, Writing} ==> u.pc[w] !in {Reading, Writing}
  {
    hide Inv, Next, Enabled;
    assert Reachable(threads, u);
    SameThreads(Initial(threads), steps, u);
    RunAsAsked(Initial(threads), t, Go, steps, u);
    if u.pc[t] == Writing { Exclusion(threads, u, t, w); }
  }

  // ---------- without contention ----------

  /** How many steps of its own a thread is from its lock, when nobody is in its way. */
  function ToLock(p: PC): nat {
    match p
    case RdLocking | WrLocking => 3
    case RdEnter | WrTest => 2
    case RdUnlocking | WrGrant => 1
    case _ => 0
  }

  /** Nothing is in the way of thread t, which has asked for a lock. */
  predicate FreeView(v: View, t: Tid, ask: Move) {
    && OnTheWay(ask, v.pc) && ToLock(v.pc) > 0 && v.mutex == (if Locks(v.pc) then Nobody else By(t))
    && (ask == AskWrite ==> v.active_readers == 0)
  }

  lemma ActFree(v: View, t: Tid, ask: Move)
    requires FreeView(v, t, ask)
    ensures var u := Act(v, t, Go);
            if ToLock(v.pc) == 1 then u.pc == (if ask == AskRead then Reading else Writing)
            else FreeView(u, t, ask) && ToLock(u.pc) < ToLock(v.pc)
  {
  }

  lemma FreeEnabled(s: Lock, t: Tid, ask: Move)
    requires t in s.pc && FreeView(ViewOf(s, t), t, ask)
    ensures Enabled(s, t, Go)
  {
  }

  lemma {:induction false} FreeRun(s: Lock, t: Tid, ask: Move) returns (steps: seq<Event>, u: Lock)
    requires t in s.pc && FreeView(ViewOf(s, t), t, ask)
    ensures IsRun(s, steps, u) && |steps| <= ToLock(s.pc[t]) && (forall e :: e in steps ==> e.tid == t)
    ensures t in u.pc && u.pc[t] == if ask == AskRead then Reading else Writing
    decreases ToLock(s.pc[t])
  {
    hide Act, FreeView, ToLock, Enabled;
    FreeEnabled(s, t, ask);
    ActFree(ViewOf(s, t), t, ask);
    u, steps := Next(s, t, Go), [];
    assert ViewOf(u, t) == Act(ViewOf(s, t), t, Go);
    if ToLock(s.pc[t]) > 1 {
      steps, u := FreeRun(u, t, ask);
    }
    var all := [Event(t, Go)] + steps;
    assert all[1..] == steps;
    steps := all;
  }

  /** Where nobody is in its way every request is granted, by four steps of the thread alone. */
  lemma Uncontended(threads: set<Tid>, s: Lock, t: Tid, ask: Move) returns (steps: seq<Event>, u: Lock)
    requires Reachable(threads, s) && t in s.pc && s.pc[t] == Idle && s.mutex == Nobody
    requires ask == AskRead || (ask == AskWrite && Readers(s) == {})
    ensures IsRun(s, steps, u) && |steps| <= 4 && steps != [] && steps[0].move == ask
    ensures (forall e :: e in steps ==> e.tid == t)
    ensures t in u.pc && u.pc[t] == if ask == AskRead then Reading else Writing
  {
    hide Reachable;
    ReachableOk(threads, s);
    steps, u := FreeRun(Next(s, t, ask), t, ask);
    var all := [Event(t, ask)] + steps;
    assert all[1..] == steps;
    steps := all;
  }
}
