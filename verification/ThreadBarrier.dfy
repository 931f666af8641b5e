/** Threads that wait for each other at a barrier made of a mutex and a condition variable. */
module ThreadBarrier {

  // ----------------------------------------------------------------------- the barrier

  /** Between its critical sections the barrier waits for more threads than have come. */
  predicate Settled(n: nat, waitFor: nat) { waitFor == 0 || n < waitFor }

  predicate Releases(n: nat, waitFor: nat) { waitFor > 0 && n == waitFor }

  /** What a call does to the counters, and whether it wakes those who wait. */
  function Blocked(n: nat, waitFor: nat): (nat, nat, bool) {
    if Releases(n + 1, waitFor) then (0, 0, true) else (n + 1, waitFor, false)
  }

  function Released(n: nat, num: nat): (nat, nat, bool) { if n >= num then (0, 0, true) else (n, num, false) }

  /** The counters, changed only by a thread that holds the mutex.  Each method is the part of a
      call between taking the mutex and either waiting or giving the mutex back. */
  class WaitForThreads {
    var n: nat
    var waitFor: nat

    constructor ()
      ensures n == 0 && waitFor == 0 && Valid()
    {
      n, waitFor := 0, 0;
    }

    predicate Valid()
      reads this
    {
      Settled(n, waitFor)
    }

    method UnblockThreads()
      modifies this
      ensures n == 0 && waitFor == 0 && Valid()
    {
      n := 0;
      waitFor := 0;
    }

    /** The assertion in the middle is the source's own. */
    method Block() returns (broadcast: bool)
      requires Valid()
      modifies this
      ensures Valid()
      ensures (n, waitFor, broadcast) == Blocked(old(n), old(waitFor))
    {
      n := n + 1;
      assert waitFor == 0 || n <= waitFor;
      broadcast := waitFor > 0 && n == waitFor;
      if broadcast {
        UnblockThreads();
      }
    }

    method ReleaseThreads(num: nat) returns (broadcast: bool)
      requires Valid()
      modifies this
      ensures Valid()
      ensures (n, waitFor, broadcast) == Released(old(n), num)
    {
      broadcast := n >= num;
      if broadcast {
        UnblockThreads();
      } else {
        waitFor := num;
      }
    }
  }

  // ----------------------------------------------------------------------- the machine

  datatype Pc =
    | Start      // about to take the mutex
    | Locked     // holds it
    | Counted    // holds it and has been counted
    | Waiting    // gave it back and waits for a broadcast
    | Woken      // was woken and is about to take it again
    | Leaving    // holds it, about to return
    | Done

  datatype Role = Worker | Releaser(num: nat)

  datatype Thread = Thread(role: Role, pc: Pc)

  datatype Mutex = Free | Held(t: nat)

  datatype State = State(n: nat, waitFor: nat, mutex: Mutex, threads: seq<Thread>)

  predicate HasMutex(p: Pc) { p.Locked? || p.Counted? || p.Leaving? }

  function Wake(x: Thread): Thread { if x.pc.Waiting? then x.(pc := Woken) else x }

  function Broadcast(ts: seq<Thread>): (r: seq<Thread>)
    ensures |r| == |ts| && forall i :: 0 <= i < |ts| ==> r[i] == Wake(ts[i])
  {
    if ts == [] then [] else [Wake(ts[0])] + Broadcast(ts[1..])
  }

  predicate Enabled(s: State, t: nat) {
    t < |s.threads| && match s.threads[t].pc
      case Start | Woken => s.mutex.Free?
      case Locked | Counted | Leaving => true
      case Waiting | Done => false
  }

  function At(s: State, t: nat, p: Pc): seq<Thread>
    requires t < |s.threads|
  {
    s.threads[t := s.threads[t].(pc := p)]
  }

  /** Reset the counters and wake everyone who waits; the thread itself goes on to leave. */
  function Unblock(s: State, t: nat): State
    requires t < |s.threads|
  {
    s.(n := 0, waitFor := 0, threads := Broadcast(At(s, t, Leaving)))
  }

  function Step(s: State, t: nat): State
    requires Enabled(s, t)
  {
    match s.threads[t].pc
    case Start => s.(mutex := Held(t), threads := At(s, t, Locked))
    case Locked =>
      (match s.threads[t].role
       case Worker => s.(n := s.n + 1, threads := At(s, t, Counted))
       case Releaser(num) =>
         if s.n >= num then Unblock(s, t) else s.(waitFor := num, mutex := Free, threads := At(s, t, Waiting)))
    case Counted =>
      if Releases(s.n, s.waitFor) then Unblock(s, t) else s.(mutex := Free, threads := At(s, t, Waiting))
    case Woken => s.(mutex := Held(t), threads := At(s, t, Leaving))
    case Leaving => s.(mutex := Free, threads := At(s, t, Done))
  }

  /** A thread that has the mutex does with two moves, which nobody comes between, what the call
      does: it goes on to leave if it wakes the others, and else waits. */
  lemma BlockIsTwoMoves(s: State, t: nat)
    requires t < |s.threads| && s.threads[t] == Thread(Worker, Locked) && Exclusive(s)
    ensures Enabled(s, t) && Enabled(Step(s, t), t)
    ensures forall u :: Enabled(Step(s, t), u) ==> u == t
    ensures var r := Step(Step(s, t), t);
      (r.n, r.waitFor, r.threads[t].pc.Leaving?) == Blocked(s.n, s.waitFor)
        && (r.threads[t].pc.Leaving? || r.threads[t].pc.Waiting?)
  {
  }

  lemma ReleaseIsOneMove(s: State, t: nat)
    requires t < |s.threads| && s.threads[t].role.Releaser? && s.threads[t].pc.Locked?
    ensures Enabled(s, t)
    ensures var r := Step(s, t);
      (r.n, r.waitFor, r.threads[t].pc.Leaving?) == Released(s.n, s.threads[t].role.num)
        && (r.threads[t].pc.Leaving? || r.threads[t].pc.Waiting?)
  {
  }

  /** A schedule names the thread that moves next; one that cannot move is passed over. */
  function Run(s: State, schedule: seq<nat>): State
    decreases |schedule|
  {
    if schedule == [] then s
    else Run(if Enabled(s, schedule[0]) then Step(s, schedule[0]) else s, schedule[1..])
  }

  predicate Initial(s: State) {
    s.n == 0 && s.waitFor == 0 && s.mutex.Free? && forall i :: 0 <= i < |s.threads| ==> s.threads[i].pc.Start?
  }

  // -------------------------------------------------------------- any threads, any schedule

  /** At most one thread has the mutex, and it is the one that the mutex names. */
  predicate Exclusive(s: State) {
    && (forall i :: 0 <= i < |s.threads| ==> (HasMutex(s.threads[i].pc) <==> s.mutex == Held(i)))
    && (s.mutex.Held? ==> s.mutex.t < |s.threads|)
  }

  predicate SomeoneCounted(s: State) { s.mutex.Held? && s.mutex.t < |s.threads| && s.threads[s.mutex.t].pc.Counted? }

  predicate Inv(s: State) {
    && Exclusive(s)
    && if SomeoneCounted(s) then s.n > 0 && Settled(s.n - 1, s.waitFor) else Settled(s.n, s.waitFor)
  }

  lemma InvStep(s: State, t: nat)
    requires Inv(s) && Enabled(s, t)
    ensures Inv(Step(s, t))
  {
  }

  /** For any threads, however many call either operation and with whatever numbers: a thread
      that was counted finds no more threads counted than are waited for. */
  lemma {:induction false} CounterHolds(s: State, schedule: seq<nat>)
    requires Inv(s)
    ensures Inv(Run(s, schedule))
    ensures var r := Run(s, schedule);
      forall t :: 0 <= t < |r.threads| && r.threads[t].pc.Counted? ==> r.waitFor == 0 || r.n <= r.waitFor
    decreases |schedule|
  {
    if schedule != [] {
      if Enabled(s, schedule[0]) {
        InvStep(s, schedule[0]);
        CounterHolds(Step(s, schedule[0]), schedule[1..]);
      } else {
        CounterHolds(s, schedule[1..]);
      }
    }
  }

  // -------------------------------------------------- as many workers as are waited for

  /** One releaser that waits for as many workers as there are. */
  predicate Matched(s: State) {
    s.threads != [] && s.threads[0].role == Releaser(|s.threads| - 1)
    && forall i :: 1 <= i < |s.threads| ==> s.threads[i].role.Worker?
  }

  predicate Arrived(x: Thread) { x.role.Worker? && (x.pc.Counted? || x.pc.Waiting?) }

  function Arrivals(ts: seq<Thread>): nat {
    if ts == [] then 0 else Arrivals(ts[..|ts| - 1]) + if Arrived(ts[|ts| - 1]) then 1 else 0
  }

  lemma {:induction false} ArrivalsUpdate(ts: seq<Thread>, i: nat, x: Thread)
    requires i < |ts|
    ensures Arrivals(ts[i := x]) == Arrivals(ts) + (if Arrived(x) then 1 else 0) - (if Arrived(ts[i]) then 1 else 0)
    decreases |ts|
  {
    var n := |ts| - 1;
    if i < n {
      ArrivalsUpdate(ts[..n], i, x);
      assert ts[i := x][..n] == ts[..n][i := x];
    } else {
      assert ts[i := x][..n] == ts[..n];
    }
  }

  /** Threads that are not all there are fewer. */
  lemma {:induction false} ArrivalsMissing(ts: seq<Thread>, missing: nat)
    ensures Arrivals(ts) <= |ts|
    ensures missing < |ts| && !Arrived(ts[missing]) ==> Arrivals(ts) < |ts|
    ensures ts != [] && !ts[0].role.Worker? && 0 < missing < |ts| && !Arrived(ts[missing]) ==> Arrivals(ts) < |ts| - 1
    ensures (forall i :: 1 <= i < |ts| ==> Arrived(ts[i])) && ts != [] && !ts[0].role.Worker? ==>
      Arrivals(ts) == |ts| - 1
    decreases |ts|
  {
    if ts != [] {
      ArrivalsMissing(ts[..|ts| - 1], missing);
      ArrivalsMissing(ts[..|ts| - 1], 0);
    }
  }

  predicate Passed(p: Pc) { p.Woken? || p.Leaving? || p.Done? }

  /** Nobody has passed; the workers that have come are counted, and the releaser has left word
      if it has come. */
  predicate Before(s: State)
    requires s.threads != []
  {
    && (forall i :: 0 <= i < |s.threads| ==> !Passed(s.threads[i].pc))
    && s.n == Arrivals(s.threads) && !s.threads[0].pc.Counted?
    && s.waitFor == (if s.threads[0].pc.Waiting? then |s.threads| - 1 else 0)
    && (s.threads[0].pc.Waiting? ==> |s.threads| > 1)
  }

  /** Everybody has passed. */
  predicate After(s: State) {
    s.n == 0 && s.waitFor == 0 && forall i :: 0 <= i < |s.threads| ==> Passed(s.threads[i].pc)
  }

  predicate Phased(s: State) { Inv(s) && Matched(s) && (Before(s) || After(s)) }

  lemma PhasedStep(s: State, t: nat)
    requires Phased(s) && Enabled(s, t)
    ensures Phased(Step(s, t))
  {
    InvStep(s, t);
    MatchedStep(s, t);
    if Before(s) {
      BeforeStep(s, t);
    } else {
      AfterStep(s, t);
    }
  }

  lemma MatchedStep(s: State, t: nat)
    requires Matched(s) && Enabled(s, t)
    ensures Matched(Step(s, t))
  {
  }

  lemma AfterStep(s: State, t: nat)
    requires Inv(s) && After(s) && Enabled(s, t)
    ensures After(Step(s, t))
  {
  }

  lemma BeforeStep(s: State, t: nat)
    requires Inv(s) && Matched(s) && Before(s) && Enabled(s, t)
    ensures Before(Step(s, t)) || After(Step(s, t))
  {
    if (s.threads[t].pc.Locked? && t == 0 && s.n >= |s.threads| - 1)
      || (s.threads[t].pc.Counted? && Releases(s.n, s.waitFor)) {
      AllArrived(s, t);
    } else {
      var x := Step(s, t).threads[t];
      assert Step(s, t).threads == s.threads[t := x];
      ArrivalsUpdate(s.threads, t, x);
    }
  }

  /** When as many have been counted as there are workers, everyone but the holder waits. */
  lemma AllArrived(s: State, t: nat)
    requires Inv(s) && Matched(s) && Before(s) && s.n >= |s.threads| - 1 && s.mutex == Held(t) && t < |s.threads|
    requires t == 0 || s.waitFor > 0
    ensures forall i :: 0 <= i < |s.threads| && i != t ==> s.threads[i].pc.Waiting?
    ensures After(Unblock(s, t))
  {
    forall i | 0 <= i < |s.threads| && i != t ensures s.threads[i].pc.Waiting? {
      ArrivalsMissing(s.threads, i);
    }
  }

  lemma {:induction false} PhasedRun(s: State, schedule: seq<nat>)
    requires Phased(s)
    ensures Phased(Run(s, schedule)) && |Run(s, schedule).threads| == |s.threads|
    decreases |schedule|
  {
    if schedule != [] {
      if Enabled(s, schedule[0]) {
        PhasedStep(s, schedule[0]);
        PhasedRun(Step(s, schedule[0]), schedule[1..]);
      } else {
        PhasedRun(s, schedule[1..]);
      }
    }
  }

  lemma InitialIsPhased(s: State)
    requires Initial(s) && Matched(s)
    ensures Phased(s)
  {
    NoArrivals(s.threads);
  }

  lemma {:induction false} NoArrivals(ts: seq<Thread>)
    requires forall i :: 0 <= i < |ts| ==> ts[i].pc.Start?
    ensures Arrivals(ts) == 0
    decreases |ts|
  {
    if ts != [] {
      NoArrivals(ts[..|ts| - 1]);
    }
  }

  /** Has called its operation and been counted or recorded. */
  predicate Came(p: Pc) { !p.Start? && !p.Locked? }

  /** Whatever the schedule, nobody gets past the barrier before all workers and the releaser
      have come to it. */
  lemma NobodyPassesEarly(s: State, schedule: seq<nat>)
    requires Initial(s) && Matched(s)
    ensures var r := Run(s, schedule);
      |r.threads| == |s.threads|
      && ((exists i :: 0 <= i < |r.threads| && Passed(r.threads[i].pc)) ==>
            forall j :: 0 <= j < |r.threads| ==> Came(r.threads[j].pc))
  {
    InitialIsPhased(s);
    PhasedRun(s, schedule);
  }

  // ------------------------------------------------------------- progress and termination

  predicate AllDone(s: State) { forall i :: 0 <= i < |s.threads| ==> s.threads[i].pc.Done? }

  /** Unless everyone is done, someone can move. */
  lemma NoDeadlock(s: State) returns (t: nat)
    requires Phased(s) && !AllDone(s)
    ensures Enabled(s, t)
  {
    if s.mutex.Held? {
      t := s.mutex.t;
    } else if i :| 0 <= i < |s.threads| && (s.threads[i].pc.Start? || s.threads[i].pc.Woken?) {
      t := i;
    } else {
      ArrivalsMissing(s.threads, 0);
      assert false;
    }
  }

  function Rank(p: Pc): nat {
    match p
    case Start => 6
    case Locked => 5
    case Counted => 4
    case Waiting => 3
    case Woken => 2
    case Leaving => 1
    case Done => 0
  }

  function Work(ts: seq<Thread>): nat { if ts == [] then 0 else Rank(ts[0].pc) + Work(ts[1..]) }

  lemma {:induction false} WorkUpdate(ts: seq<Thread>, i: nat, x: Thread)
    requires i < |ts|
    ensures Work(ts[i := x]) == Work(ts) + Rank(x.pc) - Rank(ts[i].pc)
    decreases |ts|
  {
    if i > 0 {
      WorkUpdate(ts[1..], i - 1, x);
      assert ts[i := x][1..] == ts[1..][i - 1 := x];
    } else {
      assert ts[i := x][1..] == ts[1..];
    }
  }

  lemma {:induction false} BroadcastWork(ts: seq<Thread>)
    ensures Work(Broadcast(ts)) <= Work(ts)
    decreases |ts|
  {
    if ts != [] {
      BroadcastWork(ts[1..]);
      assert Broadcast(ts)[1..] == Broadcast(ts[1..]);
    }
  }

  /** Every move leaves less to do, for any threads. */
  lemma StepWorks(s: State, t: nat)
    requires Enabled(s, t)
    ensures Work(Step(s, t).threads) < Work(s.threads)
  {
    var p := match s.threads[t].pc
      case Start => Locked
      case Locked => if s.threads[t].role.Worker? then Counted else if s.n >= s.threads[t].role.num then Leaving
        else Waiting
      case Counted => if Releases(s.n, s.waitFor) then Leaving else Waiting
      case Woken => Leaving
      case _ => Done;
    WorkUpdate(s.threads, t, s.threads[t].(pc := p));
    BroadcastWork(At(s, t, p));
  }

  /** A schedule in which every thread named can move. */
  predicate Moves(s: State, schedule: seq<nat>)
    decreases |schedule|
  {
    schedule == [] || (Enabled(s, schedule[0]) && Moves(Step(s, schedule[0]), schedule[1..]))
  }

  /** Every run ends, and where it ends everyone is done. */
  lemma {:induction false} EveryRunEnds(s: State, schedule: seq<nat>)
    requires Moves(s, schedule)
    ensures |schedule| + Work(Run(s, schedule).threads) <= Work(s.threads)
    ensures Phased(s) && AtEnd(Run(s, schedule)) ==> AllDone(Run(s, schedule))
    decreases |schedule|
  {
    if schedule != [] {
      StepWorks(s, schedule[0]);
      EveryRunEnds(Step(s, schedule[0]), schedule[1..]);
      if Phased(s) {
        PhasedStep(s, schedule[0]);
      }
    } else if Phased(s) && !AllDone(s) {
      var t := NoDeadlock(s);
    }
  }

  /** From every state that can be reached, some schedule finishes everyone. */
  lemma {:induction false} CanFinish(s: State) returns (schedule: seq<nat>)
    requires Phased(s)
    ensures Moves(s, schedule) && AllDone(Run(s, schedule))
    decreases Work(s.threads)
  {
    if AllDone(s) {
      schedule := [];
    } else {
      var t := NoDeadlock(s);
      StepWorks(s, t);
      PhasedStep(s, t);
      var rest := CanFinish(Step(s, t));
      schedule := [t] + rest;
      assert schedule[1..] == rest;
    }
  }

  // ------------------------------------------------------ any other number of workers

  /** One releaser that waits for `num`, and the rest workers. */
  predicate OneReleaser(s: State, num: nat) {
    && s.threads != [] && s.threads[0].role == Releaser(num)
    && forall i :: 1 <= i < |s.threads| ==> s.threads[i].role.Worker?
  }

  ghost predicate AtEnd(s: State) { forall t: nat :: !Enabled(s, t) }

  lemma {:induction false} RunJoin(s: State, a: seq<nat>, b: seq<nat>)
    requires Moves(s, a) && Moves(Run(s, a), b)
    ensures Moves(s, a + b) && Run(s, a + b) == Run(Run(s, a), b)
    decreases |a|
  {
    if a == [] {
      assert a + b == b;
    } else {
      assert (a + b)[1..] == a[1..] + b;
      RunJoin(Step(s, a[0]), a[1..], b);
    }
  }

  /** Fewer workers than are waited for: nobody has passed. */
  predicate TooFew(s: State, num: nat) {
    && OneReleaser(s, num) && Inv(s) && |s.threads| - 1 < num
    && (forall i :: 0 <= i < |s.threads| ==> !Passed(s.threads[i].pc)) && !s.threads[0].pc.Counted?
    && s.n == Arrivals(s.threads) && (s.waitFor == 0 || s.waitFor == num)
  }

  /** The first `done` threads are done, the others are workers that came late. */
  predicate Late(s: State, done: nat) {
    && done < |s.threads| && Inv(s) && s.waitFor == 0
    && (forall i :: 0 <= i < done ==> s.threads[i].pc.Done?)
    && (forall i :: done <= i < |s.threads| ==> s.threads[i].role.Worker? && !Passed(s.threads[i].pc))
  }

  predicate Doomed(s: State, num: nat, done: nat) { TooFew(s, num) || Late(s, done) }

  lemma TooFewStep(s: State, t: nat, num: nat)
    requires TooFew(s, num) && Enabled(s, t)
    ensures TooFew(Step(s, t), num)
  {
    InvStep(s, t);
    FewWorkers(s.threads);
    var x := Step(s, t).threads[t];
    assert Step(s, t).threads == s.threads[t := x];
    ArrivalsUpdate(s.threads, t, x);
  }

  lemma LateStep(s: State, t: nat, done: nat)
    requires Late(s, done) && Enabled(s, t)
    ensures Late(Step(s, t), done)
  {
    InvStep(s, t);
  }

  /** The releaser is not a worker. */
  lemma {:induction false} FewWorkers(ts: seq<Thread>)
    requires ts != [] && !ts[0].role.Worker?
    ensures Arrivals(ts) <= |ts| - 1
    decreases |ts|
  {
    if |ts| > 1 {
      FewWorkers(ts[..|ts| - 1]);
    } else {
      assert Arrivals(ts[..0]) == 0;
    }
  }

  /** Go on until nobody can move: somebody still waits. */
  lemma {:induction false} DoomedRun(s: State, num: nat, done: nat) returns (schedule: seq<nat>)
    requires Doomed(s, num, done)
    ensures Moves(s, schedule) && AtEnd(Run(s, schedule)) && !AllDone(Run(s, schedule))
    decreases Work(s.threads)
  {
    if t: nat :| Enabled(s, t) {
      StepWorks(s, t);
      if TooFew(s, num) {
        TooFewStep(s, t, num);
      } else {
        LateStep(s, t, done);
      }
      var rest := DoomedRun(Step(s, t), num, done);
      schedule := [t] + rest;
      assert schedule[1..] == rest;
    } else {
      schedule := [];
      assert s.threads[if TooFew(s, num) then 0 else done].pc != Done;
    }
  }

  /** The same state with more threads that have not started. */
  function WithMore(s: State, more: seq<Thread>): State { s.(threads := s.threads + more) }

  predicate AllStart(ts: seq<Thread>) { forall i :: 0 <= i < |ts| ==> ts[i].pc.Start? }

  lemma {:induction false} BroadcastMore(ts: seq<Thread>, more: seq<Thread>)
    requires AllStart(more)
    ensures Broadcast(ts + more) == Broadcast(ts) + more
    decreases |ts|
  {
    assert |Broadcast(ts + more)| == |Broadcast(ts) + more|;
    forall i | 0 <= i < |ts + more| ensures Broadcast(ts + more)[i] == (Broadcast(ts) + more)[i] {
    }
  }

  lemma StepMore(s: State, more: seq<Thread>, t: nat)
    requires AllStart(more) && Enabled(s, t)
    ensures Enabled(WithMore(s, more), t) && Step(WithMore(s, more), t) == WithMore(Step(s, t), more)
  {
    var w := WithMore(s, more);
    forall p: Pc ensures At(w, t, p) == At(s, t, p) + more {
    }
    BroadcastMore(At(s, t, Leaving), more);
  }

  lemma {:induction false} RunMore(s: State, more: seq<Thread>, schedule: seq<nat>)
    requires AllStart(more) && Moves(s, schedule)
    ensures Moves(WithMore(s, more), schedule) && Run(WithMore(s, more), schedule) == WithMore(Run(s, schedule), more)
    decreases |schedule|
  {
    if schedule != [] {
      StepMore(s, more, schedule[0]);
      RunMore(Step(s, schedule[0]), more, schedule[1..]);
    }
  }

  lemma DoneIsLate(mid: State, more: seq<Thread>)
    requires Phased(mid) && AllDone(mid) && AllStart(more) && more != []
    requires forall i :: 0 <= i < |more| ==> more[i].role.Worker?
    ensures Late(WithMore(mid, more), |mid.threads|)
  {
    assert mid.threads[0].pc.Done?;
    assert mid.mutex.Free?;
  }

  /** With fewer or more workers than are waited for, some run leaves a thread waiting for ever. */
  lemma SomeRunIsStuck(s: State, num: nat) returns (schedule: seq<nat>)
    requires Initial(s) && OneReleaser(s, num) && |s.threads| - 1 != num
    ensures Moves(s, schedule) && AtEnd(Run(s, schedule)) && !AllDone(Run(s, schedule))
  {
    if |s.threads| - 1 < num {
      NoArrivals(s.threads);
      schedule := DoomedRun(s, num, 0);
    } else {
      var first, more := s.(threads := s.threads[..num + 1]), s.threads[num + 1..];
      InitialIsPhased(first);
      var a := CanFinish(first);
      PhasedRun(first, a);
      RunMore(first, more, a);
      assert WithMore(first, more) == s;
      DoneIsLate(Run(first, a), more);
      var b := DoomedRun(Run(s, a), num, num + 1);
      RunJoin(s, a, b);
      schedule := a + b;
    }
  }

  /** Every run that cannot go on has finished everyone exactly when there are as many workers as
      the releaser waits for. */
  lemma FinishesExactly(s: State, num: nat)
    requires Initial(s) && OneReleaser(s, num)
    ensures (forall schedule {:trigger Run(s, schedule)} ::
      Moves(s, schedule) && AtEnd(Run(s, schedule)) ==> AllDone(Run(s, schedule)))
       <==> |s.threads| - 1 == num
  {
    if |s.threads| - 1 == num {
      InitialIsPhased(s);
      forall schedule | Moves(s, schedule) && AtEnd(Run(s, schedule)) ensures AllDone(Run(s, schedule)) {
        EveryRunEnds(s, schedule);
      }
    } else {
      var schedule := SomeRunIsStuck(s, num);
    }
  }
}
