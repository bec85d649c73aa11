/** When the lock of hw3 lets a thread in, who leaves the waiting queue, and in which order a
    pass makes threads ready. */
module SchedLock {
  import opened SchedMachine
  import opened SchedInvariant
  import opened SchedRuns
  import opened SchedResults
  import opened SchedOrder

  ghost predicate NobodyAt(s: Sys, pc: Pc) {
    forall u: nat {:trigger s.tcbs[u]} :: u < |s.tcbs| ==> s.tcbs[u].pc != pc
  }

  lemma CountsTellWho(s: Sys)
    requires InvLocks(s)
    ensures s.readers == 0 <==> NobodyAt(s, Reading)
    ensures s.writers == 0 <==> NobodyAt(s, Writing)
  {
    assert forall u: nat {:trigger s.tcbs[u]} :: u < |s.tcbs| && s.tcbs[u].pc.Reading? ==> u in Having(s.tcbs, Reading);
    assert forall u: nat {:trigger s.tcbs[u]} :: u < |s.tcbs| && s.tcbs[u].pc.Writing? ==> u in Having(s.tcbs, Writing);
    assert s.readers != 0 ==> Having(s.tcbs, Reading) != {};
    assert s.writers != 0 ==> Having(s.tcbs, Writing) != {};
  }

  // ---- Getting in

  /** The thread has come to read_lock or back to it. */
  predicate AtReadLock(tcb: Tcb) {
    tcb.job.Enroll? && (tcb.pc.AfterSleep? || tcb.pc.WantRead?)
  }

  predicate AtWriteLock(tcb: Tcb) {
    tcb.job.Enroll? && (tcb.pc.AfterRead? || tcb.pc.WantWrite?)
  }

  /** The sleeper that the thread awakens on its way to read_lock. */
  function Woken(s: Sys, tcb: Tcb): seq<nat> {
    if tcb.job.Enroll? && tcb.pc.AfterSleep? && tcb.job.b > 0 && tcb.job.b - 1 in s.asleep then [tcb.job.b - 1] else []
  }

  /** The thread is put behind all others that wait. */
  ghost predicate WaitsLast(s: Sys, t: nat) {
    s.waiting != [] && s.waiting[|s.waiting| - 1] == t && s.current != Running(t)
  }

  /** It has gone on without a switch; the queues are the same but for a sleeper it awakened. */
  ghost predicate WentOn(s: Sys, s': Sys, t: nat, woken: seq<nat>) {
    && s'.current == Running(t) && s'.waiting == s.waiting && s'.ready == s.ready + woken
    && s'.asleep == s.asleep - (set u | u in woken)
  }

  /** A thread at read_lock gets in if and only if nobody writes, however many read; otherwise
      it waits. */
  lemma ReaderEnters(s: Sys, s': Sys, t: nat)
    requires Inv(s) && Next(s, Go, s') && s.current == Running(t) && AtReadLock(s.tcbs[t])
    ensures |s'.tcbs| == |s.tcbs|
    ensures if NobodyAt(s, Writing)
            then s'.tcbs[t].pc.Reading? && s'.readers == s.readers + 1 && s'.writers == s.writers
                 && WentOn(s, s', t, Woken(s, s.tcbs[t]))
            else s'.tcbs[t].pc.WantRead? && s'.readers == s.readers && s'.writers == s.writers && WaitsLast(s', t)
  {
    CountsTellWho(s);
    ExecAtReadLock(s, t);
    if s.writers > 0 {
      Blocked(s, s', t);
    }
  }

  lemma ExecAtReadLock(s: Sys, t: nat)
    requires Inv(s) && s.current == Running(t) && AtReadLock(s.tcbs[t])
    ensures var e, cause := Exec(s).0, Exec(s).1;
      && |e.tcbs| == |s.tcbs| && e.writers == s.writers
      && (cause.ByLock? <==> s.writers > 0) && (cause.First? <==> s.writers <= 0)
      && (cause.ByLock? ==> e.tcbs[t].pc.WantRead? && e.readers == s.readers)
      && (cause.First? ==> e.tcbs[t].pc.Reading? && e.readers == s.readers + 1 && WentOn(s, e, t, Woken(s, s.tcbs[t])))
  {
    assert s.ready + [] == s.ready && s.asleep - {} == s.asleep;
  }

  /** A thread at write_lock gets in if and only if nobody reads or writes; otherwise it waits. */
  lemma WriterEnters(s: Sys, s': Sys, t: nat)
    requires Inv(s) && Next(s, Go, s') && s.current == Running(t) && AtWriteLock(s.tcbs[t])
    ensures |s'.tcbs| == |s.tcbs|
    ensures if NobodyAt(s, Reading) && NobodyAt(s, Writing)
            then s'.tcbs[t].pc.Writing? && s'.readers == 0 && s'.writers == 1 && WentOn(s, s', t, [])
            else s'.tcbs[t].pc.WantWrite? && s'.readers == s.readers && s'.writers == s.writers && WaitsLast(s', t)
  {
    CountsTellWho(s);
    var e, cause := Exec(s).0, Exec(s).1;
    if cause.ByLock? {
      Blocked(s, s', t);
    } else {
      assert s.ready + [] == s.ready;
    }
  }

  lemma ExecCurrent(s: Sys)
    requires Shaped(s) && s.current.Running?
    ensures Exec(s).0.current == s.current
  {
  }

  lemma Blocked(s: Sys, s': Sys, t: nat)
    requires Inv(s) && Next(s, Go, s') && s.current == Running(t) && Exec(s).1.ByLock?
    ensures SameData(Exec(s).0, s') && WaitsLast(s', t)
  {
    ExecCurrent(s);
    StepKeepsInv(s, Go);
    BlockedIsLast(Exec(s).0, s', t);
  }

  lemma BlockedIsLast(e: Sys, s': Sys, t: nat)
    requires Shaped(e) && e.current == Running(t) && s' == Pass(e, ByLock) && Inv(s')
    ensures SameData(e, s') && WaitsLast(s', t)
  {
    PassKeepsData(e, ByLock);
    if s'.current == Running(t) {
      CurrentIsNowhereElse(s', t);
    }
  }

  // ---- Leaving the waiting queue

  /** The lock that the thread waits for can be had. */
  ghost predicate CanBeHad(s: Sys, t: nat)
    requires t < |s.tcbs|
  {
    NobodyAt(s, Writing) && (s.tcbs[t].pc.WantWrite? ==> NobodyAt(s, Reading))
  }

  lemma MayGoMeans(s: Sys, t: nat)
    requires InvLocks(s) && t < |s.tcbs| && Waits(s.tcbs[t])
    ensures MayGo(s.tcbs[t], s.readers, s.writers) <==> CanBeHad(s, t)
  {
    CountsTellWho(s);
  }

  lemma {:induction false} ReleasedExactly(s: Sys, waiting: seq<nat>)
    requires InvLocks(s) && forall j :: 0 <= j < |waiting| ==> waiting[j] < |s.tcbs| && Waits(s.tcbs[waiting[j]])
    ensures var k := Released(waiting, s.tcbs, s.readers, s.writers);
      && (forall j :: 0 <= j < k ==> CanBeHad(s, waiting[j]))
      && (k < |waiting| ==> !CanBeHad(s, waiting[k]))
  {
    if waiting != [] {
      MayGoMeans(s, waiting[0]);
      ReleasedExactly(s, waiting[1..]);
    }
  }

  // ---- The order of a pass

  /** The running thread and those ready behind it. */
  function Turns(s: Sys): seq<nat> {
    (if s.current.Running? then [s.current.t] else []) + s.ready
  }

  /** ids lists the threads of due, the lower ids first. */
  ghost predicate ByIds(ids: seq<nat>, due: set<nat>) {
    (forall t: nat :: t in ids <==> t in due) && forall a, b :: 0 <= a < b < |ids| ==> ids[a] < ids[b]
  }

  lemma {:induction false} MarkedByIds(marks: seq<bool>, k: nat)
    ensures ByIds(Marked(marks, k), set t: nat | k <= t < |marks| && marks[t])
    decreases |marks| - k
  {
    if k < |marks| {
      var rest := Marked(marks, k + 1);
      MarkedByIds(marks, k + 1);
      MarkedInRange(marks, k + 1);
      forall t: nat ensures t in Marked(marks, k) <==> k <= t < |marks| && marks[t] {
        assert t in rest <==> k + 1 <= t < |marks| && marks[t];
      }
    }
  }

  lemma DueByIds(s: Sys)
    requires Shaped(s)
    ensures ByIds(DueFrom(s, 0), set t | t in s.asleep && s.tcbs[t].sleepingTime == 0)
  {
    var marks := seq(|s.tcbs|, t requires 0 <= t => IsDue(s, t));
    MarkedByIds(marks, 0);
    forall t: nat ensures t in DueFrom(s, 0) <==> t in s.asleep && s.tcbs[t].sleepingTime == 0 {
      assert t in DueFrom(s, 0) <==> t < |marks| && marks[t];
    }
  }

  /** The thread that a signal has taken the processor from. */
  function Preempted(s: Sys, cause: Cause): seq<nat> {
    if cause.BySignal? && s.current.Running? then [s.current.t] else []
  }

  /** A pass takes the threads in this order: those ready before, the sleepers whose time is up
      by their ids, the front of the waiting queue as far as each finds its lock free, and last
      the thread that was preempted. */
  lemma PassTakesInOrder(s: Sys, cause: Cause) returns (due: seq<nat>, k: nat)
    requires Shaped(s) && InvPc(s) && InvLocks(s)
    ensures ByIds(due, set t | t in s.asleep && s.tcbs[t].sleepingTime == 0) && k <= |s.waiting|
    ensures Turns(Pass(s, cause)) == s.ready + due + s.waiting[..k] + Preempted(s, cause)
    ensures Pass(s, cause).waiting == s.waiting[k..] + PutWaiting(s, cause)
    ensures forall j :: 0 <= j < k ==> CanBeHad(s, s.waiting[j])
    ensures k < |s.waiting| ==> !CanBeHad(s, s.waiting[k])
  {
    due := DueFrom(s, 0);
    k := MovedData(s);
    DueByIds(s);
    ReleasedExactly(s, s.waiting);
    PassKeepsData(s, cause);
    PreviousIsLast(Moved(s), cause);
    SelectTurns(HandlePrevious(Moved(s), cause));
  }

  lemma PreviousIsLast(s: Sys, cause: Cause)
    ensures HandlePrevious(s, cause).ready == s.ready + Preempted(s, cause)
  {
    assert s.ready + [] == s.ready;
  }

  lemma SelectTurns(s: Sys)
    ensures Turns(Select(s)) == s.ready
  {
    if s.ready != [] {
      assert [s.ready[0]] + s.ready[1..] == s.ready;
    }
  }

  /** A preempted thread gets its next turn behind everybody who is ready by then. */
  lemma PreemptedIsLast(s: Sys, s': Sys, t: nat)
    requires Inv(s) && Next(s, Signal, s') && s.current == Running(t)
    ensures Turns(s') != [] && Turns(s')[|Turns(s')| - 1] == t
  {
    TickKeepsInv(s);
    var due, k := PassTakesInOrder(Tick(s), BySignal);
  }

  // ---- The same for steps and runs

  /** The state on which a step's pass works, and why. */
  lemma PassOfStep(s: Sys, step: Step, s': Sys) returns (e: Sys, cause: Cause)
    requires Inv(s) && Next(s, step, s') && Passes(s, step)
    ensures Shaped(e) && InvPc(e) && InvLocks(e) && s' == Pass(e, cause) && e.waiting == s.waiting
    ensures cause.ByLock? && e.current.Running? ==> BlockedAt(e, e.current.t)
  {
    if step.Go? {
      e, cause := Exec(s).0, Exec(s).1;
      ExecStops(s);
      ExecWaiting(s);
      if cause.ByLock? {
        ExecBlocks(s);
      }
    } else {
      e, cause := Tick(s), BySignal;
      TickKeepsInv(s);
    }
  }

  ghost predicate BlockedAt(s: Sys, t: nat) {
    t < |s.tcbs| && Waits(s.tcbs[t]) && !MayGo(s.tcbs[t], s.readers, s.writers)
  }

  lemma ExecBlocks(s: Sys)
    requires Shaped(s) && s.current.Running? && Exec(s).1.ByLock?
    requires InvLocks(s)
    ensures BlockedAt(Exec(s).0, s.current.t) && Exec(s).0.current == s.current
  {
  }

  lemma ExecWaiting(s: Sys)
    requires Shaped(s) && s.current.Running?
    ensures Exec(s).0.waiting == s.waiting
  {
  }

  /** The threads and the lock tell the same, so the same can be had. */
  lemma SameCanBeHad(s: Sys, s': Sys, t: nat)
    requires SameData(s, s') && t < |s.tcbs|
    ensures CanBeHad(s', t) <==> CanBeHad(s, t)
  {
  }

  /** A thread leaves the waiting queue only in a pass, and only if the lock it waits for is
      free for it. */
  lemma LeavesWaiting(s: Sys, step: Step, s': Sys, j: nat)
    requires Inv(s) && Next(s, step, s') && j < |s.waiting| && s.waiting[j] !in s'.waiting
    ensures Passes(s, step) && s.waiting[j] < |s'.tcbs| && CanBeHad(s', s.waiting[j])
  {
    if Passes(s, step) {
      var e, cause := PassOfStep(s, step, s');
      ReleasedCouldGo(e, cause, s', s.waiting[j]);
    } else {
      ExecWaiting(s);
    }
  }

  lemma ReleasedCouldGo(e: Sys, cause: Cause, s': Sys, u: nat)
    requires Shaped(e) && InvPc(e) && InvLocks(e) && s' == Pass(e, cause) && u in e.waiting && u !in s'.waiting
    ensures u < |s'.tcbs| && CanBeHad(s', u)
  {
    var due, k := PassTakesInOrder(e, cause);
    PassKeepsData(e, cause);
    assert e.waiting == e.waiting[..k] + e.waiting[k..];
    var j :| 0 <= j < |e.waiting| && e.waiting[j] == u;
    SameCanBeHad(e, s', u);
  }

  /** Behind a pass the first one waiting finds its lock taken. */
  lemma FirstMustWait(s: Sys, step: Step, s': Sys)
    requires Inv(s) && Next(s, step, s') && Passes(s, step) && s'.waiting != []
    ensures s'.waiting[0] < |s'.tcbs| && !CanBeHad(s', s'.waiting[0])
  {
    var e, cause := PassOfStep(s, step, s');
    FirstStillWaits(e, cause, s');
  }

  lemma FirstStillWaits(e: Sys, cause: Cause, s': Sys)
    requires Shaped(e) && InvPc(e) && InvLocks(e) && s' == Pass(e, cause) && s'.waiting != []
    requires cause.ByLock? && e.current.Running? ==> BlockedAt(e, e.current.t)
    ensures s'.waiting[0] < |s'.tcbs| && !CanBeHad(s', s'.waiting[0])
  {
    var due, k := PassTakesInOrder(e, cause);
    PassKeepsData(e, cause);
    if k < |e.waiting| {
      assert s'.waiting[0] == e.waiting[k];
    } else {
      assert s'.waiting == PutWaiting(e, cause);
      MayGoMeans(e, e.current.t);
    }
    SameCanBeHad(e, s', s'.waiting[0]);
  }

  // ---- Two readers

  /** Two threads that enroll without sleep, at these points, with thread 0 or 1 running. */
  function Pair(a: Tcb, b: Tcb, t: nat, readers: int): Sys
    requires t < 2
  {
    Sys(1, [a, b], Running(t), [1 - t], [], {}, readers, 0, 0, 0, [], false)
  }

  /** Nobody of the two writes or waits, and readers counts who reads. */
  ghost predicate PairOk(s: Sys) {
    && |s.tcbs| == 2 && s.waiting == [] && s.writers == 0 && s.slice == 1 && s.qP == s.qS == 0 && s.log == [] && !s.returned
    && (forall u: nat {:trigger s.tcbs[u]} :: u < 2 ==>
          && s.tcbs[u].job.Enroll?
          && (s.tcbs[u].pc.Begin? || s.tcbs[u].pc.AfterSleep? || s.tcbs[u].pc.Reading?))
    && s.readers == One(s.tcbs[0].pc.Reading?) + One(s.tcbs[1].pc.Reading?)
  }

  lemma PairLocks(s: Sys)
    requires PairOk(s)
    ensures InvLocks(s)
  {
    var inside := Having(s.tcbs, Reading);
    WithOrWithout({}, 0);
    WithOrWithout(if s.tcbs[0].pc.Reading? then {0} else {}, 1);
    assert inside == (if s.tcbs[0].pc.Reading? then {0} else {}) + if s.tcbs[1].pc.Reading? then {1} else {};
    assert Having(s.tcbs, Writing) == {};
  }

  /** After a pass the thread first in line runs, and the other is ready. */
  lemma PairPass(s: Sys, cause: Cause, first: nat)
    requires PairOk(s) && Shaped(s) && InvPc(s) && first < 2
    requires forall u :: u in s.asleep ==> s.tcbs[u].sleepingTime == 0
    requires s.asleep == {} || s.asleep == {1 - first}
    requires s.ready + (if s.asleep == {} then [] else [1 - first as nat]) + Preempted(s, cause) == [first, 1 - first as nat]
    requires !cause.ByLock?
    ensures Pass(s, cause) == Pair(s.tcbs[0], s.tcbs[1], first, s.readers)
  {
    PairLocks(s);
    var other: nat := 1 - first;
    var due, k := PassTakesInOrder(s, cause);
    DueAlone(s, due, if s.asleep == {} then [] else [other]);
    assert s.waiting[..k] == [] && s.waiting[k..] == [];
    PassKeepsData(s, cause);
    assert DueSet(s) == s.asleep;
    PairNow(s, Pass(s, cause), first);
  }

  lemma PairNow(s: Sys, s': Sys, first: nat)
    requires PairOk(s) && SameData(s, s') && s'.asleep == {} && s'.waiting == [] && first < 2
    requires Turns(s') == [first, 1 - first as nat] && (s'.returned <==> s'.current.Nobody?)
    requires !s'.current.Running? ==> s'.ready == []
    ensures s' == Pair(s.tcbs[0], s.tcbs[1], first, s.readers)
  {
    assert Turns(s')[0] == first && s'.ready == Turns(s')[1..] == [1 - first as nat];
    assert s'.tcbs == [s.tcbs[0], s.tcbs[1]];
  }

  lemma DueAlone(s: Sys, due: seq<nat>, sleepers: seq<nat>)
    requires Shaped(s) && ByIds(due, set u | u in s.asleep && s.tcbs[u].sleepingTime == 0)
    requires |sleepers| <= 1 && s.asleep == set u | u in sleepers
    requires forall u :: u in s.asleep ==> s.tcbs[u].sleepingTime == 0
    ensures due == sleepers
  {
    var all := set u | u in s.asleep && s.tcbs[u].sleepingTime == 0;
    ByIdsSize(due, all);
    if sleepers == [] {
      assert all == {};
    } else {
      assert all == {sleepers[0]};
      assert due[0] in due;
    }
  }

  lemma {:induction false} ByIdsSize(ids: seq<nat>, due: set<nat>)
    requires ByIds(ids, due)
    ensures |ids| == |due|
  {
    if ids == [] {
      assert due == {};
    } else {
      var front, last := ids[..|ids| - 1], ids[|ids| - 1];
      assert ids == front + [last] && last in ids;
      ByIdsSize(front, due - {last});
    }
  }

  /** Several threads can read at the same time: in some run two do. */
  lemma TwoReaders()
    ensures exists s ::
      Reaches(Spawned(1, 0, 0, [Enroll(0, 0, 0, 0), Enroll(0, 0, 0, 0)]), s) && |Having(s.tcbs, Reading)| == 2
  {
    var t := Fresh(Enroll(0, 0, 0, 0));
    var spawned := Spawned(1, 0, 0, [t.job, t.job]);
    var a, r := t.(pc := AfterSleep), t.(pc := Reading);
    PairStarts(t);
    ReachesStart(spawned);
    PairSleeps(spawned, t, 0, Pair(t, t, 0, 0), Pair(a, t, 1, 0));
    PairSleeps(spawned, t, 1, Pair(a, t, 1, 0), Pair(a, a, 0, 0));
    PairReads(spawned, t, Pair(a, a, 0, 0), Pair(r, a, 0, 1));
    PairPreempted(spawned, t, Pair(r, a, 0, 1), Pair(r, a, 1, 1));
    PairReads(spawned, t, Pair(r, a, 1, 1), Pair(r, r, 1, 2));
    PairLocks(Pair(r, r, 1, 2));
  }

  lemma PairStarts(t: Tcb)
    requires t == Fresh(Enroll(0, 0, 0, 0))
    ensures var spawned := Spawned(1, 0, 0, [t.job, t.job]); Shaped(spawned) && Pass(spawned, First) == Pair(t, t, 0, 0)
  {
    var spawned := Spawned(1, 0, 0, [t.job, t.job]);
    assert spawned.tcbs == [t, t] && spawned.ready == [0, 1];
    PairPass(spawned, First, 0);
  }

  lemma PairSleeps(spawned: Sys, t: Tcb, u: nat, s: Sys, s': Sys)
    requires t == Fresh(Enroll(0, 0, 0, 0)) && u < 2
    requires s == Pair(if u == 0 then t else t.(pc := AfterSleep), t, u, 0)
    requires s' == Pair(t.(pc := AfterSleep), if u == 0 then t else t.(pc := AfterSleep), 1 - u, 0)
    requires Reaches(spawned, s)
    ensures Reaches(spawned, s')
  {
    NextSleeps(t, u, s, s');
    ReachesNext(spawned, s, Go, s');
  }

  lemma NextSleeps(t: Tcb, u: nat, s: Sys, s': Sys)
    requires t == Fresh(Enroll(0, 0, 0, 0)) && u < 2
    requires s == Pair(if u == 0 then t else t.(pc := AfterSleep), t, u, 0)
    requires s' == Pair(t.(pc := AfterSleep), if u == 0 then t else t.(pc := AfterSleep), 1 - u, 0)
    ensures Next(s, Go, s')
  {
    var a := t.(pc := AfterSleep);
    var e := s.(tcbs := s.tcbs[u := a], asleep := {u});
    assert Exec(s) == (e, BySleep) by { assert s.asleep + {u} == {u}; }
    PairPass(e, BySleep, 1 - u);
  }

  lemma PairReads(spawned: Sys, t: Tcb, s: Sys, s': Sys)
    requires t == Fresh(Enroll(0, 0, 0, 0))
    requires var a, r := t.(pc := AfterSleep), t.(pc := Reading);
      (s == Pair(a, a, 0, 0) && s' == Pair(r, a, 0, 1)) || (s == Pair(r, a, 1, 1) && s' == Pair(r, r, 1, 2))
    requires Reaches(spawned, s)
    ensures Reaches(spawned, s')
  {
    NextReads(t, s, s');
    ReachesNext(spawned, s, Go, s');
  }

  lemma NextReads(t: Tcb, s: Sys, s': Sys)
    requires t == Fresh(Enroll(0, 0, 0, 0))
    requires var a, r := t.(pc := AfterSleep), t.(pc := Reading);
      (s == Pair(a, a, 0, 0) && s' == Pair(r, a, 0, 1)) || (s == Pair(r, a, 1, 1) && s' == Pair(r, r, 1, 2))
    ensures Next(s, Go, s')
  {
    var u := s.current.t;
    assert s.tcbs[u := t.(pc := Reading)] == s'.tcbs;
  }

  lemma PairPreempted(spawned: Sys, t: Tcb, s: Sys, s': Sys)
    requires t == Fresh(Enroll(0, 0, 0, 0))
    requires var a, r := t.(pc := AfterSleep), t.(pc := Reading); s == Pair(r, a, 0, 1) && s' == Pair(r, a, 1, 1)
    requires Reaches(spawned, s)
    ensures Reaches(spawned, s')
  {
    NextPreempted(t, s, s');
    ReachesNext(spawned, s, Signal, s');
  }

  lemma NextPreempted(t: Tcb, s: Sys, s': Sys)
    requires t == Fresh(Enroll(0, 0, 0, 0))
    requires var a, r := t.(pc := AfterSleep), t.(pc := Reading); s == Pair(r, a, 0, 1) && s' == Pair(r, a, 1, 1)
    ensures Next(s, Signal, s')
  {
    assert Tick(s) == s by { assert Tick(s).tcbs == s.tcbs; }
    PairPass(s, BySignal, 1);
  }
}
