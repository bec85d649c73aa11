/** The thread tool of hw3 as it is programmed: global tables changed in place. Each method
    does to the tables what the function of SchedMachine with its name does to a state. */
module SchedKernel {
  import opened FiniteSets
  import opened SchedMachine
  import opened SchedInvariant
  import opened SchedRuns
  import opened SchedResults
  import opened SchedQueues

  /** The queues can take every thread there is, and one more. */
  ghost predicate Room(s: Sys) {
    |s.ready| + |s.waiting| + |s.asleep| < THREAD_MAX
  }

  /** A thread of which the scheduler has lost sight cannot exist, so there is always room. */
  lemma PlacesGiveRoom(s: Sys, held: bool)
    requires Shaped(s) && InvPlaces(s, held)
    ensures Room(s)
  {
    var all := multiset(s.ready) + multiset(s.waiting) + multiset(s.asleep);
    var live: multiset<nat> := multiset(Live(s));
    forall t: nat ensures all[t] <= live[t] {
      assert all[t] <= Places(s, held, t);
    }
    assert all <= live;
    SubMultiset(all, live);
    BelowBound(|s.tcbs|, Live(s));
  }

  lemma SubMultiset(a: multiset<nat>, b: multiset<nat>)
    requires a <= b
    ensures |a| <= |b|
  {
    assert b == a + (b - a);
  }

  /** The sleeping set as threads: the thread t has the slot of its id t + 1. */
  predicate InSlot(slots: seq<bool>, t: nat) {
    t + 1 < |slots| && slots[t + 1]
  }

  ghost function InSlots(slots: seq<bool>, threads: nat): set<nat> {
    set t: nat | t < threads && InSlot(slots, t)
  }

  lemma LeavesSlot(slots: seq<bool>, threads: nat, t: nat)
    requires t < threads && InSlot(slots, t)
    ensures InSlots(slots[t + 1 := false], threads) == InSlots(slots, threads) - {t}
    ensures |InSlots(slots[t + 1 := false], threads)| == |InSlots(slots, threads)| - 1 >= 0
  {
    var now := slots[t + 1 := false];
    forall u: nat ensures u in InSlots(now, threads) <==> u in InSlots(slots, threads) && u != t {
      assert InSlot(now, u) <==> InSlot(slots, u) && u != t;
    }
    assert InSlots(now, threads) == InSlots(slots, threads) - {t};
  }

  lemma EntersSlot(slots: seq<bool>, threads: nat, t: nat)
    requires t < threads < |slots| && !InSlot(slots, t)
    ensures InSlots(slots[t + 1 := true], threads) == InSlots(slots, threads) + {t}
    ensures |InSlots(slots[t + 1 := true], threads)| == |InSlots(slots, threads)| + 1
  {
    var now := slots[t + 1 := true];
    forall u: nat | u < threads ensures u in InSlots(now, threads) <==> u in InSlots(slots, threads) || u == t {
      assert InSlot(now, u) <==> InSlot(slots, u) || u == t;
    }
    assert InSlots(now, threads) == InSlots(slots, threads) + {t};
  }

  class Kernel {
    const slice: int
    const tcbs: array<Tcb>
    const ready: TcbQueue
    const waiting: TcbQueue
    const slots: array<bool>   // sleeping_set.arr: whether the thread with this id is in its slot
    var sleeping: nat          // sleeping_set.size
    var current: Current
    var readers: int
    var writers: int
    var qP: int
    var qS: int
    var log: seq<Event>
    var returned: bool

    ghost function Asleep(): set<nat>
      reads slots
    {
      InSlots(slots[..], tcbs.Length)
    }

    ghost predicate Valid()
      reads this, ready, ready.arr, waiting, waiting.arr, slots, tcbs
    {
      && ready != waiting && ready.arr != waiting.arr && ready.Valid() && waiting.Valid()
      && slots.Length == THREAD_MAX && tcbs.Length < THREAD_MAX
      && (forall k :: 0 <= k < ready.size ==> ready.Contents()[k] < tcbs.Length)
      && (forall k :: 0 <= k < waiting.size ==> waiting.Contents()[k] < tcbs.Length)
      && (forall k :: 0 <= k < THREAD_MAX && slots[k] ==> 1 <= k <= tcbs.Length)
      && (current.Running? ==> current.t < tcbs.Length)
      && sleeping == |Asleep()|
    }

    ghost function Abs(): (s: Sys)
      requires Valid()
      reads this, ready, ready.arr, waiting, waiting.arr, slots, tcbs
      ensures Shaped(s)
    {
      Sys(slice, tcbs[..], current, ready.Contents(), waiting.Contents(), Asleep(),
          readers, writers, qP, qS, log, returned)
    }

    /** spawn_thread: every thread sets itself up and is made ready. */
    constructor (timeSlice: int, placesP: int, placesS: int, jobs: seq<Job>)
      requires |jobs| < THREAD_MAX
      ensures Valid() && Abs() == Spawned(timeSlice, placesP, placesS, jobs)
      ensures fresh(tcbs) && fresh(slots) && fresh(ready) && fresh(ready.arr) && fresh(waiting) && fresh(waiting.arr)
    {
      slice := timeSlice;
      var queue := new TcbQueue();
      for t := 0 to |jobs|
        invariant fresh(queue) && fresh(queue.arr) && queue.Valid() && queue.size == t
        invariant forall k :: 0 <= k < t ==> queue.Contents()[k] == k
      {
        queue.Push(t);
      }
      var table := new Tcb[|jobs|](t requires 0 <= t < |jobs| => Fresh(jobs[t]));
      assert table[..] == Spawned(timeSlice, placesP, placesS, jobs).tcbs;
      tcbs := table;
      ready := queue;
      waiting := new TcbQueue();
      slots := new bool[THREAD_MAX](_ => false);
      sleeping := 0;
      current := Nobody;
      readers, writers := 0, 0;
      qP, qS := placesP, placesS;
      log, returned := [], false;
      new;
      assert forall t: nat :: t < |jobs| ==> !InSlot(slots[..], t);
      assert Asleep() == {};
      assert tcbs[..] == Spawned(timeSlice, placesP, placesS, jobs).tcbs;
      assert ready.Contents() == Spawned(timeSlice, placesP, placesS, jobs).ready;
    }

    /** Takes a thread out of its slot and makes it ready. */
    method Rouse(id: nat)
      requires Valid() && Room(Abs()) && 0 < id < THREAD_MAX && slots[id]
      modifies this`sleeping, ready`size, ready.arr, slots
      ensures Valid() && Room(Abs())
      ensures Abs() == old(Abs().(ready := Abs().ready + [id - 1], asleep := Abs().asleep - {id - 1}))
      ensures slots[..] == old(slots[..])[id := false]
    {
      LeavesSlot(slots[..], tcbs.Length, id - 1);
      ready.Push(id - 1);
      slots[id] := false;
      sleeping := sleeping - 1;
      assert slots[..] == old(slots[..])[id := false];
    }

    /** The loop of sighandler. */
    method ElapseAll()
      requires Valid()
      modifies tcbs
      ensures Valid() && Abs() == Tick(old(Abs()))
    {
      ghost var was := Abs();
      for i := 0 to THREAD_MAX
        invariant Valid() && TickedBefore(was, i, Abs())
      {
        ghost var here := Abs();
        ElapseSlot(i);
        TickOneMore(was, i, here, Abs());
      }
    }

    method ElapseSlot(i: nat)
      requires Valid() && i < THREAD_MAX
      modifies tcbs
      ensures Valid() && TicksSlot(i, old(Abs()), Abs())
    {
      assert i > 0 ==> InSlot(slots[..], i - 1) == slots[i];
      if slots[i] && tcbs[i - 1].sleepingTime >= 0 {
        if tcbs[i - 1].sleepingTime - slice <= 0 {
          SetSleepingTime(i - 1, 0);
        } else {
          SetSleepingTime(i - 1, tcbs[i - 1].sleepingTime - slice);
        }
      }
    }

    method SetSleepingTime(t: nat, time: int)
      requires Valid() && t < tcbs.Length
      modifies tcbs
      ensures Valid()
      ensures Abs() == old(Abs().(tcbs := Abs().tcbs[t := Abs().tcbs[t].(sleepingTime := time)]))
    {
      tcbs[t] := tcbs[t].(sleepingTime := time);
    }

    method MoveSleepingToReady()
      requires Valid() && Room(Abs())
      modifies this`sleeping, ready`size, ready.arr, slots
      ensures Valid() && Room(Abs()) && Abs() == MoveSleeping(old(Abs()))
    {
      ghost var was := Abs();
      for i := 0 to THREAD_MAX
        invariant Valid() && Room(Abs()) && MovedBefore(was, i, Abs())
      {
        ghost var here := Abs();
        MoveSlot(i);
        MoveOneMore(was, i, here, Abs());
      }
      AllMoved(was, Abs());
    }

    method MoveSlot(i: nat)
      requires Valid() && Room(Abs()) && i < THREAD_MAX
      modifies this`sleeping, ready`size, ready.arr, slots
      ensures Valid() && Room(Abs()) && MovesSlot(i, old(Abs()), Abs())
    {
      assert i > 0 ==> InSlot(slots[..], i - 1) == slots[i];
      if slots[i] && tcbs[i - 1].sleepingTime == 0 {
        Rouse(i);
      }
    }

    /** The head of the waiting queue becomes ready if it may go. */
    method ReleaseHead() returns (released: bool)
      requires Valid() && Room(Abs()) && waiting.size > 0
      modifies ready`size, ready.arr, waiting`head, waiting`size
      ensures Valid() && Room(Abs())
      ensures released == MayGo(old(Abs().tcbs[Abs().waiting[0]]), readers, writers)
      ensures Abs() == if released then HeadMoved(old(Abs())) else old(Abs())
    {
      var t := waiting.Front();
      if tcbs[t].waitingFor == 2 && readers == 0 && writers == 0 {
        released := true;
      } else if tcbs[t].waitingFor == 1 && writers == 0 {
        released := true;
      } else {
        return false;
      }
      ready.Push(t);
      waiting.Drop();
    }

    method MoveWaitingToReady()
      requires Valid() && Room(Abs())
      modifies ready`size, ready.arr, waiting`head, waiting`size
      ensures Valid() && Room(Abs()) && Abs() == MoveWaiting(old(Abs()))
    {
      while waiting.size > 0
        invariant Valid() && Room(Abs()) && MoveWaiting(Abs()) == MoveWaiting(old(Abs()))
        decreases waiting.size
      {
        MoveWaitingStep(Abs());
        var released := ReleaseHead();
        if !released {
          break;
        }
      }
      MoveWaitingDone(Abs());
    }

    method HandlePreviousThread(cause: Cause)
      requires Valid() && Room(Abs())
      modifies this`current, ready`size, ready.arr, waiting`size, waiting.arr
      ensures Valid() && Abs() == HandlePrevious(old(Abs()), cause)
    {
      if current.Idle? || current.Nobody? {
        return;
      }
      if cause.BySignal? {
        ready.Push(current.t);
      } else if cause.ByLock? {
        waiting.Push(current.t);
      } else if cause.ByExit? {
        current := Nobody;
      }
    }

    /** scheduler, from behind its setjmp to the dispatch of a thread or its return. */
    method Schedule(cause: Cause)
      requires Valid() && Room(Abs())
      modifies this`sleeping, this`current, this`returned, ready, ready.arr, waiting, waiting.arr, slots
      ensures Valid() && Abs() == Pass(old(Abs()), cause)
    {
      MoveSleepingToReady();
      MoveWaitingToReady();
      HandlePreviousThread(cause);
      Dispatch();
    }

    method Dispatch()
      requires Valid()
      modifies this`current, this`returned, ready`head, ready`size
      ensures Valid() && Abs() == Select(old(Abs()))
    {
      if ready.size > 0 {
        var t := ready.Front();
        ready.Drop();
        current := Running(t);
      } else if sleeping != 0 {
        current := Idle;
      } else {
        current := Nobody;
        returned := true;
      }
    }

    /** thread_awake. */
    method ThreadAwake(id: nat)
      requires Valid() && Room(Abs()) && id < THREAD_MAX
      modifies this`sleeping, ready`size, ready.arr, slots, tcbs
      ensures Valid() && Abs() == Awake(old(Abs()), id)
    {
      if slots[id] {
        assert InSlot(slots[..], id - 1);
        SetSleepingTime(id - 1, 0);
        ghost var set0 := Abs();
        Rouse(id);
        assert Abs() == set0.(ready := set0.ready + [id - 1], asleep := set0.asleep - {id - 1});
      }
    }

    // ---- The routines, from where a thread goes on to where it stops

    /** The loop body of fibonacci up to the output. */
    method NextFibonacci(t: nat)
      requires Valid() && t < tcbs.Length && tcbs[t].job.Fibonacci?
      modifies tcbs
      ensures Valid() && Abs() == Computed(old(Abs()), t)
    {
      var i := if tcbs[t].pc.Begin? then 1 else tcbs[t].i + 1;
      tcbs[t] := tcbs[t].(i := i);
      if tcbs[t].i <= 2 {
        tcbs[t] := tcbs[t].(fCur := 1, fPrev := 1);
      } else {
        var next := tcbs[t].fCur + tcbs[t].fPrev;
        tcbs[t] := tcbs[t].(fPrev := tcbs[t].fCur);
        tcbs[t] := tcbs[t].(fCur := next);
      }
      assert tcbs[..] == old(tcbs[..])[t := tcbs[t]];
    }

    /** The loop body of pm up to the output. */
    method NextPm(t: nat)
      requires Valid() && t < tcbs.Length && tcbs[t].job.Pm?
      modifies tcbs
      ensures Valid() && Abs() == Computed(old(Abs()), t)
    {
      var i := if tcbs[t].pc.Begin? then 1 else tcbs[t].i + 1;
      tcbs[t] := tcbs[t].(i := i);
      if tcbs[t].i == 1 {
        tcbs[t] := tcbs[t].(fCur := 1, fPrev := 1);
      } else {
        var step := if tcbs[t].i % 2 == 0 then (-1) * tcbs[t].i else tcbs[t].i;
        tcbs[t] := tcbs[t].(fCur := step + tcbs[t].fPrev);
        tcbs[t] := tcbs[t].(fPrev := tcbs[t].fCur);
      }
      assert tcbs[..] == old(tcbs[..])[t := tcbs[t]];
    }

    /** The end of an iteration: the line, and thread_exit or thread_yield. */
    method PrintAndGoOn(t: nat, n: int) returns (cause: Cause)
      requires Valid() && t < tcbs.Length
      modifies this`log, tcbs
      ensures Valid() && cause == if old(tcbs[t].i) == n then ByExit else First
      ensures Abs() == old(Abs().(
        log := log + [Printed(t, tcbs[t].i, tcbs[t].fCur)],
        tcbs := tcbs[..][t := tcbs[t].(pc := if tcbs[t].i == n then Gone else InLoop)]))
    {
      log := log + [Printed(t, tcbs[t].i, tcbs[t].fCur)];
      if tcbs[t].i == n {
        cause := ByExit;
        SetPc(t, Gone);
      } else {
        cause := First;
        SetPc(t, InLoop);
      }
    }

    /** One iteration of fibonacci or pm. */
    method Iterate(t: nat, n: int) returns (cause: Cause)
      requires Valid() && t < tcbs.Length && !tcbs[t].job.Enroll?
      modifies this`log, tcbs
      ensures Valid() && (Abs(), cause) == Loop(old(Abs()), t, n)
    {
      ghost var was := Abs();
      if tcbs[t].job.Fibonacci? {
        NextFibonacci(t);
      } else {
        NextPm(t);
      }
      ghost var here := tcbs[t];
      cause := PrintAndGoOn(t, n);
      assert was.tcbs[t := here][t := tcbs[t]] == was.tcbs[t := tcbs[t]];
    }

    method SetPc(t: nat, pc: Pc)
      requires Valid() && t < tcbs.Length
      modifies tcbs
      ensures Valid() && Abs() == old(Abs().(tcbs := tcbs[..][t := tcbs[t].(pc := pc)]))
    {
      tcbs[t] := tcbs[t].(pc := pc);
    }

    /** thread_sleep: the thread enters its slot. */
    method ThreadSleep(t: nat, time: int)
      requires Valid() && t < tcbs.Length && t !in Abs().asleep
      modifies this`sleeping, slots, tcbs
      ensures Valid()
      ensures Abs() == old(Abs().(asleep := Abs().asleep + {t},
        tcbs := tcbs[..][t := tcbs[t].(pc := AfterSleep, sleepingTime := time)]))
    {
      EntersSlot(slots[..], tcbs.Length, t);
      tcbs[t] := tcbs[t].(pc := AfterSleep, sleepingTime := time);
      slots[t + 1] := true;
      sleeping := sleeping + 1;
      assert slots[..] == old(slots[..])[t + 1 := true];
    }

    /** read_lock and the snapshot behind it. */
    method AcquireToRead(t: nat) returns (cause: Cause)
      requires Valid() && t < tcbs.Length
      modifies this`readers, tcbs
      ensures Valid() && (Abs(), cause) == ReadLock(old(Abs()), t)
    {
      if writers > 0 {
        tcbs[t] := tcbs[t].(waitingFor := 1, pc := WantRead);
        cause := ByLock;
      } else {
        readers := readers + 1;
        tcbs[t] := tcbs[t].(qP := qP, pc := Reading);
        tcbs[t] := tcbs[t].(qS := qS);
        assert tcbs[..] == old(tcbs[..])[t := tcbs[t]];
        cause := First;
      }
    }

    /** The branches of enroll that decide for a class. */
    method ChooseClass(me: Tcb) returns (pj: bool)
      requires me.job.Enroll?
      ensures pj == ChoosesPj(me, qP, qS)
    {
      if me.pP == me.pS {
        pj := me.job.dP > me.job.dS;
      } else if me.pP > me.pS {
        pj := qP > 0;
      } else {
        pj := !(qS > 0);
      }
    }

    /** The lock is taken and a seat of one class goes to the thread. */
    method TakeSeat(t: nat, pj: bool)
      requires Valid() && t < tcbs.Length
      modifies this`writers, this`qP, this`qS, this`log, tcbs
      ensures Valid()
      ensures Abs() == old(Abs().(writers := 1, qP := qP - One(pj), qS := qS - One(!pj), log := log + [Enrolled(t, pj)],
        tcbs := tcbs[..][t := tcbs[t].(pc := Writing)]))
    {
      writers := 1;
      if pj { qP := qP - 1; } else { qS := qS - 1; }
      log := log + [Enrolled(t, pj)];
      SetPc(t, Writing);
    }

    /** write_lock and the enrolment behind it. */
    method AcquireToWrite(t: nat) returns (cause: Cause)
      requires Valid() && t < tcbs.Length && tcbs[t].job.Enroll?
      modifies this`writers, this`qP, this`qS, this`log, tcbs
      ensures Valid() && (Abs(), cause) == WriteLock(old(Abs()), t)
    {
      if readers > 0 || writers > 0 {
        tcbs[t] := tcbs[t].(waitingFor := 2, pc := WantWrite);
        cause := ByLock;
      } else {
        var pj := ChooseClass(tcbs[t]);
        TakeSeat(t, pj);
        cause := First;
      }
    }

    /** read_unlock; the preferences are computed from the snapshot. */
    method ReleaseRead(t: nat) returns (cause: Cause)
      requires Valid() && t < tcbs.Length && tcbs[t].job.Enroll? && tcbs[t].pc.Reading?
      modifies this`readers, tcbs
      ensures Valid() && (Abs(), cause) == EnrollOn(old(Abs()), t)
    {
      var me := tcbs[t];
      readers := readers - 1;
      tcbs[t] := me.(pc := AfterRead, pP := me.job.dP * me.qP, pS := me.job.dS * me.qS);
      cause := First;
    }

    /** write_unlock and thread_exit. */
    method ReleaseWrite(t: nat) returns (cause: Cause)
      requires Valid() && t < tcbs.Length && tcbs[t].job.Enroll? && tcbs[t].pc.Writing?
      modifies this`writers, tcbs
      ensures Valid() && (Abs(), cause) == EnrollOn(old(Abs()), t)
    {
      writers := writers - 1;
      SetPc(t, Gone);
      cause := ByExit;
    }

    /** enroll, from one switch to the next. */
    method Enroll(t: nat) returns (cause: Cause)
      requires Valid() && Room(Abs()) && t < tcbs.Length && t !in Abs().asleep
      requires tcbs[t].job.Enroll? && tcbs[t].job.b < THREAD_MAX
      modifies this, ready`size, ready.arr, slots, tcbs
      ensures Valid() && (Abs(), cause) == EnrollOn(old(Abs()), t)
    {
      var me := tcbs[t];
      if me.pc.AfterSleep? {
        ThreadAwake(me.job.b);
        cause := AcquireToRead(t);
      } else if me.pc.WantRead? {
        cause := AcquireToRead(t);
      } else if me.pc.Reading? {
        cause := ReleaseRead(t);
      } else if me.pc.AfterRead? || me.pc.WantWrite? {
        cause := AcquireToWrite(t);
      } else if me.pc.Writing? {
        cause := ReleaseWrite(t);
      } else {
        ThreadSleep(t, me.job.s);
        cause := BySleep;
      }
    }

    method RunCurrent() returns (cause: Cause)
      requires Valid() && Inv(Abs()) && current.Running? && Awakable(Abs())
      modifies this, ready`size, ready.arr, slots, tcbs
      ensures Valid() && (Abs(), cause) == Exec(old(Abs()))
    {
      var t := current.t;
      CurrentIsNowhereElse(Abs(), t);
      PlacesGiveRoom(Abs(), true);
      if tcbs[t].job.Enroll? {
        cause := Enroll(t);
      } else {
        cause := Iterate(t, tcbs[t].job.n);
      }
    }

    /** The current thread goes on to its next switch or yield, and the scheduler runs if it
        stops: this is the step Go, and it keeps the invariant. */
    method GoOn()
      requires Valid() && Inv(Abs()) && Enabled(Abs(), Go) && Awakable(Abs())
      modifies this, ready, ready.arr, waiting, waiting.arr, slots, tcbs
      ensures Valid() && Inv(Abs()) && Next(old(Abs()), Go, Abs())
    {
      ghost var was := Abs();
      StepKeepsInv(was, Go);
      ExecStops(was);
      var cause := RunCurrent();
      if !cause.First? {
        PlacesGiveRoom(Abs(), Unplaced(cause));
        Schedule(cause);
      }
    }

    /** sighandler: this is the step Signal. */
    method SigHandler()
      requires Valid() && Inv(Abs()) && Enabled(Abs(), Signal)
      modifies this, ready, ready.arr, waiting, waiting.arr, slots, tcbs
      ensures Valid() && Inv(Abs()) && Next(old(Abs()), Signal, Abs())
    {
      ghost var was := Abs();
      StepKeepsInv(was, Signal);
      PlacesGiveRoom(was, true);
      ElapseAll();
      Schedule(BySignal);
    }
  }

  /** A thread has computed the next value of its series. */
  function Computed(s: Sys, t: nat): Sys
    requires t < |s.tcbs|
  {
    var was := s.tcbs[t];
    s.(tcbs := s.tcbs[t := NextValue(was, if was.pc.Begin? then 1 else was.i + 1)])
  }

  /** The ids given to thread_awake fit into the sleeping set. */
  predicate Awakable(s: Sys) {
    forall t :: 0 <= t < |s.tcbs| && s.tcbs[t].job.Enroll? ==> s.tcbs[t].job.b < THREAD_MAX
  }

  function HeadMoved(s: Sys): Sys
    requires s.waiting != []
  {
    s.(ready := s.ready + [s.waiting[0]], waiting := s.waiting[1..])
  }

  /** Releasing the head leaves the outcome of the loop as it is. */
  lemma MoveWaitingStep(s: Sys)
    requires Shaped(s) && s.waiting != []
    ensures MayGo(s.tcbs[s.waiting[0]], s.readers, s.writers) ==>
      Shaped(HeadMoved(s)) && MoveWaiting(HeadMoved(s)) == MoveWaiting(s)
  {
    if MayGo(s.tcbs[s.waiting[0]], s.readers, s.writers) {
      var rest := s.waiting[1..];
      var k := Released(rest, s.tcbs, s.readers, s.writers);
      assert [s.waiting[0]] + rest[..k] == s.waiting[..k + 1];
      assert (s.ready + [s.waiting[0]]) + rest[..k] == s.ready + s.waiting[..k + 1];
    }
  }

  lemma MoveWaitingDone(s: Sys)
    requires Shaped(s)
    ensures s.waiting == [] || !MayGo(s.tcbs[s.waiting[0]], s.readers, s.writers) ==> MoveWaiting(s) == s
  {
    assert s.ready + s.waiting[..0] == s.ready;
  }

  // ---- The loops over the slots; slot i belongs to thread i - 1

  ghost predicate TickedBefore(was: Sys, i: nat, s: Sys)
    requires Shaped(was)
  {
    && s == was.(tcbs := s.tcbs) && |s.tcbs| == |was.tcbs|
    && forall t :: 0 <= t < |s.tcbs| ==> s.tcbs[t] == if t + 1 < i then Tick(was).tcbs[t] else was.tcbs[t]
  }

  /** What sighandler does to one slot. */
  ghost predicate TicksSlot(i: nat, here: Sys, now: Sys) {
    if i == 0 || i > |here.tcbs| || i - 1 !in here.asleep then now == here
    else now == here.(tcbs := here.tcbs[i - 1 := here.tcbs[i - 1].(sleepingTime := Elapse(here.tcbs[i - 1].sleepingTime, here.slice))])
  }

  lemma TickOneMore(was: Sys, i: nat, here: Sys, now: Sys)
    requires Shaped(was) && TickedBefore(was, i, here) && TicksSlot(i, here, now)
    ensures TickedBefore(was, i + 1, now)
  {
  }

  /** The slots before i have been emptied of the sleepers whose time is up. */
  ghost predicate MovedBefore(was: Sys, i: nat, s: Sys)
    requires Shaped(was)
  {
    && s == was.(ready := s.ready, asleep := s.asleep)
    && s.ready + DueFrom(was, Before(i)) == was.ready + DueFrom(was, 0)
    && forall t: nat :: t in s.asleep <==> t in was.asleep && !(t < Before(i) && t in DueSet(was))
  }

  /** What move_sleeping_to_ready does to one slot. */
  ghost predicate MovesSlot(i: nat, here: Sys, now: Sys) {
    if i == 0 || i > |here.tcbs| || i - 1 !in here.asleep || here.tcbs[i - 1].sleepingTime != 0 then now == here
    else now == here.(ready := here.ready + [i - 1], asleep := here.asleep - {i - 1})
  }

  lemma MoveOneMore(was: Sys, i: nat, here: Sys, now: Sys)
    requires Shaped(was) && MovedBefore(was, i, here) && MovesSlot(i, here, now)
    ensures MovedBefore(was, i + 1, now)
  {
    if 0 < i <= |was.tcbs| {
      assert i - 1 in here.asleep <==> i - 1 in was.asleep;
      assert (here.ready + [i - 1]) + DueFrom(was, i) == here.ready + ([i - 1] + DueFrom(was, i));
    }
  }

  lemma AllMoved(was: Sys, s: Sys)
    requires Shaped(was) && MovedBefore(was, THREAD_MAX, s)
    ensures s == MoveSleeping(was)
  {
    assert DueFrom(was, Before(THREAD_MAX)) == [];
    assert s.asleep == was.asleep - DueSet(was);
  }

  /** How many threads have a slot before slot i. */
  function Before(i: nat): nat {
    if i == 0 then 0 else i - 1
  }
}
