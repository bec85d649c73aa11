/** What every state of the thread system satisfies between two steps. */
module SchedInvariant {
  import opened SchedMachine

  // ---- Every thread is in exactly one place

  /** Whether the current thread still has to be put somewhere by handle_previous_thread. */
  predicate Unplaced(cause: Cause) {
    cause.BySignal? || cause.ByLock?
  }

  /** In how many places thread t is, the current thread included if held. */
  ghost function Places(s: Sys, held: bool, t: nat): nat {
    (if held && s.current == Running(t) then 1 else 0) + multiset(s.ready)[t] + multiset(s.waiting)[t]
    + (if t in s.asleep then 1 else 0)
  }

  ghost predicate InvPlaces(s: Sys, held: bool) {
    forall t: nat :: Places(s, held, t) == if t < |s.tcbs| && !s.tcbs[t].pc.Gone? then 1 else 0
  }

  // ---- What a thread in a place is doing

  predicate Waits(tcb: Tcb) {
    (tcb.pc.WantRead? && tcb.waitingFor == 1) || (tcb.pc.WantWrite? && tcb.waitingFor == 2)
  }

  predicate EnrollPc(pc: Pc) {
    !pc.Begin? && !pc.InLoop? && !pc.Gone?
  }

  ghost predicate InvPc(s: Sys)
    requires Shaped(s)
  {
    && (forall k :: 0 <= k < |s.waiting| ==> Waits(s.tcbs[s.waiting[k]]))
    && (forall t :: t in s.asleep ==> s.tcbs[t].pc.AfterSleep?)
    && (forall t :: 0 <= t < |s.tcbs| ==>
          && (EnrollPc(s.tcbs[t].pc) ==> s.tcbs[t].job.Enroll?)
          && (s.tcbs[t].pc.InLoop? ==> !s.tcbs[t].job.Enroll?))
  }

  // ---- The lock

  ghost function Having(tcbs: seq<Tcb>, pc: Pc): set<nat> {
    set t: nat | t < |tcbs| && tcbs[t].pc == pc
  }

  /** The counts of the lock are the numbers of threads inside the two sections. */
  ghost predicate InvLocks(s: Sys) {
    && s.readers == |Having(s.tcbs, Reading)| && s.writers == |Having(s.tcbs, Writing)|
    && s.writers <= 1 && (s.readers > 0 ==> s.writers == 0)
  }

  predicate LockHeld(s: Sys) {
    s.readers > 0 || s.writers > 0
  }

  // ---- Places of the pass

  lemma CountFirst(k: nat, rest: seq<nat>, t: nat)
    ensures multiset([k] + rest)[t] == multiset(rest)[t] + if t == k then 1 else 0
  {
    assert multiset([k] + rest) == multiset{k} + multiset(rest);
  }

  lemma MarkedStep(marks: seq<bool>, k: nat)
    requires k < |marks|
    ensures Marked(marks, k) == if marks[k] then [k] + Marked(marks, k + 1) else Marked(marks, k + 1)
  {
  }

  lemma {:induction false} MarkedCounts(marks: seq<bool>, k: nat, t: nat)
    ensures multiset(Marked(marks, k))[t] == if k <= t < |marks| && marks[t] then 1 else 0
    decreases |marks| - k
  {
    if k < |marks| {
      MarkedStep(marks, k);
      MarkedCounts(marks, k + 1, t);
      CountFirst(k, Marked(marks, k + 1), t);
    }
  }

  lemma DueCounts(s: Sys, t: nat)
    requires Shaped(s)
    ensures multiset(DueFrom(s, 0))[t] == if t in DueSet(s) then 1 else 0
  {
    MarkedCounts(seq(|s.tcbs|, u requires 0 <= u => IsDue(s, u)), 0, t);
  }

  lemma MoveSleepingKeepsPlaces(s: Sys, held: bool)
    requires Shaped(s) && InvPlaces(s, held)
    ensures Shaped(MoveSleeping(s)) && InvPlaces(MoveSleeping(s), held)
  {
    var s' := MoveSleeping(s);
    assert multiset(s'.ready) == multiset(s.ready) + multiset(DueFrom(s, 0));
    forall t: nat ensures Places(s', held, t) == Places(s, held, t) {
      DueCounts(s, t);
    }
  }

  lemma MoveWaitingKeepsPlaces(s: Sys, held: bool)
    requires Shaped(s) && InvPlaces(s, held)
    ensures Shaped(MoveWaiting(s)) && InvPlaces(MoveWaiting(s), held)
  {
    var s' := MoveWaiting(s);
    var k := Released(s.waiting, s.tcbs, s.readers, s.writers);
    assert s.waiting == s.waiting[..k] + s.waiting[k..];
    forall t: nat ensures Places(s', held, t) == Places(s, held, t) {
      assert multiset(s'.ready) == multiset(s.ready) + multiset(s.waiting[..k]);
      assert multiset(s.waiting) == multiset(s.waiting[..k]) + multiset(s'.waiting);
    }
  }

  lemma PreviousKeepsPlaces(s: Sys, cause: Cause)
    requires Shaped(s) && InvPlaces(s, Unplaced(cause))
    ensures Shaped(HandlePrevious(s, cause)) && InvPlaces(HandlePrevious(s, cause), false)
  {
    var s' := HandlePrevious(s, cause);
    if s.current.Running? && cause.BySignal? {
      assert multiset(s'.ready) == multiset(s.ready) + multiset{s.current.t};
    } else if s.current.Running? && cause.ByLock? {
      assert multiset(s'.waiting) == multiset(s.waiting) + multiset{s.current.t};
    }
    forall t: nat ensures Places(s', false, t) == Places(s, Unplaced(cause), t) {
    }
  }

  lemma SelectKeepsPlaces(s: Sys)
    requires Shaped(s) && InvPlaces(s, false)
    ensures Shaped(Select(s)) && InvPlaces(Select(s), true)
    ensures Select(s).current.Running? ==> !s.tcbs[Select(s).current.t].pc.Gone?
  {
    var s' := Select(s);
    if s.ready != [] {
      var h := s.ready[0];
      assert s.ready == [h] + s.ready[1..];
      forall t: nat ensures Places(s', true, t) == Places(s, false, t) {
        assert multiset(s.ready) == multiset{h} + multiset(s.ready[1..]);
      }
      assert Places(s, false, h) == 1 by { assert h in multiset(s.ready); }
    } else {
      forall t: nat ensures Places(s', true, t) == Places(s, false, t) {
      }
    }
  }

  lemma MovedKeepsPlaces(s: Sys, held: bool)
    requires Shaped(s) && InvPlaces(s, held)
    ensures InvPlaces(Moved(s), held)
  {
    MoveSleepingKeepsPlaces(s, held);
    MoveWaitingKeepsPlaces(MoveSleeping(s), held);
  }

  // ---- What the parts of a pass leave alone

  /** Threads, lock, quotas and output are the same. */
  predicate SameData(s: Sys, s': Sys) {
    && s'.tcbs == s.tcbs && s'.readers == s.readers && s'.writers == s.writers
    && s'.qP == s.qP && s'.qS == s.qS && s'.log == s.log && s'.slice == s.slice
  }

  /** What the first half of a pass does to the queues; nothing else changes. */
  lemma MovedData(s: Sys) returns (k: nat)
    requires Shaped(s)
    ensures k == Released(s.waiting, s.tcbs, s.readers, s.writers) <= |s.waiting|
    ensures var s' := Moved(s);
      && SameData(s, s') && s'.current == s.current && s'.returned == s.returned
      && s'.asleep == s.asleep - DueSet(s)
      && s'.ready == s.ready + DueFrom(s, 0) + s.waiting[..k] && s'.waiting == s.waiting[k..]
  {
    k := Released(s.waiting, s.tcbs, s.readers, s.writers);
  }

  /** The thread that handle_previous_thread puts behind the waiting queue. */
  function PutWaiting(s: Sys, cause: Cause): seq<nat> {
    if cause.ByLock? && s.current.Running? then [s.current.t] else []
  }

  lemma PreviousData(s: Sys, cause: Cause)
    ensures var s' := HandlePrevious(s, cause);
      && SameData(s, s') && s'.returned == s.returned && s'.asleep == s.asleep
      && s'.waiting == s.waiting + PutWaiting(s, cause)
  {
    assert s.waiting + [] == s.waiting;
  }

  lemma SelectData(s: Sys)
    ensures var s' := Select(s);
      && SameData(s, s') && s'.asleep == s.asleep && s'.waiting == s.waiting
      && (!s.returned ==> (s'.returned <==> s'.current.Nobody?))
  {
  }

  lemma PassKeepsPlaces(s: Sys, cause: Cause)
    requires Shaped(s) && InvPlaces(s, Unplaced(cause))
    ensures Shaped(Pass(s, cause)) && InvPlaces(Pass(s, cause), true)
    ensures var s' := Pass(s, cause); s'.current.Running? ==> !s'.tcbs[s'.current.t].pc.Gone?
  {
    MovedKeepsPlaces(s, Unplaced(cause));
    PreviousKeepsPlaces(Moved(s), cause);
    SelectKeepsPlaces(HandlePrevious(Moved(s), cause));
  }

  /** The pass moves threads about; it changes no thread, no lock and no quota. The waiting
      queue loses the threads released at its front and may get the previous thread. */
  lemma PassKeepsData(s: Sys, cause: Cause)
    requires Shaped(s)
    ensures var s' := Pass(s, cause);
      && SameData(s, s') && s'.asleep == s.asleep - DueSet(s)
      && s'.waiting == s.waiting[Released(s.waiting, s.tcbs, s.readers, s.writers)..] + PutWaiting(s, cause)
      && (!s.returned ==> (s'.returned <==> s'.current.Nobody?))
  {
    var k := MovedData(s);
    PreviousData(Moved(s), cause);
    SelectData(HandlePrevious(Moved(s), cause));
  }

  lemma PassKeepsPc(s: Sys, cause: Cause)
    requires Shaped(s) && InvPc(s) && Shaped(Pass(s, cause))
    requires cause.ByLock? && s.current.Running? ==> Waits(s.tcbs[s.current.t])
    ensures InvPc(Pass(s, cause))
    ensures var s' := Pass(s, cause); forall t :: t in s'.asleep ==> s'.tcbs[t].sleepingTime != 0
  {
    PassKeepsData(s, cause);
    var s' := Pass(s, cause);
    forall j | 0 <= j < |s'.waiting| ensures Waits(s'.tcbs[s'.waiting[j]]) {
      assert s'.waiting[j] in s.waiting || (cause.ByLock? && s.current.Running? && s'.waiting[j] == s.current.t);
    }
  }

  // ---- No thread is abandoned

  /** After move_waiting_to_ready the queue is empty or its head finds the lock held. */
  lemma {:induction false} ReleasedStops(waiting: seq<nat>, tcbs: seq<Tcb>, readers: int, writers: int)
    requires forall j :: 0 <= j < |waiting| ==> waiting[j] < |tcbs| && Waits(tcbs[waiting[j]])
    requires readers >= 0 && writers >= 0
    ensures var k := Released(waiting, tcbs, readers, writers); k < |waiting| ==> readers > 0 || writers > 0
  {
    if waiting != [] && MayGo(tcbs[waiting[0]], readers, writers) {
      ReleasedStops(waiting[1..], tcbs, readers, writers);
    }
  }

  /** A thread that holds the lock is in the ready queue once the previous thread has been
      put away: it neither sleeps nor waits, and it is switched out only by a signal. */
  lemma HolderIsReady(s: Sys, cause: Cause) returns (h: nat)
    requires Shaped(s) && InvPlaces(s, Unplaced(cause)) && InvPc(s) && InvLocks(s) && LockHeld(s)
    requires cause.ByLock? && s.current.Running? ==> Waits(s.tcbs[s.current.t])
    ensures h in HandlePrevious(s, cause).ready
  {
    var holders := if s.readers > 0 then Having(s.tcbs, Reading) else Having(s.tcbs, Writing);
    assert holders != {};
    h :| h in holders;
    assert Places(s, Unplaced(cause), h) == 1;
    forall k | 0 <= k < |s.waiting| ensures s.waiting[k] != h {
      assert Waits(s.tcbs[s.waiting[k]]);
    }
    assert h !in multiset(s.waiting) && h !in s.asleep;
    assert multiset(s.ready)[h] > 0 ==> h in s.ready;
  }

  /** The queues when nobody is dispatched from them. */
  lemma SelectNobody(s: Sys)
    ensures var s' := Select(s);
      && (!s'.current.Running? ==> s'.waiting == s.waiting && s.ready == [] && s'.ready == [])
      && (s'.current.Idle? ==> s'.asleep != {})
      && (s'.current.Nobody? ==> s'.asleep == {} && s'.returned)
  {
  }

  /** The second half of a pass, behind move_waiting_to_ready. */
  lemma RestAbandonsNobody(m: Sys, cause: Cause)
    requires Shaped(m) && InvPlaces(m, Unplaced(cause)) && InvPc(m) && InvLocks(m)
    requires cause.ByLock? && m.current.Running? ==> Waits(m.tcbs[m.current.t]) && LockHeld(m)
    requires !LockHeld(m) ==> m.waiting == []
    ensures var s' := Select(HandlePrevious(m, cause));
      && (!s'.current.Running? ==> s'.waiting == [] && s'.ready == [])
      && (s'.current.Idle? ==> s'.asleep != {})
      && (s'.current.Nobody? ==> s'.asleep == {} && s'.returned)
  {
    SelectNobody(HandlePrevious(m, cause));
    PreviousData(m, cause);
    if LockHeld(m) {
      var h := HolderIsReady(m, cause);
    }
  }

  /** Whenever the scheduler picks the idle thread or returns, nobody is left waiting. */
  lemma PassAbandonsNobody(s: Sys, cause: Cause)
    requires Shaped(s) && InvPlaces(s, Unplaced(cause)) && InvPc(s) && InvLocks(s)
    requires cause.ByLock? && s.current.Running? ==> Waits(s.tcbs[s.current.t]) && LockHeld(s)
    ensures var s' := Pass(s, cause);
      && (!s'.current.Running? ==> s'.waiting == [] && s'.ready == [])
      && (s'.current.Idle? ==> s'.asleep != {})
      && (s'.current.Nobody? ==> s'.asleep == {} && s'.returned)
  {
    var m := MovedState(s, cause);
    RestAbandonsNobody(m, cause);
  }

  lemma MovedState(s: Sys, cause: Cause) returns (m: Sys)
    requires Shaped(s) && InvPlaces(s, Unplaced(cause)) && InvPc(s) && InvLocks(s)
    ensures m == Moved(s) && Shaped(m) && InvPlaces(m, Unplaced(cause)) && InvPc(m) && InvLocks(m)
    ensures m.current == s.current && m.tcbs == s.tcbs && (LockHeld(m) <==> LockHeld(s))
    ensures !LockHeld(m) ==> m.waiting == []
  {
    m := Moved(s);
    var k := MovedData(s);
    ReleasedStops(s.waiting, s.tcbs, s.readers, s.writers);
    MovedKeepsPlaces(s, Unplaced(cause));
    MovedKeepsPc(s, m, k);
  }

  lemma MovedKeepsPc(s: Sys, m: Sys, k: nat)
    requires Shaped(s) && InvPc(s) && Shaped(m) && k <= |s.waiting|
    requires m.tcbs == s.tcbs && m.asleep <= s.asleep && m.waiting == s.waiting[k..]
    ensures InvPc(m)
  {
    assert forall j :: 0 <= j < |m.waiting| ==> m.waiting[j] == s.waiting[j + k];
  }
}
