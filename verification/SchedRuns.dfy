/** The invariant of the thread system over whole runs, and what follows from it. */
module SchedRuns {
  import opened SchedMachine
  import opened SchedInvariant

  ghost predicate Inv(s: Sys) {
    && Shaped(s) && InvPlaces(s, true) && InvPc(s) && InvLocks(s)
    && (forall t :: t in s.asleep ==> s.tcbs[t].sleepingTime != 0)
    && (!s.current.Running? ==> s.ready == [] && s.waiting == [])
    && (s.current.Idle? ==> s.asleep != {})
    && (s.returned <==> s.current.Nobody?) && (s.current.Nobody? ==> s.asleep == {})
  }

  /** What holds when a thread has stopped running for the given cause. */
  ghost predicate Stopped(s: Sys, cause: Cause) {
    && Shaped(s) && InvPlaces(s, cause.First? || Unplaced(cause)) && InvPc(s) && InvLocks(s)
    && s.current.Running? && !s.returned
    && (cause.ByLock? ==> Waits(s.tcbs[s.current.t]) && LockHeld(s))
    && (cause.First? ==> forall t :: t in s.asleep ==> s.tcbs[t].sleepingTime != 0)
  }

  // ---- One thread changes

  ghost function One(b: bool): nat {
    if b then 1 else 0
  }

  lemma HavingMembers(tcbs: seq<Tcb>, t: nat, x: Tcb, pc: Pc)
    requires t < |tcbs|
    ensures Having(tcbs[t := x], pc) == (if x.pc == pc then Having(tcbs, pc) + {t} else Having(tcbs, pc) - {t})
  {
    var now := tcbs[t := x];
    assert forall u: nat {:trigger tcbs[u]} :: u < |tcbs| && u != t ==> now[u] == tcbs[u];
  }

  lemma WithOrWithout(was: set<nat>, t: nat)
    ensures |was + {t}| == |was| + One(t !in was)
    ensures |was - {t}| == |was| - One(t in was)
  {
    assert t in was ==> was + {t} == was;
    assert t !in was ==> was - {t} == was;
  }

  lemma HavingUpdate(tcbs: seq<Tcb>, t: nat, x: Tcb, pc: Pc)
    requires t < |tcbs|
    ensures |Having(tcbs[t := x], pc)| == |Having(tcbs, pc)| + One(x.pc == pc) - One(tcbs[t].pc == pc)
  {
    HavingMembers(tcbs, t, x, pc);
    WithOrWithout(Having(tcbs, pc), t);
  }

  /** The current thread is in no queue and not asleep. */
  lemma CurrentIsNowhereElse(s: Sys, t: nat)
    requires Shaped(s) && InvPlaces(s, true) && s.current == Running(t)
    ensures t !in s.ready && t !in s.waiting && t !in s.asleep && !s.tcbs[t].pc.Gone?
  {
    assert Places(s, true, t) <= 1;
    assert t in s.ready ==> multiset(s.ready)[t] > 0;
    assert t in s.waiting ==> multiset(s.waiting)[t] > 0;
  }

  /** The current thread becomes x and stays where it is, falls asleep or is gone. */
  lemma CurrentKeepsPlaces(s: Sys, s': Sys, t: nat, x: Tcb, held: bool)
    requires Shaped(s) && InvPlaces(s, true) && s.current == Running(t) && s'.current == s.current
    requires s'.tcbs == s.tcbs[t := x] && s'.ready == s.ready && s'.waiting == s.waiting
    requires if held then !x.pc.Gone? && s'.asleep == s.asleep
             else s'.asleep == if x.pc.Gone? then s.asleep else s.asleep + {t}
    ensures InvPlaces(s', held)
  {
    CurrentIsNowhereElse(s, t);
    forall u: nat ensures Places(s', held, u) == if u < |s'.tcbs| && !s'.tcbs[u].pc.Gone? then 1 else 0 {
      assert Places(s, true, u) == if u < |s.tcbs| && !s.tcbs[u].pc.Gone? then 1 else 0;
    }
  }

  lemma CurrentKeepsPc(s: Sys, s': Sys, t: nat, x: Tcb)
    requires Shaped(s) && InvPlaces(s, true) && InvPc(s) && s.current == Running(t) && s'.current == s.current
    requires s'.tcbs == s.tcbs[t := x] && s'.ready == s.ready && s'.waiting == s.waiting
    requires s'.asleep == s.asleep || (s'.asleep == s.asleep + {t} && x.pc.AfterSleep?)
    requires x.job == s.tcbs[t].job
    requires if x.job.Enroll? then !x.pc.InLoop? else x.pc.InLoop? || x.pc.Gone?
    ensures Shaped(s') && InvPc(s')
  {
    CurrentIsNowhereElse(s, t);
    forall k | 0 <= k < |s'.waiting| ensures Waits(s'.tcbs[s'.waiting[k]]) {
      assert s.waiting[k] in s.waiting;
    }
  }

  lemma CurrentKeepsLocks(s: Sys, s': Sys, t: nat, x: Tcb)
    requires t < |s.tcbs| && InvLocks(s) && s'.tcbs == s.tcbs[t := x]
    requires s'.readers == s.readers + One(x.pc.Reading?) - One(s.tcbs[t].pc.Reading?)
    requires s'.writers == s.writers + One(x.pc.Writing?) - One(s.tcbs[t].pc.Writing?)
    requires x.pc.Reading? && !s.tcbs[t].pc.Reading? ==> s.writers == 0
    requires x.pc.Writing? && !s.tcbs[t].pc.Writing? ==> s.writers == 0 && s.readers == 0
    ensures InvLocks(s')
  {
    HavingUpdate(s.tcbs, t, x, Reading);
    HavingUpdate(s.tcbs, t, x, Writing);
  }

  // ---- The stretches of a thread

  lemma LoopStops(s: Sys, t: nat, n: int)
    requires Inv(s) && s.current == Running(t) && !s.tcbs[t].job.Enroll?
    ensures Stopped(Loop(s, t, n).0, Loop(s, t, n).1)
  {
    var s', cause := Loop(s, t, n).0, Loop(s, t, n).1;
    CurrentIsNowhereElse(s, t);
    assert !s.tcbs[t].pc.Reading? && !s.tcbs[t].pc.Writing?;
    CurrentKeepsPlaces(s, s', t, s'.tcbs[t], cause.First?);
    CurrentKeepsPc(s, s', t, s'.tcbs[t]);
    CurrentKeepsLocks(s, s', t, s'.tcbs[t]);
  }

  lemma ReadLockStops(s: Sys, t: nat)
    requires Inv(s) && s.current == Running(t) && s.tcbs[t].job.Enroll?
    requires !s.tcbs[t].pc.Reading? && !s.tcbs[t].pc.Writing?
    ensures Stopped(ReadLock(s, t).0, ReadLock(s, t).1)
  {
    var s', cause := ReadLock(s, t).0, ReadLock(s, t).1;
    CurrentIsNowhereElse(s, t);
    CurrentKeepsPlaces(s, s', t, s'.tcbs[t], true);
    CurrentKeepsPc(s, s', t, s'.tcbs[t]);
    CurrentKeepsLocks(s, s', t, s'.tcbs[t]);
  }

  lemma WriteLockStops(s: Sys, t: nat)
    requires Inv(s) && s.current == Running(t) && s.tcbs[t].job.Enroll?
    requires !s.tcbs[t].pc.Reading? && !s.tcbs[t].pc.Writing?
    ensures Stopped(WriteLock(s, t).0, WriteLock(s, t).1)
  {
    var s', cause := WriteLock(s, t).0, WriteLock(s, t).1;
    CurrentIsNowhereElse(s, t);
    CurrentKeepsPlaces(s, s', t, s'.tcbs[t], true);
    CurrentKeepsPc(s, s', t, s'.tcbs[t]);
    CurrentKeepsLocks(s, s', t, s'.tcbs[t]);
  }

  lemma AwakeKeepsPlaces(s: Sys, s': Sys, u: nat)
    requires InvPlaces(s, true) && u in s.asleep && u < |s.tcbs|
    requires s'.current == s.current && s'.ready == s.ready + [u] && s'.waiting == s.waiting
    requires s'.asleep == s.asleep - {u} && s'.tcbs == s.tcbs[u := s.tcbs[u].(sleepingTime := 0)]
    ensures InvPlaces(s', true)
  {
    forall v: nat ensures Places(s', true, v) == Places(s, true, v) {
      assert multiset(s'.ready) == multiset(s.ready) + multiset{u};
    }
  }

  lemma AwakeKeepsInv(s: Sys, t: nat, id: nat)
    requires Inv(s) && s.current == Running(t)
    ensures var s' := Awake(s, id); Inv(s') && s'.current == Running(t) && s'.tcbs[t] == s.tcbs[t]
  {
    var s' := Awake(s, id);
    CurrentIsNowhereElse(s, t);
    if id > 0 && id - 1 in s.asleep {
      var u := id - 1;
      AwakeKeepsPlaces(s, s', u);
      HavingUpdate(s.tcbs, u, s'.tcbs[u], Reading);
      HavingUpdate(s.tcbs, u, s'.tcbs[u], Writing);
    }
  }

  lemma EnrollStops(s: Sys, t: nat)
    requires Inv(s) && s.current == Running(t) && s.tcbs[t].job.Enroll?
    ensures Stopped(EnrollOn(s, t).0, EnrollOn(s, t).1)
  {
    var tcb := s.tcbs[t];
    CurrentIsNowhereElse(s, t);
    if tcb.pc.AfterSleep? {
      AwakeKeepsInv(s, t, tcb.job.b);
      ReadLockStops(Awake(s, tcb.job.b), t);
    } else if tcb.pc.WantRead? {
      ReadLockStops(s, t);
    } else if tcb.pc.AfterRead? || tcb.pc.WantWrite? {
      WriteLockStops(s, t);
    } else {
      OtherwiseStops(s, t);
    }
  }

  /** The sections are left, or the thread goes to sleep. */
  lemma OtherwiseStops(s: Sys, t: nat)
    requires Inv(s) && s.current == Running(t) && s.tcbs[t].job.Enroll?
    requires s.tcbs[t].pc.Reading? || s.tcbs[t].pc.Writing? || s.tcbs[t].pc.Begin?
    ensures Stopped(EnrollOn(s, t).0, EnrollOn(s, t).1)
  {
    var s', cause := EnrollOn(s, t).0, EnrollOn(s, t).1;
    CurrentKeepsPlaces(s, s', t, s'.tcbs[t], cause.First?);
    CurrentKeepsPc(s, s', t, s'.tcbs[t]);
    CurrentKeepsLocks(s, s', t, s'.tcbs[t]);
  }

  lemma ExecStops(s: Sys)
    requires Inv(s) && s.current.Running?
    ensures Stopped(Exec(s).0, Exec(s).1)
  {
    var t := s.current.t;
    CurrentIsNowhereElse(s, t);
    if s.tcbs[t].job.Enroll? {
      EnrollStops(s, t);
    } else {
      LoopStops(s, t, s.tcbs[t].job.n);
    }
  }

  // ---- A pass and a signal

  lemma PassGivesInv(s: Sys, cause: Cause)
    requires Shaped(s) && InvPlaces(s, Unplaced(cause)) && InvPc(s) && InvLocks(s) && !s.returned
    requires cause.ByLock? && s.current.Running? ==> Waits(s.tcbs[s.current.t]) && LockHeld(s)
    ensures Inv(Pass(s, cause))
  {
    PassKeepsPlaces(s, cause);
    PassKeepsData(s, cause);
    PassKeepsPc(s, cause);
    PassAbandonsNobody(s, cause);
  }

  lemma TickKeepsInv(s: Sys)
    requires Inv(s)
    ensures var s' := Tick(s); InvPlaces(s', true) && InvPc(s') && InvLocks(s')
  {
    var s' := Tick(s);
    forall t: nat ensures Places(s', true, t) == Places(s, true, t) {
    }
    forall k | 0 <= k < |s'.waiting| ensures Waits(s'.tcbs[s'.waiting[k]]) {
      assert Waits(s.tcbs[s.waiting[k]]);
    }
    assert Having(s'.tcbs, Reading) == Having(s.tcbs, Reading);
    assert Having(s'.tcbs, Writing) == Having(s.tcbs, Writing);
  }

  /** Every step of every thread and every signal keeps the invariant; a step is always
      defined: no slot outside the arrays is ever used. */
  lemma StepKeepsInv(s: Sys, step: Step)
    requires Inv(s) && Enabled(s, step)
    ensures step.Go? ==> Shaped(Exec(s).0)
    ensures Inv(Apply(s, step))
  {
    if step.Go? {
      ExecStops(s);
      if !Exec(s).1.First? {
        PassGivesInv(Exec(s).0, Exec(s).1);
      }
    } else {
      TickKeepsInv(s);
      PassGivesInv(Tick(s), BySignal);
    }
  }

  lemma {:induction false} SpawnedCounts(n: nat, t: nat)
    ensures multiset(seq(n, k requires 0 <= k < n => k as nat))[t] == One(t < n)
  {
    if n > 0 {
      SpawnedCounts(n - 1, t);
      assert seq(n, k requires 0 <= k < n => k as nat) == seq(n - 1, k requires 0 <= k < n - 1 => k as nat) + [n - 1];
    }
  }

  lemma FirstPassGivesInv(slice: int, qP: int, qS: int, jobs: seq<Job>)
    requires |jobs| < THREAD_MAX
    ensures var s := Spawned(slice, qP, qS, jobs); Shaped(s) && Inv(Pass(s, First))
  {
    var s := Spawned(slice, qP, qS, jobs);
    forall t: nat ensures Places(s, false, t) == One(t < |jobs|) {
      SpawnedCounts(|jobs|, t);
      assert s.ready == seq(|jobs|, k requires 0 <= k < |jobs| => k as nat);
    }
    assert Having(s.tcbs, Reading) == {} && Having(s.tcbs, Writing) == {};
    PassGivesInv(s, First);
  }

  /** Every state of every run satisfies the invariant. */
  lemma {:induction false} RunKeepsInv(states: seq<Sys>, steps: seq<Step>, slice: int, qP: int, qS: int, jobs: seq<Job>, k: nat)
    requires |jobs| < THREAD_MAX && Run(states, steps, Spawned(slice, qP, qS, jobs)) && k < |states|
    ensures Inv(states[k])
  {
    if k == 0 {
      FirstPassGivesInv(slice, qP, qS, jobs);
    } else {
      RunKeepsInv(states, steps, slice, qP, qS, jobs, k - 1);
      assert StepAt(states, steps, k - 1);
      StepKeepsInv(states[k - 1], steps[k - 1]);
    }
  }

  /** The step into state k of a run. */
  lemma StepInto(states: seq<Sys>, steps: seq<Step>, slice: int, qP: int, qS: int, jobs: seq<Job>, k: nat)
    requires |jobs| < THREAD_MAX && Run(states, steps, Spawned(slice, qP, qS, jobs)) && 0 < k < |states|
    ensures Inv(states[k - 1]) && Next(states[k - 1], steps[k - 1], states[k])
  {
    RunKeepsInv(states, steps, slice, qP, qS, jobs, k - 1);
    assert StepAt(states, steps, k - 1);
  }

  /** The first state of a run: no thread has run yet. */
  lemma FirstState(states: seq<Sys>, steps: seq<Step>, slice: int, qP: int, qS: int, jobs: seq<Job>)
    requires |jobs| < THREAD_MAX && Run(states, steps, Spawned(slice, qP, qS, jobs))
    ensures states[0].tcbs == Spawned(slice, qP, qS, jobs).tcbs && states[0].log == []
    ensures states[0].qP == qP && states[0].qS == qS && states[0].slice == slice
  {
    PassKeepsData(Spawned(slice, qP, qS, jobs), First);
  }

  // ---- States that some run reaches

  ghost predicate Reaches(spawned: Sys, s: Sys) {
    exists states: seq<Sys>, steps: seq<Step> :: Run(states, steps, spawned) && states[|steps|] == s
  }

  lemma ReachesStart(spawned: Sys)
    requires Shaped(spawned)
    ensures Reaches(spawned, Pass(spawned, First))
  {
    assert Run([Pass(spawned, First)], [], spawned);
  }

  lemma ReachesNext(spawned: Sys, s: Sys, step: Step, s': Sys)
    requires Reaches(spawned, s) && Next(s, step, s')
    ensures Reaches(spawned, s')
  {
    var states: seq<Sys>, steps: seq<Step> :| Run(states, steps, spawned) && states[|steps|] == s;
    RunExtends(states, steps, spawned, s, step, s');
  }

  lemma RunExtends(states: seq<Sys>, steps: seq<Step>, spawned: Sys, s: Sys, step: Step, s': Sys)
    requires Run(states, steps, spawned) && states[|steps|] == s && Next(s, step, s')
    ensures Run(states + [s'], steps + [step], spawned)
  {
    var longer, more := states + [s'], steps + [step];
    forall k: nat | k < |more| ensures StepAt(longer, more, k) {
      if k < |steps| {
        assert StepAt(states, steps, k) && steps[k] == more[k] && longer[k] == states[k] && longer[k + 1] == states[k + 1];
      }
    }
  }
}
