/** When the enrolments of hw3 keep the quotas of the two classes at 0 or above. */
module SchedQuotas {
  import opened FiniteSets
  import opened SchedMachine
  import opened SchedInvariant
  import opened SchedRuns
  import opened SchedResults

  /** The tie in which enroll takes a seat without looking whether one is left. */
  predicate TakesBlindly(tcb: Tcb, qP: int, qS: int)
    requires tcb.job.Enroll?
  {
    tcb.pP == tcb.pS && if tcb.job.dP > tcb.job.dS then qP == 0 else qS == 0
  }

  /** The step is one in which the current thread gets the write lock and enrolls. */
  predicate Enrols(s: Sys, step: Step) {
    && step.Go? && s.current.Running? && s.current.t < |s.tcbs| && s.tcbs[s.current.t].job.Enroll?
    && (s.tcbs[s.current.t].pc.AfterRead? || s.tcbs[s.current.t].pc.WantWrite?)
    && s.readers <= 0 && s.writers <= 0
  }

  /** An enrolment for which no seat is left, or not in the class that is taken blindly. */
  predicate Overdraws(s: Sys, step: Step) {
    Enrols(s, step) && (s.qP + s.qS <= 0 || TakesBlindly(s.tcbs[s.current.t], s.qP, s.qS))
  }

  /** Only an enrolment changes a quota. */
  lemma EnrolmentTakesSeat(s: Sys, step: Step, s': Sys)
    requires Inv(s) && Next(s, step, s')
    ensures Enrols(s, step) ==> ChoosesPj(s.tcbs[s.current.t], s.qP, s.qS) ==> s'.qP == s.qP - 1 && s'.qS == s.qS
    ensures Enrols(s, step) ==> !ChoosesPj(s.tcbs[s.current.t], s.qP, s.qS) ==> s'.qP == s.qP && s'.qS == s.qS - 1
    ensures !Enrols(s, step) ==> s'.qP == s.qP && s'.qS == s.qS
  {
    if step.Go? {
      GoEffect(s, s');
    } else {
      SignalEffect(s, s');
    }
  }

  /** With both quotas at 0 or above, a step keeps them so if and only if it is no enrolment
      that finds both classes full, or one in which the two preferences tie and the class
      preferred by weight is full. */
  lemma QuotasStayNonNegative(s: Sys, step: Step, s': Sys)
    requires Inv(s) && Next(s, step, s') && s.qP >= 0 && s.qS >= 0
    ensures s'.qP >= 0 && s'.qS >= 0 <==> !Overdraws(s, step)
  {
    EnrolmentTakesSeat(s, step, s');
  }

  predicate OverdrawsAt(states: seq<Sys>, steps: seq<Step>, j: nat)
    requires j < |steps| && j < |states|
  {
    Overdraws(states[j], steps[j])
  }

  /** Over every run that starts with quotas at 0 or above, they still are at state k if and
      only if no step before k was such an enrolment. */
  lemma {:induction false} RunQuotas(states: seq<Sys>, steps: seq<Step>, slice: int, qP: nat, qS: nat, jobs: seq<Job>, k: nat)
    requires |jobs| < THREAD_MAX && Run(states, steps, Spawned(slice, qP, qS, jobs)) && k < |states|
    ensures states[k].qP >= 0 && states[k].qS >= 0 <==> forall j: nat :: j < k ==> !OverdrawsAt(states, steps, j)
  {
    if k == 0 {
      FirstState(states, steps, slice, qP, qS, jobs);
    } else {
      RunQuotas(states, steps, slice, qP, qS, jobs, k - 1);
      QuotasAt(states, steps, slice, qP, qS, jobs, k);
    }
  }

  lemma QuotasAt(states: seq<Sys>, steps: seq<Step>, slice: int, qP: int, qS: int, jobs: seq<Job>, k: nat)
    requires |jobs| < THREAD_MAX && Run(states, steps, Spawned(slice, qP, qS, jobs)) && 0 < k < |states|
    ensures states[k].qP >= 0 && states[k].qS >= 0 <==>
      states[k - 1].qP >= 0 && states[k - 1].qS >= 0 && !OverdrawsAt(states, steps, k - 1)
  {
    StepInto(states, steps, slice, qP, qS, jobs, k);
    EnrolmentTakesSeat(states[k - 1], steps[k - 1], states[k]);
    if states[k - 1].qP >= 0 && states[k - 1].qS >= 0 {
      QuotasStayNonNegative(states[k - 1], steps[k - 1], states[k]);
    }
  }

  /** If there are no more enrolling threads than seats, an enrolment always finds a seat in
      one of the classes; only the tie is left to overdraw a quota. */
  lemma EnoughSeats(states: seq<Sys>, steps: seq<Step>, slice: int, qP: nat, qS: nat, jobs: seq<Job>, k: nat)
    requires |jobs| < THREAD_MAX && Run(states, steps, Spawned(slice, qP, qS, jobs)) && k < |steps|
    requires |Enrolling(jobs)| <= qP + qS && Enrols(states[k], steps[k])
    ensures states[k].qP + states[k].qS > 0
  {
    var s := states[k];
    RunKeepsJobs(states, steps, slice, qP, qS, jobs, k);
    RunKeepsSeats(states, steps, slice, qP, qS, jobs, k);
    assert s.current.t in Enrolling(jobs) - Seated(s);
    assert Seated(s) <= Enrolling(jobs);
    ProperSubsetSize(Seated(s), Enrolling(jobs), s.current.t);
  }

  /** If there are more, a run that returns has overdrawn a quota. */
  lemma TooFewSeats(states: seq<Sys>, steps: seq<Step>, slice: int, qP: nat, qS: nat, jobs: seq<Job>, k: nat)
    requires |jobs| < THREAD_MAX && Run(states, steps, Spawned(slice, qP, qS, jobs)) && k < |states|
    requires |Enrolling(jobs)| > qP + qS && states[k].returned
    ensures exists j: nat :: j < k && OverdrawsAt(states, steps, j)
  {
    ReturnedRunIsComplete(states, steps, slice, qP, qS, jobs, k);
    RunQuotas(states, steps, slice, qP, qS, jobs, k);
  }

  /** A thread that enrolls alone, without sleep, with these seats left: up to its write lock. */
  lemma AloneUpToSleep(s: Sys, t: Tcb)
    requires s == Sys(1, [t], Running(0), [], [], {}, 0, 0, 0, 1, [], false)
    requires t == Fresh(Enroll(1, 0, 0, 0))
    ensures Next(s, Go, s.(tcbs := [t.(pc := AfterSleep)]))
  {
    var x := t.(pc := AfterSleep);
    var e := s.(tcbs := [x], asleep := {0});
    assert Exec(s) == (e, BySleep) by { assert s.tcbs[0 := x] == [x] && s.asleep + {0} == {0}; }
    assert DueFrom(e, 0) == [0] by {
      assert seq(1, u requires 0 <= u => IsDue(e, u)) == [true];
      assert Marked([true], 0) == [0] by { assert Marked([true], 1) == []; }
    }
    assert DueSet(e) == {0};
    var k := MovedData(e);
    assert Moved(e).ready == [0];
  }

  lemma AloneUpToWrite(s: Sys, t: Tcb) returns (s1: Sys, s2: Sys, s3: Sys)
    requires s == Sys(1, [t], Running(0), [], [], {}, 0, 0, 0, 1, [], false)
    requires t == Fresh(Enroll(1, 0, 0, 0)).(pc := AfterSleep)
    ensures Next(s, Go, s1) && Next(s1, Go, s2) && Next(s2, Go, s3) && s3.qP == -1
  {
    var reading := t.(pc := Reading, qS := 1);
    var after := reading.(pc := AfterRead);
    s1 := s.(tcbs := [reading], readers := 1);
    s2 := s.(tcbs := [after]);
    s3 := s.(tcbs := [after.(pc := Writing)], writers := 1, qP := -1, log := [Enrolled(0, true)]);
    assert Next(s, Go, s1) by { assert s.tcbs[0 := reading] == [reading]; }
    assert Next(s1, Go, s2) by { assert s1.tcbs[0 := after] == [after]; }
    assert Next(s2, Go, s3) by { assert s2.tcbs[0 := after.(pc := Writing)] == [after.(pc := Writing)]; }
  }

  /** The exception is real: with no seat left in pj and one in sw, a single thread that
      prefers pj by weight drives the quota of pj to -1. */
  lemma QuotaBelowZero()
    ensures exists s :: Reaches(Spawned(1, 0, 1, [Enroll(1, 0, 0, 0)]), s) && s.qP == -1
  {
    var t := Fresh(Enroll(1, 0, 0, 0));
    var spawned := Spawned(1, 0, 1, [t.job]);
    var s := AloneDispatched(t);
    ReachesStart(spawned);
    AloneUpToSleep(s, t);
    var s1 := s.(tcbs := [t.(pc := AfterSleep)]);
    ReachesNext(spawned, s, Go, s1);
    var s2, s3, s4 := AloneUpToWrite(s1, t.(pc := AfterSleep));
    ReachesNext(spawned, s1, Go, s2);
    ReachesNext(spawned, s2, Go, s3);
    ReachesNext(spawned, s3, Go, s4);
  }

  lemma AloneDispatched(t: Tcb) returns (s: Sys)
    requires t == Fresh(Enroll(1, 0, 0, 0))
    ensures s == Sys(1, [t], Running(0), [], [], {}, 0, 0, 0, 1, [], false)
    ensures Shaped(Spawned(1, 0, 1, [t.job])) && Pass(Spawned(1, 0, 1, [t.job]), First) == s
  {
    s := Sys(1, [t], Running(0), [], [], {}, 0, 0, 0, 1, [], false);
    var spawned := Spawned(1, 0, 1, [t.job]);
    assert spawned.ready == [0] && spawned.tcbs == [t];
    assert Marked([false], 0) == [] by { assert Marked([false], 1) == []; }
    assert seq(1, u requires 0 <= u => IsDue(spawned, u)) == [false];
    var k := MovedData(spawned);
    assert Moved(spawned).ready == [0];
  }
}
