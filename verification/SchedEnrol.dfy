/** Which class a thread of hw3 enrolls in: the preferences it computed from the quotas it read,
    and the seats that are left when it gets the write lock. */
module SchedEnrol {
  import opened SchedMachine
  import opened SchedInvariant
  import opened SchedRuns
  import opened SchedResults

  // ---- From the read lock to the write lock

  /** The thread has taken its copies of the quotas. */
  predicate HasRead(tcb: Tcb) {
    tcb.job.Enroll? && (tcb.pc.Reading? || tcb.pc.AfterRead? || tcb.pc.WantWrite? || tcb.pc.Writing?)
  }

  /** The preferences are the weights times these quotas. */
  predicate Weighs(tcb: Tcb, x: int, y: int)
    requires tcb.job.Enroll?
  {
    tcb.qP == x && tcb.qS == y && (!tcb.pc.Reading? ==> tcb.pP == tcb.job.dP * x && tcb.pS == tcb.job.dS * y)
  }

  /** A thread that has read keeps its copies; leaving the read lock it weighs them. */
  lemma GoKeepsWeights(s: Sys, s': Sys, t: nat, x: int, y: int)
    requires Inv(s) && Next(s, Go, s') && s.current == Running(t) && HasRead(s.tcbs[t]) && Weighs(s.tcbs[t], x, y)
    ensures t < |s'.tcbs| && !s'.tcbs[t].pc.Reading?
    ensures HasRead(s'.tcbs[t]) ==> Weighs(s'.tcbs[t], x, y)
  {
    var e, cause := Exec(s).0, Exec(s).1;
    if !cause.First? {
      PassKeepsData(e, cause);
    }
  }

  lemma StepKeepsWeights(s: Sys, step: Step, s': Sys, t: nat, x: int, y: int)
    requires Inv(s) && Next(s, step, s') && t < |s.tcbs| && HasRead(s.tcbs[t]) && Weighs(s.tcbs[t], x, y)
    ensures t < |s'.tcbs| && (HasRead(s'.tcbs[t]) ==> Weighs(s'.tcbs[t], x, y))
  {
    if step.Signal? {
      SignalEffect(s, s');
    } else if s.current == Running(t) {
      GoKeepsWeights(s, s', t, x, y);
    } else {
      GoEffect(s, s');
    }
  }

  /** A thread that has read behind the step but not before it has just got the read lock. */
  lemma StartsReading(s: Sys, step: Step, s': Sys, t: nat)
    requires Inv(s) && Next(s, step, s') && t < |s.tcbs| == |s'.tcbs| && !HasRead(s.tcbs[t]) && HasRead(s'.tcbs[t])
    ensures s'.tcbs[t].pc.Reading?
  {
    if step.Signal? {
      SignalEffect(s, s');
    } else {
      GoEffect(s, s');
      if s.current == Running(t) {
        FirstRead(s, s', t);
      }
    }
  }

  lemma FirstRead(s: Sys, s': Sys, t: nat)
    requires Inv(s) && Next(s, Go, s') && s.current == Running(t) && t < |s'.tcbs|
    requires !HasRead(s.tcbs[t]) && HasRead(s'.tcbs[t])
    ensures s'.tcbs[t].pc.Reading?
  {
    var e, cause := Exec(s).0, Exec(s).1;
    if !cause.First? {
      PassKeepsData(e, cause);
    }
  }

  /** Over every run: the copies of a thread that has read are the quotas of an earlier state,
      in which it held the read lock, and its preferences are weighed from them. */
  lemma {:induction false} ReadEarlier(states: seq<Sys>, steps: seq<Step>, slice: int, qP: int, qS: int, jobs: seq<Job>,
                                       k: nat, t: nat) returns (j: nat)
    requires |jobs| < THREAD_MAX && Run(states, steps, Spawned(slice, qP, qS, jobs)) && k < |states|
    requires t < |states[k].tcbs| && HasRead(states[k].tcbs[t])
    ensures j <= k && t < |states[j].tcbs| && states[j].tcbs[t].pc.Reading?
    ensures Weighs(states[k].tcbs[t], states[j].qP, states[j].qS)
    decreases k, 1
  {
    j := k;
    RunSnapshots(states, steps, slice, qP, qS, jobs, k);
    if !states[k].tcbs[t].pc.Reading? {
      FirstHasNotRead(states, steps, slice, qP, qS, jobs, k, t);
      j := ReadBefore(states, steps, slice, qP, qS, jobs, k, t);
    }
  }

  lemma FirstHasNotRead(states: seq<Sys>, steps: seq<Step>, slice: int, qP: int, qS: int, jobs: seq<Job>, k: nat, t: nat)
    requires |jobs| < THREAD_MAX && Run(states, steps, Spawned(slice, qP, qS, jobs)) && k < |states|
    requires t < |states[k].tcbs| && HasRead(states[k].tcbs[t])
    ensures k > 0
  {
    FirstState(states, steps, slice, qP, qS, jobs);
  }

  lemma {:induction false} ReadBefore(states: seq<Sys>, steps: seq<Step>, slice: int, qP: int, qS: int, jobs: seq<Job>,
                                      k: nat, t: nat) returns (j: nat)
    requires |jobs| < THREAD_MAX && Run(states, steps, Spawned(slice, qP, qS, jobs)) && 0 < k < |states|
    requires t < |states[k].tcbs| && HasRead(states[k].tcbs[t]) && !states[k].tcbs[t].pc.Reading?
    ensures j <= k && t < |states[j].tcbs| && states[j].tcbs[t].pc.Reading?
    ensures Weighs(states[k].tcbs[t], states[j].qP, states[j].qS)
    decreases k, 0
  {
    HadReadBefore(states, steps, slice, qP, qS, jobs, k, t);
    j := ReadEarlier(states, steps, slice, qP, qS, jobs, k - 1, t);
    WeightsKeptAt(states, steps, slice, qP, qS, jobs, k, t, states[j].qP, states[j].qS);
  }

  lemma HadReadBefore(states: seq<Sys>, steps: seq<Step>, slice: int, qP: int, qS: int, jobs: seq<Job>, k: nat, t: nat)
    requires |jobs| < THREAD_MAX && Run(states, steps, Spawned(slice, qP, qS, jobs)) && 0 < k < |states|
    requires t < |states[k].tcbs| && HasRead(states[k].tcbs[t]) && !states[k].tcbs[t].pc.Reading?
    ensures t < |states[k - 1].tcbs| && HasRead(states[k - 1].tcbs[t])
  {
    JobsKeptAt(states, steps, slice, qP, qS, jobs, k);
    StepInto(states, steps, slice, qP, qS, jobs, k);
    if !HasRead(states[k - 1].tcbs[t]) {
      StartsReading(states[k - 1], steps[k - 1], states[k], t);
    }
  }

  lemma WeightsKeptAt(states: seq<Sys>, steps: seq<Step>, slice: int, qP: int, qS: int, jobs: seq<Job>, k: nat, t: nat, x: int, y: int)
    requires |jobs| < THREAD_MAX && Run(states, steps, Spawned(slice, qP, qS, jobs)) && 0 < k < |states|
    requires t < |states[k - 1].tcbs| && HasRead(states[k - 1].tcbs[t]) && Weighs(states[k - 1].tcbs[t], x, y)
    ensures t < |states[k].tcbs| && (HasRead(states[k].tcbs[t]) ==> Weighs(states[k].tcbs[t], x, y))
  {
    StepInto(states, steps, slice, qP, qS, jobs, k);
    StepKeepsWeights(states[k - 1], steps[k - 1], states[k], t, x, y);
  }

  // ---- The class

  /** The step that prints an enrolment is the one in which that thread gets the write lock;
      the seat is taken from that class. */
  lemma EnrolmentStep(s: Sys, step: Step, s': Sys, t: nat, pj: bool)
    requires Inv(s) && Next(s, step, s') && s'.log == s.log + [Enrolled(t, pj)]
    ensures step.Go? && s.current == Running(t) && t < |s.tcbs| && HasRead(s.tcbs[t]) && !s.tcbs[t].pc.Reading?
    ensures pj == ChoosesPj(s.tcbs[t], s.qP, s.qS)
    ensures s'.qP == s.qP - One(pj) && s'.qS == s.qS - One(!pj)
  {
    if step.Signal? {
      SignalEffect(s, s');
    } else {
      GoEffect(s, s');
    }
    assert s'.log[|s.log|] == Enrolled(t, pj);
  }

  /** The class that a thread with these weights should get, which has read the quotas x and y
      and finds so many seats left. In a tie the weights decide, whatever is left; otherwise the
      preferred class if it has a seat, and else the other one. */
  predicate RightClass(pj: bool, dP: int, dS: int, x: int, y: int, leftP: int, leftS: int) {
    && (dP * x == dS * y ==> (pj <==> dP > dS))
    && (dP * x > dS * y ==> (pj <==> leftP > 0))
    && (dP * x < dS * y ==> (pj <==> leftS <= 0))
  }

  lemma RightClassSays(pj: bool, dP: int, dS: int, x: int, y: int, leftP: int, leftS: int)
    requires RightClass(pj, dP, dS, x, y, leftP, leftS)
    ensures leftP > 0 && leftS > 0 ==> (pj <==> dP * x > dS * y || (dP * x == dS * y && dP > dS))
    ensures dP * x != dS * y && leftP > 0 && leftS <= 0 ==> pj
    ensures dP * x != dS * y && leftP <= 0 && leftS > 0 ==> !pj
  {
  }

  lemma ChoiceIsRight(tcb: Tcb, x: int, y: int, leftP: int, leftS: int)
    requires tcb.job.Enroll? && Weighs(tcb, x, y) && !tcb.pc.Reading?
    ensures RightClass(ChoosesPj(tcb, leftP, leftS), tcb.job.dP, tcb.job.dS, x, y, leftP, leftS)
  {
  }

  /** Over every run: a thread that enrolls gets the right class for the quotas of some earlier
      state, in which it held the read lock, and for the seats left just before it enrolls. */
  lemma ClassOfEnrolment(states: seq<Sys>, steps: seq<Step>, slice: int, qP: int, qS: int, jobs: seq<Job>,
                         k: nat, t: nat, pj: bool) returns (j: nat)
    requires |jobs| < THREAD_MAX && Run(states, steps, Spawned(slice, qP, qS, jobs)) && k < |steps|
    requires states[k + 1].log == states[k].log + [Enrolled(t, pj)]
    ensures j <= k && t < |jobs| && jobs[t].Enroll? && t < |states[j].tcbs| && states[j].tcbs[t].pc.Reading?
    ensures RightClass(pj, jobs[t].dP, jobs[t].dS, states[j].qP, states[j].qS, states[k].qP, states[k].qS)
    ensures states[k + 1].qP == states[k].qP - One(pj) && states[k + 1].qS == states[k].qS - One(!pj)
  {
    StepInto(states, steps, slice, qP, qS, jobs, k + 1);
    EnrolmentStep(states[k], steps[k], states[k + 1], t, pj);
    RunKeepsJobs(states, steps, slice, qP, qS, jobs, k);
    j := ReadEarlier(states, steps, slice, qP, qS, jobs, k, t);
    ChoiceIsRight(states[k].tcbs[t], states[j].qP, states[j].qS, states[k].qP, states[k].qS);
  }

  // ---- Once for each thread

  function Enrolments(log: seq<Event>, t: nat): nat {
    if log == [] then 0
    else Enrolments(log[..|log| - 1], t) + if log[|log| - 1].Enrolled? && log[|log| - 1].t == t then 1 else 0
  }

  ghost predicate InvEnrolments(s: Sys) {
    forall t: nat {:trigger s.tcbs[t]} :: t < |s.tcbs| ==> Enrolments(s.log, t) == One(HasSeat(s.tcbs[t]))
  }

  lemma EnrolmentsOfOne(log: seq<Event>, e: Event, t: nat)
    ensures Enrolments(log + [e], t) == Enrolments(log, t) + if e.Enrolled? && e.t == t then 1 else 0
  {
    assert (log + [e])[..|log|] == log;
  }

  lemma GoKeepsEnrolments(s: Sys, s': Sys, t: nat)
    requires InvEnrolments(s) && Effect(s, s', t)
    ensures InvEnrolments(s')
  {
    var e := if s.tcbs[t].job.Enroll? then Enrolled(t, ChoosesPj(s.tcbs[t], s.qP, s.qS))
             else Printed(t, s'.tcbs[t].i, s'.tcbs[t].fCur);
    forall u: nat | u < |s'.tcbs| ensures Enrolments(s'.log, u) == One(HasSeat(s'.tcbs[u])) {
      EnrolmentsOfOne(s.log, e, u);
      assert Enrolments(s.log, u) == One(HasSeat(s.tcbs[u]));
    }
  }

  lemma EnrolmentsKeptAt(states: seq<Sys>, steps: seq<Step>, slice: int, qP: int, qS: int, jobs: seq<Job>, k: nat)
    requires |jobs| < THREAD_MAX && Run(states, steps, Spawned(slice, qP, qS, jobs)) && 0 < k < |states|
    requires InvEnrolments(states[k - 1])
    ensures InvEnrolments(states[k])
  {
    var s, s' := states[k - 1], states[k];
    StepInto(states, steps, slice, qP, qS, jobs, k);
    if steps[k - 1].Go? {
      GoEffect(s, s');
      GoKeepsEnrolments(s, s', s.current.t);
    } else {
      SignalEffect(s, s');
      assert forall u: nat {:trigger s'.tcbs[u]} :: u < |s'.tcbs| ==> HasSeat(s'.tcbs[u]) == HasSeat(s.tcbs[u]);
    }
  }

  /** Over every run: an enrolment is printed once for each thread that has its seat, and for
      nobody else. */
  lemma {:induction false} RunEnrolments(states: seq<Sys>, steps: seq<Step>, slice: int, qP: int, qS: int, jobs: seq<Job>, k: nat)
    requires |jobs| < THREAD_MAX && Run(states, steps, Spawned(slice, qP, qS, jobs)) && k < |states|
    ensures InvEnrolments(states[k])
  {
    if k == 0 {
      FirstState(states, steps, slice, qP, qS, jobs);
    } else {
      RunEnrolments(states, steps, slice, qP, qS, jobs, k - 1);
      EnrolmentsKeptAt(states, steps, slice, qP, qS, jobs, k);
    }
  }
}
