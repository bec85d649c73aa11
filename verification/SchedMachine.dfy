/** The user-level threads of hw3: what one thread does between two switches
    (routine.c, thread_tool.h), and one pass of the scheduler (scheduler.c). A thread
    t stands for the thread with id t + 1; id 0 is the idle thread. */
module SchedMachine {

  const THREAD_MAX := 100

  /** The routine of a thread and its arguments. */
  datatype Job =
    | Fibonacci(n: int)
    | Pm(n: int)
    | Enroll(dP: int, dS: int, s: int, b: nat)

  /** Where a thread goes on when it is dispatched again. */
  datatype Pc =
    | Begin        // behind thread_setup
    | InLoop       // in thread_yield of fibonacci or pm
    | AfterSleep   // enroll: behind thread_sleep
    | WantRead     // enroll: in the loop of read_lock
    | Reading      // enroll: in thread_yield with the read lock
    | AfterRead    // enroll: in thread_yield after the read lock
    | WantWrite    // enroll: in the loop of write_lock
    | Writing      // enroll: in thread_yield with the write lock
    | Gone         // exited and freed

  /** The thread control block. */
  datatype Tcb = Tcb(job: Job, pc: Pc, waitingFor: nat, sleepingTime: int,
                     i: int, fCur: int, fPrev: int, qP: int, qS: int, pP: int, pS: int)

  datatype Current = Nobody | Idle | Running(t: nat)

  /** Lines of output that carry a result. */
  datatype Event = Printed(t: nat, i: int, value: int) | Enrolled(t: nat, pj: bool)

  datatype Sys = Sys(slice: int, tcbs: seq<Tcb>, current: Current, ready: seq<nat>, waiting: seq<nat>,
                     asleep: set<nat>, readers: int, writers: int, qP: int, qS: int,
                     log: seq<Event>, returned: bool)

  /** Why control comes back to the scheduler; the numbers are the values of longjmp. */
  datatype Cause = First | BySignal | ByLock | BySleep | ByExit

  predicate Shaped(s: Sys) {
    && |s.tcbs| < THREAD_MAX
    && (forall k :: 0 <= k < |s.ready| ==> s.ready[k] < |s.tcbs|)
    && (forall k :: 0 <= k < |s.waiting| ==> s.waiting[k] < |s.tcbs|)
    && (forall t :: t in s.asleep ==> t < |s.tcbs|)
    && (s.current.Running? ==> s.current.t < |s.tcbs|)
  }

  // ---- The scheduler pass

  predicate IsDue(s: Sys, t: nat) {
    t in s.asleep && t < |s.tcbs| && s.tcbs[t].sleepingTime == 0
  }

  /** The indices from k on that are marked, in order. */
  function Marked(marks: seq<bool>, k: nat): seq<nat>
    decreases |marks| - k
  {
    if k >= |marks| then [] else (if marks[k] then [k] else []) + Marked(marks, k + 1)
  }

  /** The sleepers from thread k on whose time is up, in the order of their slots. */
  function DueFrom(s: Sys, k: nat): seq<nat> {
    Marked(seq(|s.tcbs|, t requires 0 <= t => IsDue(s, t)), k)
  }

  function DueSet(s: Sys): set<nat>
    requires Shaped(s)
  {
    set t | t in s.asleep && IsDue(s, t)
  }

  function MoveSleeping(s: Sys): (r: Sys)
    requires Shaped(s)
    ensures Shaped(r)
  {
    MarkedInRange(seq(|s.tcbs|, t requires 0 <= t => IsDue(s, t)), 0);
    s.(ready := s.ready + DueFrom(s, 0), asleep := s.asleep - DueSet(s))
  }

  /** The test of move_waiting_to_ready for the thread at the head. */
  predicate MayGo(tcb: Tcb, readers: int, writers: int) {
    || (tcb.waitingFor == 2 && readers == 0 && writers == 0)
    || (tcb.waitingFor == 1 && writers == 0)
  }

  /** How many threads at the front of the waiting queue are released. */
  function Released(waiting: seq<nat>, tcbs: seq<Tcb>, readers: int, writers: int): (k: nat)
    requires forall j :: 0 <= j < |waiting| ==> waiting[j] < |tcbs|
    ensures k <= |waiting|
  {
    if waiting != [] && MayGo(tcbs[waiting[0]], readers, writers)
    then 1 + Released(waiting[1..], tcbs, readers, writers)
    else 0
  }

  function MoveWaiting(s: Sys): (r: Sys)
    requires Shaped(s)
    ensures Shaped(r)
  {
    var k := Released(s.waiting, s.tcbs, s.readers, s.writers);
    s.(ready := s.ready + s.waiting[..k], waiting := s.waiting[k..])
  }

  function HandlePrevious(s: Sys, cause: Cause): Sys {
    if !s.current.Running? then s
    else match cause
      case BySignal => s.(ready := s.ready + [s.current.t])
      case ByLock => s.(waiting := s.waiting + [s.current.t])
      case BySleep => s
      case ByExit => s.(current := Nobody)
      case First => s
  }

  function Select(s: Sys): Sys {
    if s.ready != [] then s.(current := Running(s.ready[0]), ready := s.ready[1..])
    else if s.asleep != {} then s.(current := Idle)
    else s.(current := Nobody, returned := true)
  }

  /** The first half of a pass: sleepers whose time is up and released waiters are ready. */
  function Moved(s: Sys): (r: Sys)
    requires Shaped(s)
    ensures Shaped(r)
  {
    MoveWaiting(MoveSleeping(s))
  }

  /** One pass of scheduler() behind its setjmp. */
  function Pass(s: Sys, cause: Cause): Sys
    requires Shaped(s)
  {
    Select(HandlePrevious(Moved(s), cause))
  }

  lemma {:induction false} MarkedInRange(marks: seq<bool>, k: nat)
    ensures forall j :: 0 <= j < |Marked(marks, k)| ==> k <= Marked(marks, k)[j] < |marks|
    decreases |marks| - k
  {
    if k < |marks| {
      MarkedInRange(marks, k + 1);
    }
  }

  // ---- Signals

  /** sighandler's loop body for one sleeper. */
  function Elapse(time: int, slice: int): int {
    if time < 0 then time else if time - slice <= 0 then 0 else time - slice
  }

  function Tick(s: Sys): (r: Sys)
    requires Shaped(s)
    ensures Shaped(r)
  {
    s.(tcbs := seq(|s.tcbs|, t requires 0 <= t < |s.tcbs| =>
      if t in s.asleep then s.tcbs[t].(sleepingTime := Elapse(s.tcbs[t].sleepingTime, s.slice)) else s.tcbs[t]))
  }

  // ---- What a thread does until it yields, blocks, sleeps or exits

  /** The value fibonacci or pm computes in iteration i. */
  function NextValue(tcb: Tcb, i: int): Tcb {
    match tcb.job
    case Fibonacci(_) =>
      if i <= 2 then tcb.(i := i, fCur := 1, fPrev := 1)
      else tcb.(i := i, fCur := tcb.fCur + tcb.fPrev, fPrev := tcb.fCur)
    case Pm(_) =>
      if i == 1 then tcb.(i := i, fCur := 1, fPrev := 1)
      else
        var v := if i % 2 == 0 then (-1) * i + tcb.fPrev else i + tcb.fPrev;
        tcb.(i := i, fCur := v, fPrev := v)
    case Enroll(_, _, _, _) => tcb
  }

  /** A pass through the loop of fibonacci or pm, up to the next yield or to thread_exit. */
  function Loop(s: Sys, t: nat, n: int): (r: (Sys, Cause))
    requires t < |s.tcbs|
  {
    var was := s.tcbs[t];
    var tcb := NextValue(was, if was.pc.Begin? then 1 else was.i + 1);
    var printed := s.(log := s.log + [Printed(t, tcb.i, tcb.fCur)]);
    if tcb.i == n then (printed.(tcbs := s.tcbs[t := tcb.(pc := Gone)]), ByExit)
    else (printed.(tcbs := s.tcbs[t := tcb.(pc := InLoop)]), First)
  }

  /** thread_awake: the thread with that id is made ready if it sleeps. */
  function Awake(s: Sys, id: nat): Sys
    requires Shaped(s)
  {
    if id > 0 && id - 1 in s.asleep then
      s.(tcbs := s.tcbs[id - 1 := s.tcbs[id - 1].(sleepingTime := 0)],
         ready := s.ready + [id - 1], asleep := s.asleep - {id - 1})
    else s
  }

  /** read_lock from the test on, and the snapshot behind it. */
  function ReadLock(s: Sys, t: nat): (Sys, Cause)
    requires t < |s.tcbs|
  {
    if s.writers > 0 then
      (s.(tcbs := s.tcbs[t := s.tcbs[t].(pc := WantRead, waitingFor := 1)]), ByLock)
    else
      (s.(tcbs := s.tcbs[t := s.tcbs[t].(pc := Reading, qP := s.qP, qS := s.qS)], readers := s.readers + 1), First)
  }

  /** Whether the thread enrolls in the pj class, given the seats left. */
  predicate ChoosesPj(tcb: Tcb, qP: int, qS: int)
    requires tcb.job.Enroll?
  {
    if tcb.pP == tcb.pS then tcb.job.dP > tcb.job.dS
    else if tcb.pP > tcb.pS then qP > 0
    else qS <= 0
  }

  /** write_lock from the test on, and the enrolment behind it. */
  function WriteLock(s: Sys, t: nat): (Sys, Cause)
    requires t < |s.tcbs| && s.tcbs[t].job.Enroll?
  {
    if s.readers > 0 || s.writers > 0 then
      (s.(tcbs := s.tcbs[t := s.tcbs[t].(pc := WantWrite, waitingFor := 2)]), ByLock)
    else
      var pj := ChoosesPj(s.tcbs[t], s.qP, s.qS);
      (s.(tcbs := s.tcbs[t := s.tcbs[t].(pc := Writing)], writers := 1,
          qP := if pj then s.qP - 1 else s.qP, qS := if pj then s.qS else s.qS - 1,
          log := s.log + [Enrolled(t, pj)]), First)
  }

  /** The rest of enroll from where the thread was last interrupted to where it stops. */
  function EnrollOn(s: Sys, t: nat): (Sys, Cause)
    requires Shaped(s) && t < |s.tcbs| && s.tcbs[t].job.Enroll?
  {
    var tcb := s.tcbs[t];
    match tcb.pc
    case AfterSleep => ReadLock(Awake(s, tcb.job.b), t)
    case WantRead => ReadLock(s, t)
    case Reading =>
      (s.(tcbs := s.tcbs[t := tcb.(pc := AfterRead, pP := tcb.job.dP * tcb.qP, pS := tcb.job.dS * tcb.qS)],
          readers := s.readers - 1), First)
    case AfterRead => WriteLock(s, t)
    case WantWrite => WriteLock(s, t)
    case Writing => (s.(tcbs := s.tcbs[t := tcb.(pc := Gone)], writers := s.writers - 1), ByExit)
    case _ =>
      (s.(tcbs := s.tcbs[t := tcb.(pc := AfterSleep, sleepingTime := tcb.job.s)], asleep := s.asleep + {t}), BySleep)
  }

  /** The current thread runs; First means that it has reached a yield and may go on. */
  function Exec(s: Sys): (Sys, Cause)
    requires Shaped(s) && s.current.Running?
  {
    var t := s.current.t;
    match s.tcbs[t].job
    case Fibonacci(n) => Loop(s, t, n)
    case Pm(n) => Loop(s, t, n)
    case Enroll(_, _, _, _) => EnrollOn(s, t)
  }

  // ---- Steps

  datatype Step = Go | Signal

  /** Signals are blocked except inside thread_yield. */
  predicate AtYield(pc: Pc) {
    pc.InLoop? || pc.Reading? || pc.AfterRead? || pc.Writing?
  }

  predicate Enabled(s: Sys, step: Step)
    requires Shaped(s)
  {
    match step
    case Go => s.current.Running? && !s.tcbs[s.current.t].pc.Gone?
    case Signal => s.current.Idle? || (s.current.Running? && AtYield(s.tcbs[s.current.t].pc))
  }

  function Apply(s: Sys, step: Step): Sys
    requires Shaped(s) && Enabled(s, step) && (step.Go? ==> Shaped(Exec(s).0))
  {
    match step
    case Go => if Exec(s).1.First? then Exec(s).0 else Pass(Exec(s).0, Exec(s).1)
    case Signal => Pass(Tick(s), BySignal)
  }

  function Fresh(job: Job): Tcb {
    Tcb(job, Begin, 0, 0, 0, 0, 0, 0, 0, 0, 0)
  }

  /** Before the scheduler runs for the first time: the threads are ready in order. */
  function Spawned(slice: int, qP: int, qS: int, jobs: seq<Job>): Sys {
    Sys(slice, seq(|jobs|, t requires 0 <= t < |jobs| => Fresh(jobs[t])), Nobody,
        seq(|jobs|, t requires 0 <= t < |jobs| => t), [], {}, 0, 0, qP, qS, [], false)
  }

  ghost predicate Next(s: Sys, step: Step, s': Sys) {
    Shaped(s) && Enabled(s, step) && (step.Go? ==> Shaped(Exec(s).0)) && s' == Apply(s, step)
  }

  ghost predicate StepAt(states: seq<Sys>, steps: seq<Step>, k: nat)
    requires k < |steps| && |states| == |steps| + 1
  {
    Next(states[k], steps[k], states[k + 1])
  }

  ghost predicate Steps(states: seq<Sys>, steps: seq<Step>) {
    |states| == |steps| + 1 && forall k: nat :: k < |steps| ==> StepAt(states, steps, k)
  }

  /** A finite run of the scheduler from the first pass on. */
  ghost predicate Run(states: seq<Sys>, steps: seq<Step>, spawned: Sys) {
    Steps(states, steps) && Shaped(spawned) && states[0] == Pass(spawned, First)
  }
}
