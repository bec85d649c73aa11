/** What the threads of hw3 compute under every schedule of signals: numbers printed,
    snapshots read, seats taken; and when the scheduler returns. */
module SchedResults {
  import opened FiniteSets
  import opened SchedMachine
  import opened SchedInvariant
  import opened SchedRuns

  // ---- Conservation of threads

  ghost function Live(s: Sys): set<nat> {
    set t: nat | t < |s.tcbs| && !s.tcbs[t].pc.Gone?
  }

  ghost function CurrentThread(s: Sys): multiset<nat> {
    if s.current.Running? then multiset{s.current.t} else multiset{}
  }

  /** The live threads are shared out among running, ready, waiting and sleeping, each in
      one place once; so no queue ever holds as many threads as its array has slots. */
  lemma ThreadsAreConserved(s: Sys)
    requires Inv(s)
    ensures CurrentThread(s) + multiset(s.ready) + multiset(s.waiting) + multiset(s.asleep) == multiset(Live(s))
    ensures |CurrentThread(s)| + |s.ready| + |s.waiting| + |s.asleep| == |Live(s)| <= |s.tcbs| < THREAD_MAX
  {
    var all := CurrentThread(s) + multiset(s.ready) + multiset(s.waiting) + multiset(s.asleep);
    forall t: nat ensures all[t] == multiset(Live(s))[t] {
      assert all[t] == Places(s, true, t);
    }
    assert all == multiset(Live(s));
    assert |all| == |Live(s)|;
    BelowBound(|s.tcbs|, Live(s));
  }

  /** The scheduler has returned exactly when every thread has exited. */
  lemma ReturnsWhenAllExited(s: Sys)
    requires Inv(s)
    ensures s.returned <==> forall t :: 0 <= t < |s.tcbs| ==> s.tcbs[t].pc.Gone?
  {
    if s.returned {
      forall t | 0 <= t < |s.tcbs| ensures s.tcbs[t].pc.Gone? {
        assert Places(s, true, t) == 0;
      }
    } else if s.current.Running? {
      CurrentIsNowhereElse(s, s.current.t);
    } else {
      var t :| t in s.asleep;
      assert s.tcbs[t].pc.AfterSleep?;
    }
  }

  /** A run can always go on until the scheduler has returned. */
  lemma SomeStepEnabled(s: Sys)
    requires Inv(s)
    ensures !s.returned <==> Enabled(s, Go) || Enabled(s, Signal)
  {
    if s.current.Running? {
      CurrentIsNowhereElse(s, s.current.t);
    }
  }

  /** Over every run: when the idle thread is picked or the scheduler returns, nobody is left
      in a queue; and it returns when, and only when, every thread has exited. */
  lemma NobodyIsAbandoned(states: seq<Sys>, steps: seq<Step>, slice: int, qP: int, qS: int, jobs: seq<Job>, k: nat)
    requires |jobs| < THREAD_MAX && Run(states, steps, Spawned(slice, qP, qS, jobs)) && k < |states|
    ensures var s := states[k];
      && (!s.current.Running? ==> s.waiting == [] && s.ready == [])
      && (s.current.Idle? ==> s.asleep != {})
      && (s.returned <==> forall t :: 0 <= t < |s.tcbs| ==> s.tcbs[t].pc.Gone?)
  {
    RunKeepsInv(states, steps, slice, qP, qS, jobs, k);
    ReturnsWhenAllExited(states[k]);
  }

  /** Over every run: one writer alone, or readers only, and the counts tell how many. */
  lemma LockIsSafe(states: seq<Sys>, steps: seq<Step>, slice: int, qP: int, qS: int, jobs: seq<Job>, k: nat)
    requires |jobs| < THREAD_MAX && Run(states, steps, Spawned(slice, qP, qS, jobs)) && k < |states|
    ensures var s := states[k];
      && s.readers == |Having(s.tcbs, Reading)| && s.writers == |Having(s.tcbs, Writing)| <= 1
      && forall t, u :: 0 <= t < |s.tcbs| && 0 <= u < |s.tcbs| && s.tcbs[t].pc.Writing? && t != u ==>
           !s.tcbs[u].pc.Reading? && !s.tcbs[u].pc.Writing?
  {
    RunKeepsInv(states, steps, slice, qP, qS, jobs, k);
    var s := states[k];
    forall t: nat, u: nat | t < |s.tcbs| && u < |s.tcbs| && s.tcbs[t].pc.Writing? && t != u
      ensures !s.tcbs[u].pc.Reading? && !s.tcbs[u].pc.Writing? {
      assert t in Having(s.tcbs, Writing);
      AtMostOne(Having(s.tcbs, Writing), t, u);
      assert u in Having(s.tcbs, Reading) ==> s.readers > 0;
    }
  }

  lemma AtMostOne(ts: set<nat>, t: nat, u: nat)
    requires |ts| <= 1 && t in ts && t != u
    ensures u !in ts
  {
    WithOrWithout(ts, t);
    assert ts - {t} == {};
    assert u !in ts - {t};
  }

  // ---- What a step changes in the threads

  ghost predicate SameBut(now: Tcb, was: Tcb) {
    now.(sleepingTime := was.sleepingTime) == was
  }

  predicate HasSeat(tcb: Tcb) {
    tcb.job.Enroll? && (tcb.pc.Writing? || tcb.pc.Gone?)
  }

  /** An enrolling thread reads the quotas when it takes the read lock, and takes a seat
      when it takes the write lock. */
  ghost predicate Enrolls(s: Sys, s': Sys, t: nat)
    requires t < |s.tcbs| && t < |s'.tcbs| && s.tcbs[t].job.Enroll?
  {
    var was, now := s.tcbs[t], s'.tcbs[t];
    && (HasSeat(was) ==> HasSeat(now)) && !now.pc.InLoop?
    && ((was.pc.AfterRead? || was.pc.WantWrite?) && s.readers <= 0 && s.writers <= 0 ==> HasSeat(now))
    && (now.pc.Reading? ==> now.qP == s.qP && now.qS == s.qS)
    && if !HasSeat(was) && HasSeat(now) then
         var pj := ChoosesPj(was, s.qP, s.qS);
         && s.readers == 0 && s.writers == 0 && (was.pc.AfterRead? || was.pc.WantWrite?) && now.pc.Writing?
         && s'.qP == s.qP - One(pj) && s'.qS == s.qS - One(!pj) && s'.log == s.log + [Enrolled(t, pj)]
       else s'.qP == s.qP && s'.qS == s.qS && s'.log == s.log
  }

  /** A thread of the other routines computes and prints one value. */
  ghost predicate Computes(s: Sys, s': Sys, t: nat)
    requires t < |s.tcbs| && t < |s'.tcbs| && !s.tcbs[t].job.Enroll?
  {
    var was, now := s.tcbs[t], s'.tcbs[t];
    var i := if was.pc.Begin? then 1 else was.i + 1;
    && now == NextValue(was, i).(pc := if i == was.job.n then Gone else InLoop)
    && s'.log == s.log + [Printed(t, now.i, now.fCur)] && s'.qP == s.qP && s'.qS == s.qS
  }

  /** What a stretch of thread t does to threads, output and quotas. */
  ghost predicate Effect(s: Sys, s': Sys, t: nat) {
    && t < |s.tcbs| == |s'.tcbs| && s'.tcbs[t].job == s.tcbs[t].job && !s.tcbs[t].pc.Gone?
    && (forall u: nat {:trigger s'.tcbs[u]} :: u < |s.tcbs| && u != t ==> SameBut(s'.tcbs[u], s.tcbs[u]))
    && (if s.tcbs[t].job.Enroll? then Enrolls(s, s', t) else !EnrollPc(s.tcbs[t].pc) && Computes(s, s', t))
  }

  lemma ReadLockEffect(s: Sys, a: Sys, t: nat)
    requires Inv(s) && s.current == Running(t) && s.tcbs[t].job.Enroll?
    requires s.tcbs[t].pc.AfterSleep? || s.tcbs[t].pc.WantRead?
    requires |a.tcbs| == |s.tcbs| && a.tcbs[t] == s.tcbs[t] && a.log == s.log && a.qP == s.qP && a.qS == s.qS
    requires forall u: nat {:trigger a.tcbs[u]} :: u < |s.tcbs| && u != t ==> SameBut(a.tcbs[u], s.tcbs[u])
    ensures Effect(s, ReadLock(a, t).0, t)
  {
  }

  lemma WriteLockEffect(s: Sys, t: nat)
    requires Inv(s) && s.current == Running(t) && s.tcbs[t].job.Enroll?
    requires s.tcbs[t].pc.AfterRead? || s.tcbs[t].pc.WantWrite?
    ensures Effect(s, WriteLock(s, t).0, t)
  {
  }

  lemma EnrollEffect(s: Sys, t: nat)
    requires Inv(s) && s.current == Running(t) && s.tcbs[t].job.Enroll? && !s.tcbs[t].pc.Gone?
    ensures Effect(s, EnrollOn(s, t).0, t)
  {
    var tcb := s.tcbs[t];
    if tcb.pc.AfterSleep? {
      CurrentIsNowhereElse(s, t);
      ReadLockEffect(s, Awake(s, tcb.job.b), t);
    } else if tcb.pc.WantRead? {
      ReadLockEffect(s, s, t);
    } else if tcb.pc.AfterRead? || tcb.pc.WantWrite? {
      WriteLockEffect(s, t);
    }
  }

  lemma LoopEffect(s: Sys, t: nat)
    requires Inv(s) && s.current == Running(t) && !s.tcbs[t].job.Enroll? && !s.tcbs[t].pc.Gone?
    ensures Effect(s, Loop(s, t, s.tcbs[t].job.n).0, t)
  {
    var s' := Loop(s, t, s.tcbs[t].job.n).0;
    assert !EnrollPc(s.tcbs[t].pc);
    assert Computes(s, s', t);
  }

  /** A thread changes only itself, but for the sleeping time of others. */
  lemma GoEffect(s: Sys, s': Sys)
    requires Inv(s) && Next(s, Go, s')
    ensures s.current.Running? && Effect(s, s', s.current.t)
  {
    var t := s.current.t;
    var e, cause := Exec(s).0, Exec(s).1;
    if s.tcbs[t].job.Enroll? {
      EnrollEffect(s, t);
    } else {
      LoopEffect(s, t);
    }
    assert Effect(s, e, t);
    if !cause.First? {
      PassKeepsData(e, cause);
    }
  }

  /** A signal changes no thread but for the time it still has to sleep. */
  lemma SignalEffect(s: Sys, s': Sys)
    requires Inv(s) && Next(s, Signal, s')
    ensures |s'.tcbs| == |s.tcbs| && s'.log == s.log && s'.qP == s.qP && s'.qS == s.qS
    ensures forall u: nat {:trigger s'.tcbs[u]} :: u < |s.tcbs| ==> SameBut(s'.tcbs[u], s.tcbs[u])
  {
    PassKeepsData(Tick(s), BySignal);
  }

  // ---- The numbers printed

  function Fib(i: nat): int {
    if i <= 2 then 1 else Fib(i - 1) + Fib(i - 2)
  }

  /** 1 - 2 + 3 - ..., up to i. */
  function AlternatingSum(i: nat): int {
    if i == 0 then 0 else AlternatingSum(i - 1) + if i % 2 == 0 then -(i as int) else i
  }

  lemma {:induction false} AlternatingSumClosed(i: nat)
    ensures AlternatingSum(i) == if i % 2 == 1 then (i + 1) / 2 else -(i as int / 2)
  {
    if i > 0 {
      AlternatingSumClosed(i - 1);
    }
  }

  function Value(job: Job, i: nat): int {
    if job.Fibonacci? then Fib(i) else AlternatingSum(i)
  }

  /** The lines that a thread has printed. */
  function Lines(log: seq<Event>, t: nat): seq<(int, int)> {
    if log == [] then []
    else
      var last := log[|log| - 1];
      Lines(log[..|log| - 1], t) + if last.Printed? && last.t == t then [(last.i, last.value)] else []
  }

  /** The first i lines a thread with this job has to print. */
  function Expected(job: Job, i: nat): seq<(int, int)> {
    if i == 0 then [] else Expected(job, i - 1) + [(i, Value(job, i))]
  }

  ghost predicate Prints(tcb: Tcb, lines: seq<(int, int)>) {
    && (tcb.pc.Begin? || tcb.job.Enroll? ==> lines == [])
    && (!tcb.pc.Begin? && !tcb.job.Enroll? ==>
          && tcb.i >= 1 && lines == Expected(tcb.job, tcb.i)
          && tcb.fCur == Value(tcb.job, tcb.i)
          && tcb.fPrev == (if tcb.job.Pm? then tcb.fCur else if tcb.i <= 2 then 1 else Fib(tcb.i - 1))
          && (tcb.pc.Gone? <==> tcb.i == tcb.job.n))
  }

  ghost predicate InvPrints(s: Sys) {
    forall t: nat {:trigger s.tcbs[t]} :: t < |s.tcbs| ==> Prints(s.tcbs[t], Lines(s.log, t))
  }

  lemma LinesOfOne(log: seq<Event>, e: Event, t: nat)
    ensures Lines(log + [e], t) == Lines(log, t) + if e.Printed? && e.t == t then [(e.i, e.value)] else []
  {
    assert (log + [e])[..|log|] == log;
  }

  /** One iteration of fibonacci or pm computes and prints the next value of the series. */
  lemma NextValuePrints(was: Tcb, lines: seq<(int, int)>)
    requires !was.job.Enroll? && (was.pc.Begin? || was.pc.InLoop?) && Prints(was, lines)
    ensures var i := if was.pc.Begin? then 1 else was.i + 1;
      var tcb := NextValue(was, i);
      Prints(tcb.(pc := if i == was.job.n then Gone else InLoop), lines + [(tcb.i, tcb.fCur)])
  {
    var i := if was.pc.Begin? then 1 else was.i + 1;
    assert Expected(was.job, i) == Expected(was.job, i - 1) + [(i, Value(was.job, i))];
    assert was.pc.InLoop? ==> Value(was.job, i - 1) == was.fCur;
    assert Expected(was.job, 0) == [] && AlternatingSum(0) == 0;
  }

  lemma GoKeepsPrints(s: Sys, s': Sys, t: nat, u: nat)
    requires InvPrints(s) && Effect(s, s', t) && u < |s.tcbs|
    ensures Prints(s'.tcbs[u], Lines(s'.log, u))
  {
    assert Prints(s.tcbs[u], Lines(s.log, u));
    assert Prints(s.tcbs[t], Lines(s.log, t));
    if s.tcbs[t].job.Enroll? {
      LinesOfOne(s.log, Enrolled(t, ChoosesPj(s.tcbs[t], s.qP, s.qS)), u);
    } else {
      NextValuePrints(s.tcbs[t], Lines(s.log, t));
      LinesOfOne(s.log, Printed(t, s'.tcbs[t].i, s'.tcbs[t].fCur), u);
    }
  }

  lemma StepKeepsPrints(s: Sys, step: Step, s': Sys)
    requires Inv(s) && InvPrints(s) && Next(s, step, s')
    ensures InvPrints(s')
  {
    if step.Go? {
      GoEffect(s, s');
      EffectKeepsPrints(s, s', s.current.t);
    } else {
      SignalEffect(s, s');
      SameKeepsPrints(s, s');
    }
  }

  lemma EffectKeepsPrints(s: Sys, s': Sys, t: nat)
    requires InvPrints(s) && Effect(s, s', t)
    ensures InvPrints(s')
  {
    forall u: nat {:trigger s'.tcbs[u]} | u < |s.tcbs| ensures Prints(s'.tcbs[u], Lines(s'.log, u)) {
      GoKeepsPrints(s, s', t, u);
    }
  }

  lemma SameKeepsPrints(s: Sys, s': Sys)
    requires InvPrints(s) && |s'.tcbs| == |s.tcbs| && s'.log == s.log
    requires forall u: nat {:trigger s'.tcbs[u]} :: u < |s.tcbs| ==> SameBut(s'.tcbs[u], s.tcbs[u])
    ensures InvPrints(s')
  {
    forall u: nat {:trigger s'.tcbs[u]} | u < |s.tcbs| ensures Prints(s'.tcbs[u], Lines(s'.log, u)) {
      assert Prints(s.tcbs[u], Lines(s.log, u));
    }
  }

  /** However the threads are preempted, each has printed its series from the first line
      on, in order; fibonacci and pm have exited exactly when line n is out. */
  lemma {:induction false} RunPrints(states: seq<Sys>, steps: seq<Step>, slice: int, qP: int, qS: int, jobs: seq<Job>, k: nat)
    requires |jobs| < THREAD_MAX && Run(states, steps, Spawned(slice, qP, qS, jobs)) && k < |states|
    ensures InvPrints(states[k])
  {
    if k == 0 {
      FirstState(states, steps, slice, qP, qS, jobs);
    } else {
      RunPrints(states, steps, slice, qP, qS, jobs, k - 1);
      PrintsKeptAt(states, steps, slice, qP, qS, jobs, k);
    }
  }

  lemma PrintsKeptAt(states: seq<Sys>, steps: seq<Step>, slice: int, qP: int, qS: int, jobs: seq<Job>, k: nat)
    requires |jobs| < THREAD_MAX && Run(states, steps, Spawned(slice, qP, qS, jobs)) && 0 < k < |states|
    requires InvPrints(states[k - 1])
    ensures InvPrints(states[k])
  {
    StepInto(states, steps, slice, qP, qS, jobs, k);
    StepKeepsPrints(states[k - 1], steps[k - 1], states[k]);
  }

  /** The i-th line, spelled out. */
  lemma {:induction false} ExpectedAt(job: Job, n: nat, i: nat)
    requires 1 <= i <= n
    ensures |Expected(job, n)| == n && Expected(job, n)[i - 1] == (i, Value(job, i))
  {
    if i < n {
      ExpectedAt(job, n - 1, i);
    } else {
      if n > 1 { ExpectedAt(job, n - 1, n - 1); }
    }
  }

  // ---- The snapshot of a reader

  /** Between its read_lock and its read_unlock a thread's copies are the globals. */
  ghost predicate InvSnapshot(s: Sys) {
    forall t: nat {:trigger s.tcbs[t]} :: t < |s.tcbs| && s.tcbs[t].pc.Reading? ==>
      s.tcbs[t].qP == s.qP && s.tcbs[t].qS == s.qS
  }

  lemma StepKeepsSnapshot(s: Sys, step: Step, s': Sys)
    requires Inv(s) && InvSnapshot(s) && Next(s, step, s')
    ensures InvSnapshot(s')
  {
    if step.Go? {
      GoEffect(s, s');
      GoKeepsSnapshot(s, s', s.current.t);
    } else {
      SignalEffect(s, s');
    }
  }

  /** The quotas change only while nobody reads. */
  lemma GoKeepsSnapshot(s: Sys, s': Sys, t: nat)
    requires InvLocks(s) && InvSnapshot(s) && Effect(s, s', t)
    ensures InvSnapshot(s')
  {
    forall u: nat | u < |s'.tcbs| && s'.tcbs[u].pc.Reading? ensures s'.tcbs[u].qP == s'.qP && s'.tcbs[u].qS == s'.qS {
      if u != t {
        assert u in Having(s.tcbs, Reading);
        assert s.readers > 0;
      }
    }
  }

  lemma {:induction false} RunSnapshots(states: seq<Sys>, steps: seq<Step>, slice: int, qP: int, qS: int, jobs: seq<Job>, k: nat)
    requires |jobs| < THREAD_MAX && Run(states, steps, Spawned(slice, qP, qS, jobs)) && k < |states|
    ensures InvSnapshot(states[k])
  {
    if k == 0 {
      FirstState(states, steps, slice, qP, qS, jobs);
    } else {
      RunSnapshots(states, steps, slice, qP, qS, jobs, k - 1);
      SnapshotsKeptAt(states, steps, slice, qP, qS, jobs, k);
    }
  }

  lemma SnapshotsKeptAt(states: seq<Sys>, steps: seq<Step>, slice: int, qP: int, qS: int, jobs: seq<Job>, k: nat)
    requires |jobs| < THREAD_MAX && Run(states, steps, Spawned(slice, qP, qS, jobs)) && 0 < k < |states|
    requires InvSnapshot(states[k - 1])
    ensures InvSnapshot(states[k])
  {
    StepInto(states, steps, slice, qP, qS, jobs, k);
    StepKeepsSnapshot(states[k - 1], steps[k - 1], states[k]);
  }

  // ---- Seats

  ghost function Seated(s: Sys): set<nat> {
    set t: nat | t < |s.tcbs| && HasSeat(s.tcbs[t])
  }

  /** Free seats and enrolled threads together. */
  ghost function Seats(s: Sys): int {
    s.qP + s.qS + |Seated(s)|
  }

  /** A seat of one class goes with each thread that takes the write lock, and with nothing else. */
  lemma GoKeepsSeats(s: Sys, s': Sys, t: nat)
    requires Effect(s, s', t)
    ensures Seats(s') == Seats(s)
  {
    assert Seated(s') == if HasSeat(s'.tcbs[t]) then Seated(s) + {t} else Seated(s);
    WithOrWithout(Seated(s), t);
  }

  lemma StepKeepsSeats(s: Sys, step: Step, s': Sys)
    requires Inv(s) && Next(s, step, s')
    ensures Seats(s') == Seats(s)
  {
    if step.Go? {
      GoEffect(s, s');
      GoKeepsSeats(s, s', s.current.t);
    } else {
      SignalKeepsSeats(s, s');
    }
  }

  lemma SignalKeepsSeats(s: Sys, s': Sys)
    requires Inv(s) && Next(s, Signal, s')
    ensures Seats(s') == Seats(s)
  {
    SignalEffect(s, s');
    assert Seated(s') == Seated(s);
  }

  lemma SeatsAtFirst(states: seq<Sys>, steps: seq<Step>, slice: int, qP: int, qS: int, jobs: seq<Job>)
    requires |jobs| < THREAD_MAX && Run(states, steps, Spawned(slice, qP, qS, jobs))
    ensures Seats(states[0]) == qP + qS
  {
    FirstState(states, steps, slice, qP, qS, jobs);
    assert Seated(states[0]) == {};
  }

  /** Over every run the free seats and the enrolled threads together stay the same number. */
  lemma {:induction false} RunKeepsSeats(states: seq<Sys>, steps: seq<Step>, slice: int, qP: int, qS: int, jobs: seq<Job>, k: nat)
    requires |jobs| < THREAD_MAX && Run(states, steps, Spawned(slice, qP, qS, jobs)) && k < |states|
    ensures Seats(states[k]) == qP + qS
  {
    if k == 0 {
      SeatsAtFirst(states, steps, slice, qP, qS, jobs);
    } else {
      RunKeepsSeats(states, steps, slice, qP, qS, jobs, k - 1);
      SeatsKeptAt(states, steps, slice, qP, qS, jobs, k);
    }
  }

  lemma SeatsKeptAt(states: seq<Sys>, steps: seq<Step>, slice: int, qP: int, qS: int, jobs: seq<Job>, k: nat)
    requires |jobs| < THREAD_MAX && Run(states, steps, Spawned(slice, qP, qS, jobs)) && 0 < k < |states|
    ensures Seats(states[k]) == Seats(states[k - 1])
  {
    StepInto(states, steps, slice, qP, qS, jobs, k);
    StepKeepsSeats(states[k - 1], steps[k - 1], states[k]);
  }

  // ---- The end

  lemma StepKeepsJobs(s: Sys, step: Step, s': Sys)
    requires Inv(s) && Next(s, step, s')
    ensures |s'.tcbs| == |s.tcbs|
    ensures forall u: nat {:trigger s'.tcbs[u]} :: u < |s.tcbs| ==> s'.tcbs[u].job == s.tcbs[u].job
  {
    if step.Go? {
      GoEffect(s, s');
    } else {
      SignalEffect(s, s');
    }
  }

  /** A thread keeps its routine. */
  lemma {:induction false} RunKeepsJobs(states: seq<Sys>, steps: seq<Step>, slice: int, qP: int, qS: int, jobs: seq<Job>, k: nat)
    requires |jobs| < THREAD_MAX && Run(states, steps, Spawned(slice, qP, qS, jobs)) && k < |states|
    ensures |states[k].tcbs| == |jobs|
    ensures forall t: nat {:trigger states[k].tcbs[t]} :: t < |jobs| ==> states[k].tcbs[t].job == jobs[t]
  {
    if k == 0 {
      FirstState(states, steps, slice, qP, qS, jobs);
    } else {
      RunKeepsJobs(states, steps, slice, qP, qS, jobs, k - 1);
      JobsKeptAt(states, steps, slice, qP, qS, jobs, k);
    }
  }

  lemma JobsKeptAt(states: seq<Sys>, steps: seq<Step>, slice: int, qP: int, qS: int, jobs: seq<Job>, k: nat)
    requires |jobs| < THREAD_MAX && Run(states, steps, Spawned(slice, qP, qS, jobs)) && 0 < k < |states|
    ensures |states[k].tcbs| == |states[k - 1].tcbs|
    ensures forall t: nat {:trigger states[k].tcbs[t]} :: t < |states[k].tcbs| ==> states[k].tcbs[t].job == states[k - 1].tcbs[t].job
  {
    StepInto(states, steps, slice, qP, qS, jobs, k);
    StepKeepsJobs(states[k - 1], steps[k - 1], states[k]);
  }

  ghost function Enrolling(jobs: seq<Job>): set<nat> {
    set t: nat | t < |jobs| && jobs[t].Enroll?
  }

  /** When the scheduler has returned, every thread of the other routines has printed exactly
      its n lines and every enrolling thread has taken exactly one seat. */
  lemma ReturnedRunIsComplete(states: seq<Sys>, steps: seq<Step>, slice: int, qP: int, qS: int, jobs: seq<Job>, k: nat)
    requires |jobs| < THREAD_MAX && Run(states, steps, Spawned(slice, qP, qS, jobs)) && k < |states|
    requires states[k].returned
    ensures forall t: nat {:trigger jobs[t]} :: t < |jobs| && !jobs[t].Enroll? ==>
      jobs[t].n >= 1 && Lines(states[k].log, t) == Expected(jobs[t], jobs[t].n)
    ensures states[k].qP + states[k].qS == qP + qS - |Enrolling(jobs)|
  {
    var s := states[k];
    RunKeepsInv(states, steps, slice, qP, qS, jobs, k);
    RunKeepsJobs(states, steps, slice, qP, qS, jobs, k);
    RunPrints(states, steps, slice, qP, qS, jobs, k);
    RunKeepsSeats(states, steps, slice, qP, qS, jobs, k);
    ReturnsWhenAllExited(s);
    forall t: nat | t < |jobs| && !jobs[t].Enroll?
      ensures jobs[t].n >= 1 && Lines(s.log, t) == Expected(jobs[t], jobs[t].n) {
      assert Prints(s.tcbs[t], Lines(s.log, t));
    }
    assert Seated(s) == Enrolling(jobs);
  }
}
