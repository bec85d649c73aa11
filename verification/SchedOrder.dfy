/** When threads get their turn: the order of the ready queue and the length of a sleep. */
module SchedOrder {
  import opened SchedMachine
  import opened SchedInvariant
  import opened SchedRuns

  // ---- The ready queue is served in order

  /** Whether the step ends in a pass of the scheduler. */
  predicate Passes(s: Sys, step: Step)
    requires Shaped(s) && Enabled(s, step)
  {
    step.Signal? || !Exec(s).1.First?
  }

  /** now is what was there before, with arrivals behind it. */
  ghost predicate Extends(now: seq<nat>, was: seq<nat>) {
    |was| <= |now| && now[..|was|] == was
  }

  lemma ExecReady(s: Sys)
    requires Shaped(s) && s.current.Running?
    ensures Extends(Exec(s).0.ready, s.ready)
  {
  }

  lemma PassReady(s: Sys, cause: Cause, was: seq<nat>)
    requires Shaped(s) && Extends(s.ready, was) && was != []
    ensures var s' := Pass(s, cause); s'.current == Running(was[0]) && Extends(s'.ready, was[1..])
  {
    var k := MovedData(s);
    var m := Moved(s);
    var h := HandlePrevious(m, cause);
    assert m.ready[..|s.ready|] == s.ready;
    assert h.ready[..|m.ready|] == m.ready;
    assert h.ready[..|was|] == was;
    assert h.ready[1..][..|was| - 1] == was[1..];
  }

  /** A pass dispatches the head of a nonempty ready queue; nothing else takes a thread from
      it, and nobody is ever put before those already there. */
  lemma StepServesQueue(s: Sys, step: Step, s': Sys)
    requires Next(s, step, s') && s.ready != []
    ensures if Passes(s, step) then s'.current == Running(s.ready[0]) && Extends(s'.ready, s.ready[1..])
            else Extends(s'.ready, s.ready)
  {
    if step.Go? {
      ExecReady(s);
      if Passes(s, step) {
        PassReady(Exec(s).0, Exec(s).1, s.ready);
      }
    } else {
      PassReady(Tick(s), BySignal, s.ready);
    }
  }

  ghost function PassAt(states: seq<Sys>, steps: seq<Step>, k: nat): nat
    requires Steps(states, steps) && k < |steps|
  {
    assert StepAt(states, steps, k);
    One(Passes(states[k], steps[k]))
  }

  /** The number of passes from state a to state b. */
  ghost function PassCount(states: seq<Sys>, steps: seq<Step>, a: nat, b: nat): nat
    requires Steps(states, steps) && a <= b <= |steps|
    decreases b
  {
    if a == b then 0 else PassCount(states, steps, a, b - 1) + PassAt(states, steps, b - 1)
  }

  ghost predicate At(s: Sys, j: int, t: nat) {
    0 <= j < |s.ready| && s.ready[j] == t
  }

  lemma StepMovesUp(s: Sys, step: Step, s': Sys, j: nat, t: nat)
    requires Next(s, step, s') && At(s, j, t)
    ensures if !Passes(s, step) then At(s', j, t)
            else if j == 0 then s'.current == Running(t)
            else At(s', j - 1, t)
  {
    StepServesQueue(s, step, s');
    if Passes(s, step) && j > 0 {
      assert s'.ready[..|s.ready| - 1][j - 1] == s.ready[1..][j - 1];
    } else if !Passes(s, step) {
      assert s'.ready[..|s.ready|][j] == s.ready[j];
    }
  }

  lemma MovesUpAt(states: seq<Sys>, steps: seq<Step>, k: nat, j: nat, t: nat)
    requires Steps(states, steps) && k < |steps| && At(states[k], j, t)
    ensures PassAt(states, steps, k) <= 1
    ensures if PassAt(states, steps, k) == 0 then At(states[k + 1], j, t)
            else if j == 0 then states[k + 1].current == Running(t)
            else At(states[k + 1], j - 1, t)
  {
    assert StepAt(states, steps, k);
    StepMovesUp(states[k], steps[k], states[k + 1], j, t);
  }

  /** After d passes the thread at position j of the ready queue is at position j - d. */
  lemma {:induction false} QueuePosition(states: seq<Sys>, steps: seq<Step>, a: nat, b: nat, j: nat, t: nat)
    requires Steps(states, steps) && a <= b <= |steps| && At(states[a], j, t)
    requires PassCount(states, steps, a, b) <= j
    ensures At(states[b], j - PassCount(states, steps, a, b), t)
    decreases b
  {
    if a < b {
      QueuePosition(states, steps, a, b - 1, j, t);
      MovesUpAt(states, steps, b - 1, j - PassCount(states, steps, a, b - 1), t);
    }
  }

  /** The thread at position j of the ready queue is dispatched by the pass number j + 1,
      whatever the threads and signals do in between. */
  lemma TakenInTurn(states: seq<Sys>, steps: seq<Step>, a: nat, b: nat, j: nat, t: nat)
    requires Steps(states, steps) && a < b <= |steps| && At(states[a], j, t)
    requires PassCount(states, steps, a, b - 1) == j && PassCount(states, steps, a, b) == j + 1
    ensures states[b].current == Running(t)
  {
    QueuePosition(states, steps, a, b - 1, j, t);
    MovesUpAt(states, steps, b - 1, 0, t);
  }

  /** A thread that goes on without a switch has reached a yield: a signal can preempt it there. */
  lemma GoesOnAtYield(s: Sys, s': Sys)
    requires Inv(s) && Next(s, Go, s') && !Passes(s, Go)
    ensures s'.current == s.current && Shaped(s') && Enabled(s', Signal)
  {
    ExecStops(s);
  }

  // ---- The first turns

  lemma NobodySleepsAtFirst(s: Sys)
    requires Shaped(s) && s.asleep == {} && s.waiting == []
    ensures Moved(s).ready == s.ready
  {
    var k := MovedData(s);
    var marks := seq(|s.tcbs|, t requires 0 <= t => IsDue(s, t));
    NothingMarked(marks, 0);
    assert s.waiting[..k] == [] && s.ready + [] + [] == s.ready;
  }

  lemma {:induction false} NothingMarked(marks: seq<bool>, k: nat)
    requires forall j :: 0 <= j < |marks| ==> !marks[j]
    ensures Marked(marks, k) == []
    decreases |marks| - k
  {
    if k < |marks| {
      NothingMarked(marks, k + 1);
    }
  }

  /** The thread that was spawned first runs first; the others are ready in order behind it. */
  lemma FirstRuns(states: seq<Sys>, steps: seq<Step>, slice: int, qP: int, qS: int, jobs: seq<Job>)
    requires 0 < |jobs| < THREAD_MAX && Run(states, steps, Spawned(slice, qP, qS, jobs))
    ensures states[0].current == Running(0) && |states[0].ready| == |jobs| - 1
    ensures forall j :: 0 <= j < |jobs| - 1 ==> states[0].ready[j] == j + 1
  {
    NobodySleepsAtFirst(Spawned(slice, qP, qS, jobs));
  }

  /** Thread t gets its first turn in the pass number t behind the first one, whatever the
      threads before it and the signals do. */
  lemma FirstTurns(states: seq<Sys>, steps: seq<Step>, slice: int, qP: int, qS: int, jobs: seq<Job>, b: nat, t: nat)
    requires |jobs| < THREAD_MAX && Run(states, steps, Spawned(slice, qP, qS, jobs)) && 0 < b <= |steps| && 0 < t < |jobs|
    requires PassCount(states, steps, 0, b - 1) == t - 1 && PassCount(states, steps, 0, b) == t
    ensures states[b].current == Running(t)
  {
    FirstRuns(states, steps, slice, qP, qS, jobs);
    TakenInTurn(states, steps, 0, b, t - 1, t);
  }

  // ---- The length of a sleep

  /** The step is that of a thread which awakens thread u. */
  predicate Awakens(s: Sys, step: Step, u: nat)
    requires Shaped(s)
  {
    && step.Go? && s.current.Running? && s.tcbs[s.current.t].job.Enroll?
    && s.tcbs[s.current.t].pc.AfterSleep? && s.tcbs[s.current.t].job.b == u + 1
  }

  /** Thread u has gone to sleep, and signals have taken so much off its time since then. */
  ghost predicate Slept(s: Sys, u: nat, time: int, used: nat) {
    && u < |s.tcbs| && !s.tcbs[u].pc.Begin?
    && (u in s.asleep <==> time < 0 || used < time)
    && (u in s.asleep ==> s.tcbs[u].sleepingTime == if time < 0 then time else time - used)
  }

  predicate AwakensAt(states: seq<Sys>, steps: seq<Step>, k: nat, u: nat)
    requires k < |steps| && k < |states|
  {
    Shaped(states[k]) && Awakens(states[k], steps[k], u)
  }

  lemma AwakeSleepers(s: Sys, t: nat, u: nat)
    requires Inv(s) && s.current == Running(t) && s.tcbs[t].job.Enroll? && s.tcbs[t].pc.AfterSleep?
    requires u < |s.tcbs| && !s.tcbs[u].pc.Begin?
    ensures var e := EnrollOn(s, t).0;
      && |e.tcbs| == |s.tcbs| && e.slice == s.slice && !e.tcbs[u].pc.Begin?
      && (u in e.asleep <==> u in s.asleep && s.tcbs[t].job.b != u + 1)
      && (u in e.asleep ==> e.tcbs[u].sleepingTime == s.tcbs[u].sleepingTime)
  {
    CurrentIsNowhereElse(s, t);
  }

  lemma ExecSleepers(s: Sys, u: nat)
    requires Inv(s) && Enabled(s, Go) && u < |s.tcbs| && !s.tcbs[u].pc.Begin?
    ensures var e := Exec(s).0;
      && |e.tcbs| == |s.tcbs| && e.slice == s.slice && !e.tcbs[u].pc.Begin?
      && (u in e.asleep <==> u in s.asleep && !Awakens(s, Go, u))
      && (u in e.asleep ==> e.tcbs[u].sleepingTime == s.tcbs[u].sleepingTime)
  {
    var t := s.current.t;
    if s.tcbs[t].job.Enroll? && s.tcbs[t].pc.AfterSleep? {
      AwakeSleepers(s, t, u);
    } else {
      CurrentIsNowhereElse(s, t);
    }
  }

  /** Unless it is awakened, a sleeper goes on sleeping for as long as signals leave it time. */
  lemma StepKeepsSlept(s: Sys, step: Step, s': Sys, u: nat, time: int, used: nat)
    requires Inv(s) && Next(s, step, s') && Slept(s, u, time, used) && !Awakens(s, step, u) && s.slice > 0
    ensures Slept(s', u, time, used + if step.Signal? then s.slice else 0) && s'.slice == s.slice
  {
    if step.Go? {
      ExecSleepers(s, u);
      if !Exec(s).1.First? {
        PassKeepsData(Exec(s).0, Exec(s).1);
      }
    } else {
      PassKeepsData(Tick(s), BySignal);
    }
  }

  /** thread_sleep of enroll; a time of 0 is over within the same pass. */
  lemma FallsAsleep(s: Sys, s': Sys, u: nat)
    requires Inv(s) && Next(s, Go, s') && s.current == Running(u)
    requires s.tcbs[u].job.Enroll? && s.tcbs[u].pc.Begin?
    ensures Slept(s', u, s.tcbs[u].job.s, 0)
  {
    PassKeepsData(Exec(s).0, BySleep);
  }

  ghost function SignalCount(steps: seq<Step>, a: nat, b: nat): nat
    requires a <= b <= |steps|
    decreases b
  {
    if a == b then 0 else SignalCount(steps, a, b - 1) + One(steps[b - 1].Signal?)
  }

  /** Step k is the thread_sleep of enroll in thread u. */
  ghost predicate GoesToSleep(states: seq<Sys>, steps: seq<Step>, k: nat, u: nat, time: int)
    requires k < |steps| && |states| == |steps| + 1
  {
    && steps[k].Go? && states[k].current == Running(u) && u < |states[k].tcbs|
    && states[k].tcbs[u].job.Enroll? && states[k].tcbs[u].pc.Begin? && states[k].tcbs[u].job.s == time
  }

  /** A thread goes to sleep in step a - 1 and nobody awakens it up to state b. Then at b it is
      asleep exactly if the signals since a have not used up its time; with a negative time it
      sleeps on for ever. */
  lemma {:induction false} SleepsExactly(states: seq<Sys>, steps: seq<Step>, a: nat, b: nat, u: nat, time: int, slice: nat)
    requires Steps(states, steps) && Inv(states[0]) && 0 < a <= b <= |steps| && states[0].slice == slice > 0
    requires GoesToSleep(states, steps, a - 1, u, time)
    requires forall k: nat :: a <= k < b ==> !AwakensAt(states, steps, k, u)
    ensures Slept(states[b], u, time, SignalCount(steps, a, b) * slice)
    decreases b
  {
    if a == b {
      SleepBegins(states, steps, a - 1, u, time);
    } else {
      var m := SignalCount(steps, a, b - 1);
      SleepsExactly(states, steps, a, b - 1, u, time, slice);
      SleepsOn(states, steps, b - 1, u, time, m * slice, slice);
      assert (m + 1) * slice == m * slice + slice;
    }
  }

  lemma SleepBegins(states: seq<Sys>, steps: seq<Step>, k: nat, u: nat, time: int)
    requires Steps(states, steps) && Inv(states[0]) && k < |steps| && GoesToSleep(states, steps, k, u, time)
    ensures Slept(states[k + 1], u, time, 0)
  {
    StepsKeepInv(states, steps, k);
    assert StepAt(states, steps, k);
    FallsAsleep(states[k], states[k + 1], u);
  }

  lemma SleepsOn(states: seq<Sys>, steps: seq<Step>, k: nat, u: nat, time: int, used: nat, slice: nat)
    requires Steps(states, steps) && Inv(states[0]) && k < |steps| && states[0].slice == slice > 0
    requires Slept(states[k], u, time, used) && !AwakensAt(states, steps, k, u)
    ensures Slept(states[k + 1], u, time, used + if steps[k].Signal? then slice else 0)
  {
    StepsKeepInv(states, steps, k);
    assert StepAt(states, steps, k);
    StepKeepsSlept(states[k], steps[k], states[k + 1], u, time, used);
  }

  lemma {:induction false} StepsKeepInv(states: seq<Sys>, steps: seq<Step>, k: nat)
    requires Steps(states, steps) && Inv(states[0]) && k < |states|
    ensures Inv(states[k]) && states[k].slice == states[0].slice
  {
    if k > 0 {
      StepsKeepInv(states, steps, k - 1);
      InvKeptAt(states, steps, k - 1);
    }
  }

  lemma InvKeptAt(states: seq<Sys>, steps: seq<Step>, k: nat)
    requires Steps(states, steps) && k < |steps| && Inv(states[k])
    ensures Inv(states[k + 1]) && states[k + 1].slice == states[k].slice
  {
    assert StepAt(states, steps, k);
    StepKeepsInv(states[k], steps[k]);
    StepKeepsSlice(states[k], steps[k], states[k + 1]);
  }

  lemma StepKeepsSlice(s: Sys, step: Step, s': Sys)
    requires Next(s, step, s')
    ensures s'.slice == s.slice
  {
    if step.Go? {
      if !Exec(s).1.First? {
        PassKeepsData(Exec(s).0, Exec(s).1);
      }
    } else {
      PassKeepsData(Tick(s), BySignal);
    }
  }

  lemma LastSignal(time: nat, slice: nat, m: nat)
    requires slice > 0
    ensures m * slice < time <==> m < (time + slice - 1) / slice
  {
    var c := (time + slice - 1) / slice;
    assert time + slice - 1 == c * slice + (time + slice - 1) % slice;
    if m < c {
      assert m * slice <= (c - 1) * slice;
    } else {
      assert m * slice >= c * slice;
    }
  }

  /** A thread that goes to sleep for a time that is not negative, and that nobody awakens, is
      asleep exactly until signal number ceil(time / slice); from then on it is ready or running
      until it goes on. */
  lemma WakesOnTime(states: seq<Sys>, steps: seq<Step>, a: nat, b: nat, u: nat, time: nat, slice: nat)
    requires Steps(states, steps) && Inv(states[0]) && 0 < a <= b <= |steps| && states[0].slice == slice > 0
    requires GoesToSleep(states, steps, a - 1, u, time)
    requires forall k: nat :: a <= k < b ==> !AwakensAt(states, steps, k, u)
    ensures u < |states[b].tcbs|
    ensures u in states[b].asleep <==> SignalCount(steps, a, b) < (time + slice - 1) / slice
    ensures u !in states[b].asleep && states[b].tcbs[u].pc.AfterSleep? ==>
      u in states[b].ready || states[b].current == Running(u)
  {
    SleepsExactly(states, steps, a, b, u, time, slice);
    LastSignal(time, slice, SignalCount(steps, a, b));
    StepsKeepInv(states, steps, b);
    if u !in states[b].asleep && states[b].tcbs[u].pc.AfterSleep? {
      AwakeIsReady(states[b], u);
    }
  }

  /** A thread that has left the sleeping set is ready or running until it goes on. */
  lemma AwakeIsReady(s: Sys, u: nat)
    requires Inv(s) && u < |s.tcbs| && s.tcbs[u].pc.AfterSleep? && u !in s.asleep
    ensures u in s.ready || s.current == Running(u)
  {
    assert Places(s, true, u) == 1;
    forall k | 0 <= k < |s.waiting| ensures s.waiting[k] != u {
      assert Waits(s.tcbs[s.waiting[k]]);
    }
    assert multiset(s.waiting)[u] > 0 ==> u in s.waiting;
    assert multiset(s.ready)[u] > 0 ==> u in s.ready;
  }
}
