/** What the pool guarantees: right products, exact counters, no access to freed memory,
    progress, and exactly when tpool_synchronize returns. */
module PoolResults {
  import opened FiniteSets
  import opened MatrixProduct
  import opened WorkDivision
  import opened PoolMachine
  import opened PoolInvariant

  /** main has come out of tpool_synchronize. */
  predicate Synchronized(s: Pool) {
    s.main.MStopRequests? || s.main.MStopWorks? || s.main.MJoin? || s.main.MDone?
  }

  // ---- Products

  lemma FinishedRequestIsComplete(cfg: Config, s: Pool, r: nat, x: nat)
    requires Inv(cfg, s) && r < |s.reqs| && s.reqs[r].freed && x < cfg.Total()
    ensures !cfg.Oversize(r)
    ensures x in s.reqs[r].c
    ensures s.reqs[r].c[x] == CellValue(cfg.script[r].a, Transpose(cfg.script[r].b, cfg.n), cfg.n, x)
  {
    var works := cfg.script[r].numWorks;
    CountBelow(s.reqs[r].created);
    SubsetSize(s.reqs[r].freedWorks, Below(s.reqs[r].created));
    DivisionIsPartition(cfg.Total(), works, x);
    var i :| 0 <= i < Created(cfg.Total(), works) && InWork(cfg.Total(), works, i, x);
    if i !in s.reqs[r].freedWorks {
      ProperSubsetSize(s.reqs[r].freedWorks, Below(s.reqs[r].created), i);
    }
  }

  /** Whatever the interleaving and the number of backends, when tpool_synchronize has
      returned every request holds the product of its matrices. */
  lemma SynchronizedProducts(cfg: Config, states: seq<Pool>, steps: seq<Step>, k: nat, r: nat, i: nat, j: nat)
    requires cfg.Valid() && Run(cfg, states, steps) && k < |states| && Synchronized(states[k])
    requires r < |cfg.script| && i < cfg.n && j < cfg.n
    ensures |states[k].reqs| == |cfg.script|
    ensures i * cfg.n + j in states[k].reqs[r].c
    ensures states[k].reqs[r].c[i * cfg.n + j]
         == ProductEntry(cfg.script[r].a, cfg.script[r].b, cfg.n, i, j, cfg.n)
  {
    var s := states[k];
    RunKeepsInv(cfg, states, steps, k);
    NothingLeft(cfg, s);
    CellIndex(cfg.n, i, j);
    FinishedRequestIsComplete(cfg, s, r, i * cfg.n + j);
    TransposedDot(cfg.script[r].a, cfg.script[r].b, cfg.n, i, j, cfg.n);
  }

  lemma NextCellIsUnset(cfg: Config, s: Pool, b: nat)
    requires Inv(cfg, s) && b < |s.backs| && s.backs[b].BRun? && s.backs[b].idx <= s.backs[b].work.end
    ensures s.backs[b].idx !in s.reqs[s.backs[b].work.req].c
  {
    LiveRange(cfg, s, s.backs[b].work);
  }

  /** now has every cell of was, with the same value. */
  predicate KeepsCells(was: map<nat, int>, now: map<nat, int>) {
    forall x :: x in was ==> x in now && now[x] == was[x]
  }

  lemma BackKeepsStoredCells(cfg: Config, s: Pool, b: nat, r: nat)
    requires Inv(cfg, s) && Enabled(cfg, s, BackStep(b)) && r < |s.reqs|
    ensures r < |ApplyBack(cfg, s, b).reqs| && KeepsCells(s.reqs[r].c, ApplyBack(cfg, s, b).reqs[r].c)
  {
    if s.backs[b].BRun? {
      if s.backs[b].idx > s.backs[b].work.end {
        FinishFreesWork(cfg, s, b);
      } else {
        NextCellIsUnset(cfg, s, b);
      }
    }
  }

  lemma FrontKeepsStoredCells(cfg: Config, s: Pool, r: nat)
    requires Shaped(cfg, s) && Enabled(cfg, s, FrontStep) && r < |s.reqs|
    ensures r < |ApplyFront(cfg, s).reqs| && ApplyFront(cfg, s).reqs[r].c == s.reqs[r].c
  {
  }

  /** A cell is stored at most once: the cell a backend is about to store is still unset,
      and no step of any thread unsets or changes a stored cell. */
  lemma CellsAreStoredOnce(cfg: Config, s: Pool, step: Step, r: nat)
    requires Inv(cfg, s) && Enabled(cfg, s, step) && r < |s.reqs|
    ensures step.BackStep? && s.backs[step.b].BRun? && s.backs[step.b].idx <= s.backs[step.b].work.end ==>
      s.backs[step.b].idx !in s.reqs[s.backs[step.b].work.req].c
    ensures r < |Apply(cfg, s, step).reqs| && KeepsCells(s.reqs[r].c, Apply(cfg, s, step).reqs[r].c)
  {
    if step.BackStep? {
      BackKeepsStoredCells(cfg, s, step.b, r);
      if s.backs[step.b].BRun? && s.backs[step.b].idx <= s.backs[step.b].work.end {
        NextCellIsUnset(cfg, s, step.b);
      }
    } else if step.FrontStep? {
      FrontKeepsStoredCells(cfg, s, r);
    }
  }

  // ---- Counters

  function QueuedItems(cfg: Config, s: Pool, r: nat): set<nat>
    requires Sized(cfg, s) && r < |s.reqs|
  {
    set i | i in Below(s.reqs[r].created) && WorkOf(cfg, r, i) in s.workQueue
  }

  ghost function RunningItems(cfg: Config, s: Pool, r: nat): set<nat>
    requires Sized(cfg, s) && r < |s.reqs|
  {
    set i | i in Below(s.reqs[r].created) && Running(s, WorkOf(cfg, r, i))
  }

  /** remaining_works counts the works of the request that are not created yet, queued,
      or being run, and each work is in exactly one of these places or freed. */
  lemma RemainingWorksAccount(cfg: Config, s: Pool, r: nat)
    requires Inv(cfg, s) && r < |s.reqs| && s.reqs[r].ready
    ensures s.reqs[r].remaining
         == (cfg.script[r].numWorks - s.reqs[r].created) + |QueuedItems(cfg, s, r)| + |RunningItems(cfg, s, r)|
  {
    var q, u, f := QueuedItems(cfg, s, r), RunningItems(cfg, s, r), s.reqs[r].freedWorks;
    forall i | i in Below(s.reqs[r].created)
      ensures i in q + u + f
      ensures !(i in q && i in u) && !(i in f && (i in q || i in u)) {
      WorkInOnePlace(cfg, s, r, i);
    }
    SizeOfParts(Below(s.reqs[r].created), q, u, f);
    CountBelow(s.reqs[r].created);
  }

  lemma WorkInOnePlace(cfg: Config, s: Pool, r: nat, i: nat)
    requires Inv(cfg, s) && r < |s.reqs| && i < s.reqs[r].created
    ensures i in s.reqs[r].freedWorks || WorkOf(cfg, r, i) in s.workQueue || Running(s, WorkOf(cfg, r, i))
    ensures !(WorkOf(cfg, r, i) in s.workQueue && Running(s, WorkOf(cfg, r, i)))
    ensures WorkOf(cfg, r, i) in s.workQueue || Running(s, WorkOf(cfg, r, i)) ==> i !in s.reqs[r].freedWorks
  {
    var w := WorkOf(cfg, r, i);
    if w in s.workQueue {
      var j :| 0 <= j < |s.workQueue| && s.workQueue[j] == w;
      assert Live(cfg, s, s.workQueue[j]) && !Running(s, s.workQueue[j]);
    }
  }

  /** active_requests is the number of submitted requests not yet fully executed; once
      all are submitted and it is 0, both queues are empty and no backend runs a work. */
  lemma ActiveRequestsAccount(cfg: Config, s: Pool)
    requires Inv(cfg, s)
    ensures s.active == |Unfinished(cfg, s)|
    ensures s.active == 0 && !s.main.MSubmit? && !s.main.MEnqueue? ==>
      s.requestQueue == [] && s.workQueue == [] && forall b :: 0 <= b < |s.backs| ==> !s.backs[b].BRun?
  {
    if s.active == 0 && !s.main.MSubmit? && !s.main.MEnqueue? {
      NothingLeft(cfg, s);
    }
  }

  // ---- Freed memory (see also PoolInvariant.WorksKeepTheirRequest)

  /** The frontend's loop guard reads num_works from a request that may be gone: it is then at
      the last guard, and all works have run. PoolReach says for which requests this happens. */
  lemma FreedAtLastGuard(cfg: Config, s: Pool)
    requires Inv(cfg, s) && s.front.FDivide?
    ensures s.reqs[s.front.req].freed <==>
      s.front.i == cfg.script[s.front.req].numWorks
      && s.reqs[s.front.req].freedWorks == Below(cfg.script[s.front.req].numWorks)
  {
    var q, works := s.reqs[s.front.req], cfg.script[s.front.req].numWorks;
    CountBelow(q.created);
    SubsetSize(q.freedWorks, Below(q.created));
    if q.freed {
      forall i | i in Below(works) ensures i in q.freedWorks {
        if i !in q.freedWorks {
          ProperSubsetSize(q.freedWorks, Below(q.created), i);
        }
      }
      assert q.freedWorks == Below(works);
    } else if s.front.i == works {
      CountBelow(works);
    }
  }

  // ---- Quiescence

  predicate IsSpurious(step: Step) {
    step.SpuriousMain? || step.SpuriousFront? || step.SpuriousBack?
  }

  /** Nothing but a spurious wakeup can happen. */
  ghost predicate Quiescent(cfg: Config, s: Pool)
    requires Shaped(cfg, s)
  {
    forall step :: Enabled(cfg, s, step) ==> IsSpurious(step)
  }

  ghost predicate SomeOversize(cfg: Config) {
    exists r :: 0 <= r < |cfg.script| && cfg.Oversize(r)
  }

  lemma QuiescentThreads(cfg: Config, s: Pool)
    requires Inv(cfg, s) && Quiescent(cfg, s)
    ensures forall b :: 0 <= b < |s.backs| ==> s.backs[b].BWaiting? || s.backs[b].BExited?
    ensures s.front.FWaiting? || s.front.FExited?
    ensures s.main.MWaiting? || s.main.MDone?
  {
    forall b | 0 <= b < |s.backs| ensures s.backs[b].BWaiting? || s.backs[b].BExited? {
      assert !Enabled(cfg, s, BackStep(b));
    }
    assert !Enabled(cfg, s, FrontStep);
    assert !Enabled(cfg, s, MainStep);
  }

  /** With every thread asleep, a request is unfinished exactly when it is oversize. */
  lemma AsleepRequests(cfg: Config, s: Pool, r: nat)
    requires Inv(cfg, s) && r < |s.reqs| && s.reqs[r].ready && !s.front.FDivide?
    requires s.workQueue == [] && forall b :: 0 <= b < |s.backs| ==> !s.backs[b].BRun?
    ensures s.reqs[r].freed <==> !cfg.Oversize(r)
    ensures s.reqs[r].freedWorks == Below(cfg.Items(r))
  {
    var q := s.reqs[r];
    forall i | i in Below(q.created) ensures i in q.freedWorks {
      WorkInOnePlace(cfg, s, r, i);
    }
    assert q.freedWorks == Below(q.created);
    CountBelow(q.created);
  }

  /** When nothing can move, the program has ended if no request asked for more works
      than cells; otherwise main sleeps in tpool_synchronize for ever, although every
      cell of every request has been computed. */
  lemma QuiescentOutcome(cfg: Config, s: Pool)
    requires Inv(cfg, s) && Quiescent(cfg, s)
    ensures s.main.MDone? <==> !SomeOversize(cfg)
    ensures s.main.MDone? ==> s.front.FExited? && forall b :: 0 <= b < |s.backs| ==> s.backs[b].BExited?
    ensures SomeOversize(cfg) ==> s.main.MWaiting? && s.front.FWaiting?
    ensures SomeOversize(cfg) ==> forall b :: 0 <= b < |s.backs| ==> s.backs[b].BWaiting?
    ensures SomeOversize(cfg) ==> forall r :: r in Unfinished(cfg, s) <==> 0 <= r < |s.reqs| && cfg.Oversize(r)
  {
    QuiescentThreads(cfg, s);
    if s.main.MDone? {
      NothingLeft(cfg, s);
      forall r | 0 <= r < |cfg.script| ensures !cfg.Oversize(r) {
        FinishedRequestIsComplete(cfg, s, r, 0);
      }
    } else {
      assert !s.workStop && !s.requestStop;
      assert forall b :: 0 <= b < |s.backs| ==> s.backs[b].BWaiting?;
      assert s.workQueue == [] by { assert cfg.threads > 0 && s.backs[0].BWaiting?; }
      forall r: nat ensures r in Unfinished(cfg, s) <==> r < |s.reqs| && cfg.Oversize(r) {
        if r < |s.reqs| {
          AsleepRequests(cfg, s, r);
        }
      }
      assert Unfinished(cfg, s) != {};
      var r :| r in Unfinished(cfg, s);
      assert cfg.Oversize(r);
    }
  }

  /** tpool_synchronize returns only if no request is oversize. */
  lemma SynchronizedNeedsFit(cfg: Config, states: seq<Pool>, steps: seq<Step>, k: nat)
    requires cfg.Valid() && Run(cfg, states, steps) && k < |states| && Synchronized(states[k])
    ensures !SomeOversize(cfg)
  {
    RunKeepsInv(cfg, states, steps, k);
    NothingLeft(cfg, states[k]);
    forall r | 0 <= r < |cfg.script| ensures !cfg.Oversize(r) {
      FinishedRequestIsComplete(cfg, states[k], r, 0);
    }
  }

  /** A run that has come to rest has returned from tpool_synchronize and joined every
      thread exactly when no request asked for more works than the matrix has cells. */
  lemma RestingRunOutcome(cfg: Config, states: seq<Pool>, steps: seq<Step>)
    requires cfg.Valid() && Run(cfg, states, steps)
    requires Shaped(cfg, states[|steps|]) && Quiescent(cfg, states[|steps|])
    ensures states[|steps|].main.MDone? <==> !SomeOversize(cfg)
    ensures (exists k :: 0 <= k < |states| && Synchronized(states[k])) <==> !SomeOversize(cfg)
  {
    RunKeepsInv(cfg, states, steps, |steps|);
    QuiescentOutcome(cfg, states[|steps|]);
    if !SomeOversize(cfg) {
      assert Synchronized(states[|steps|]);
    } else {
      forall k | 0 <= k < |states| ensures !Synchronized(states[k]) {
        if Synchronized(states[k]) {
          SynchronizedNeedsFit(cfg, states, steps, k);
        }
      }
    }
  }

  // ---- An input on which the code departs from its intent

  /** One 1 x 1 request that asks for two works: main.c accepts it, and no run ever
      comes out of tpool_synchronize. */
  lemma OversizeNeverReturns(states: seq<Pool>, steps: seq<Step>, k: nat)
    requires Run(Config(1, 1, [Submission([[5]], [[7]], 2)]), states, steps) && k < |states|
    ensures Config(1, 1, [Submission([[5]], [[7]], 2)]).Valid()
    ensures !Synchronized(states[k])
  {
    var cfg := Config(1, 1, [Submission([[5]], [[7]], 2)]);
    assert cfg.Oversize(0);
    if Synchronized(states[k]) {
      SynchronizedNeedsFit(cfg, states, steps, k);
    }
  }
}
