/** For which requests the frontend can read num_works from freed memory: for every request
    that fits, there is a schedule that lets it. */
module PoolReach {
  import opened FiniteSets
  import opened WorkDivision
  import opened PoolMachine
  import opened PoolInvariant
  import opened PoolResults
  import opened PoolProgress

  ghost predicate Reached(cfg: Config, s: Pool) {
    exists states, steps :: Run(cfg, states, steps) && states[|steps|] == s
  }

  lemma ReachedStart(cfg: Config)
    requires cfg.Valid()
    ensures Reached(cfg, Init(cfg))
  {
    assert Run(cfg, [Init(cfg)], []);
  }

  lemma ReachedNext(cfg: Config, s: Pool, step: Step, s': Pool)
    requires Reached(cfg, s) && Next(cfg, s, step, s')
    ensures Reached(cfg, s')
  {
    var states: seq<Pool>, steps: seq<Step> :| Run(cfg, states, steps) && states[|steps|] == s;
    RunExtends(cfg, states, steps, s, step, s');
  }

  lemma RunExtends(cfg: Config, states: seq<Pool>, steps: seq<Step>, s: Pool, step: Step, s': Pool)
    requires Run(cfg, states, steps) && states[|steps|] == s && Next(cfg, s, step, s')
    ensures Run(cfg, states + [s'], steps + [step])
  {
    var longer, more := states + [s'], steps + [step];
    forall k {:trigger more[k]} | 0 <= k < |more| ensures Next(cfg, longer[k], more[k], longer[k + 1]) {
      if k < |steps| {
        assert steps[k] == more[k] && longer[k] == states[k] && longer[k + 1] == states[k + 1];
      }
    }
  }

  lemma ReachedKeepsInv(cfg: Config, s: Pool)
    requires cfg.Valid() && Reached(cfg, s)
    ensures Inv(cfg, s)
  {
    var states: seq<Pool>, steps: seq<Step> :| Run(cfg, states, steps) && states[|steps|] == s;
    RunKeepsInv(cfg, states, steps, |steps|);
  }

  /** A step from a reached state. */
  lemma Go(cfg: Config, s: Pool, step: Step) returns (s': Pool)
    requires cfg.Valid() && Reached(cfg, s) && Inv(cfg, s) && Enabled(cfg, s, step) && !IsSpurious(step)
    ensures s' == Apply(cfg, s, step) && Reached(cfg, s') && Inv(cfg, s')
    ensures Lower(RankOf(cfg, s'), RankOf(cfg, s))
  {
    s' := Apply(cfg, s, step);
    ReachedNext(cfg, s, step, s');
    StepLowersRank(cfg, s, step, s');
  }

  // ---- main submits everything first

  /** k requests are queued, and no other thread has moved. */
  function Submitted(cfg: Config, k: nat): Pool {
    Init(cfg).(main := MSubmit(k), active := k, requestQueue := seq(k, i requires 0 <= i < k => i))
  }

  lemma {:induction false} SubmittedReached(cfg: Config, k: nat)
    requires cfg.Valid() && k <= |cfg.script|
    ensures Reached(cfg, Submitted(cfg, k))
  {
    if k == 0 {
      ReachedStart(cfg);
      assert Submitted(cfg, 0) == Init(cfg);
    } else {
      SubmittedReached(cfg, k - 1);
      var s := Submitted(cfg, k - 1);
      var counted := s.(main := MEnqueue(k - 1), active := k);
      ReachedNext(cfg, s, MainStep, counted);
      assert Submitted(cfg, k).requestQueue == s.requestQueue + [k - 1];
      ReachedNext(cfg, counted, MainStep, Submitted(cfg, k));
    }
  }

  // ---- Then the frontend goes to the last guard of request r

  /** Nobody but the frontend has moved since all requests were submitted. */
  predicate OnlyFrontend(cfg: Config, s: Pool) {
    && s.main == MSubmit(|cfg.script|) && !s.requestStop && !s.workStop
    && forall b :: 0 <= b < |s.backs| ==> s.backs[b].BTop?
  }

  /** The frontend has not finished with request r. */
  predicate NotBeyond(cfg: Config, s: Pool, r: nat) {
    Popped(cfg, s) <= r || (Popped(cfg, s) == r + 1 && (s.front.FOpen? || s.front.FDivide?))
  }

  predicate AtLastGuard(cfg: Config, s: Pool, r: nat)
    requires r < |cfg.script|
  {
    s.front.FDivide? && s.front.req == r && s.front.i == cfg.script[r].numWorks
  }

  lemma FrontendCanMove(cfg: Config, s: Pool, r: nat)
    requires Inv(cfg, s) && r < |cfg.script| && OnlyFrontend(cfg, s) && NotBeyond(cfg, s, r)
    ensures Enabled(cfg, s, FrontStep)
  {
  }

  lemma FrontendStays(cfg: Config, s: Pool, r: nat)
    requires Inv(cfg, s) && r < |cfg.script| && !cfg.Oversize(r) && OnlyFrontend(cfg, s) && NotBeyond(cfg, s, r)
    requires !AtLastGuard(cfg, s, r) && Enabled(cfg, s, FrontStep)
    ensures var s' := ApplyFront(cfg, s); OnlyFrontend(cfg, s') && NotBeyond(cfg, s', r)
  {
    if s.front.FDivide? {
      DivideMakesItem(cfg, s);
    }
  }

  lemma {:induction false} FrontendReachesGuard(cfg: Config, s: Pool, r: nat, rank: Rank) returns (s': Pool)
    requires cfg.Valid() && Reached(cfg, s) && Inv(cfg, s) && rank == RankOf(cfg, s)
    requires r < |cfg.script| && !cfg.Oversize(r) && OnlyFrontend(cfg, s) && NotBeyond(cfg, s, r)
    ensures Reached(cfg, s') && Inv(cfg, s') && OnlyFrontend(cfg, s') && AtLastGuard(cfg, s', r)
    decreases rank.main, rank.unpopped, rank.dividing, rank.queued, rank.running, rank.idling
  {
    s' := s;
    if !AtLastGuard(cfg, s, r) {
      FrontendCanMove(cfg, s, r);
      FrontendStays(cfg, s, r);
      var next := Go(cfg, s, FrontStep);
      s' := FrontendReachesGuard(cfg, next, r, RankOf(cfg, next));
    }
  }

  // ---- Then one backend runs all works

  /** Nobody but the first backend moves. */
  predicate OnlyFirst(cfg: Config, s: Pool) {
    && s.main == MSubmit(|cfg.script|) && !s.workStop && |s.backs| > 0
    && forall b :: 1 <= b < |s.backs| ==> s.backs[b].BTop?
  }

  /** When the first backend is asleep, every work there was has been run. */
  lemma AsleepMeansFreed(cfg: Config, s: Pool, r: nat)
    requires Inv(cfg, s) && r < |cfg.script| && OnlyFirst(cfg, s) && AtLastGuard(cfg, s, r)
    requires s.backs[0].BWaiting?
    ensures s.reqs[r].freed
  {
    var q := s.reqs[r];
    assert s.workQueue == [] && forall b :: 0 <= b < |s.backs| ==> !s.backs[b].BRun?;
    forall i | i in Below(q.created) ensures i in q.freedWorks {
      WorkInOnePlace(cfg, s, r, i);
    }
    assert q.freedWorks == Below(q.created);
    CountBelow(q.created);
  }

  lemma FirstBackendStays(cfg: Config, s: Pool, r: nat)
    requires Inv(cfg, s) && r < |cfg.script| && OnlyFirst(cfg, s) && AtLastGuard(cfg, s, r)
    requires Enabled(cfg, s, BackStep(0))
    ensures var s' := ApplyBack(cfg, s, 0); OnlyFirst(cfg, s') && AtLastGuard(cfg, s', r)
  {
  }

  lemma {:induction false} BackendFrees(cfg: Config, s: Pool, r: nat, rank: Rank) returns (s': Pool)
    requires cfg.Valid() && Reached(cfg, s) && Inv(cfg, s) && rank == RankOf(cfg, s)
    requires r < |cfg.script| && OnlyFirst(cfg, s) && AtLastGuard(cfg, s, r)
    ensures Reached(cfg, s') && Inv(cfg, s') && AtLastGuard(cfg, s', r) && s'.reqs[r].freed
    decreases rank.main, rank.unpopped, rank.dividing, rank.queued, rank.running, rank.idling
  {
    s' := s;
    if !s.reqs[r].freed {
      if s.backs[0].BWaiting? {
        AsleepMeansFreed(cfg, s, r);
      }
      FirstBackendStays(cfg, s, r);
      var next := Go(cfg, s, BackStep(0));
      s' := BackendFrees(cfg, next, r, RankOf(cfg, next));
    }
  }

  // ---- The result

  /** The frontend is at a guard of request r, which has been freed. */
  predicate ReadsFreed(s: Pool, r: nat) {
    s.front.FDivide? && s.front.req == r && r < |s.reqs| && s.reqs[r].freed
  }

  /** Some schedule makes the frontend read num_works from request r after it has been freed,
      if and only if the request asks for no more works than the matrix has cells. */
  lemma GuardReadsFreedRequest(cfg: Config, r: nat)
    requires cfg.Valid() && r < |cfg.script|
    ensures (exists s :: Reached(cfg, s) && ReadsFreed(s, r)) <==> !cfg.Oversize(r)
  {
    if !cfg.Oversize(r) {
      var n := |cfg.script|;
      SubmittedReached(cfg, n);
      var s := Submitted(cfg, n);
      ReachedKeepsInv(cfg, s);
      s := FrontendReachesGuard(cfg, s, r, RankOf(cfg, s));
      s := BackendFrees(cfg, s, r, RankOf(cfg, s));
      assert ReadsFreed(s, r);
    } else {
      forall s | Reached(cfg, s) ensures !ReadsFreed(s, r) {
        ReachedKeepsInv(cfg, s);
        if ReadsFreed(s, r) {
          FinishedRequestIsComplete(cfg, s, r, 0);
        }
      }
    }
  }

  /** One 1 x 1 request with one work is enough. */
  lemma FreedRequestIsRead()
    ensures var cfg := Config(1, 1, [Submission([[5]], [[7]], 1)]);
      cfg.Valid() && exists s :: Reached(cfg, s) && ReadsFreed(s, 0)
  {
    var cfg := Config(1, 1, [Submission([[5]], [[7]], 1)]);
    assert cfg.Total() == 1 && !cfg.Oversize(0);
    GuardReadsFreedRequest(cfg, 0);
  }
}
