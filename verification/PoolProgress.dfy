/** No run of the pool goes on for ever: apart from spurious wakeups every step lowers a
    rank, so the program ends or falls asleep as PoolResults.QuiescentOutcome says. */
module PoolProgress {
  import opened PoolMachine
  import opened PoolInvariant
  import opened PoolResults

  /** Compared left to right; a step may raise what stands to the right of what it lowers. */
  datatype Rank = Rank(main: nat, unpopped: nat, dividing: nat, queued: nat, running: nat, idling: nat)

  predicate Lower(a: Rank, b: Rank) {
    || a.main < b.main
    || (a.main == b.main && (
         || a.unpopped < b.unpopped
         || (a.unpopped == b.unpopped && (
              || a.dividing < b.dividing
              || (a.dividing == b.dividing && (
                   || a.queued < b.queued
                   || (a.queued == b.queued && (
                        || a.running < b.running
                        || (a.running == b.running && a.idling < b.idling)))))))))
  }

  function MainLeft(cfg: Config, s: Pool): nat
    requires Shaped(cfg, s)
  {
    match s.main
    case MSubmit(k) => 2 * (|cfg.script| - k) + 5
    case MEnqueue(k) => 2 * (|cfg.script| - k) + 4
    case MSync => 4
    case MWaiting => 4
    case MStopRequests => 3
    case MStopWorks => 2
    case MJoin => 1
    case MDone => 0
  }

  function DividingLeft(cfg: Config, s: Pool): nat
    requires Shaped(cfg, s)
    requires s.front.FDivide? ==> s.front.i <= cfg.script[s.front.req].numWorks
  {
    match s.front
    case FOpen(r) => cfg.script[r].numWorks + 2
    case FDivide(r, i, _) => cfg.script[r].numWorks - i + 1
    case _ => 0
  }

  function RunWeight(b: Backend): nat {
    if b.BRun? && b.idx <= b.work.end then b.work.end + 2 - b.idx else if b.BRun? then 1 else 0
  }

  function RunSum(backs: seq<Backend>): nat {
    if backs == [] then 0 else RunSum(backs[..|backs| - 1]) + RunWeight(backs[|backs| - 1])
  }

  /** After the stop a backend passes the loop head once more; before it, it goes to sleep. */
  function IdleWeight(stop: bool, b: Backend): nat {
    if b.BTop? then 2 else if b.BDequeue? then (if stop then 3 else 1) else 0
  }

  function IdleSum(stop: bool, backs: seq<Backend>): nat {
    if backs == [] then 0 else IdleSum(stop, backs[..|backs| - 1]) + IdleWeight(stop, backs[|backs| - 1])
  }

  function FrontIdle(s: Pool): nat {
    if s.front.FTop? then 2 else if s.front.FDequeue? then (if s.requestStop then 3 else 1) else 0
  }

  ghost function RankOf(cfg: Config, s: Pool): Rank
    requires Inv(cfg, s)
  {
    Rank(MainLeft(cfg, s), |cfg.script| - Popped(cfg, s), DividingLeft(cfg, s), |s.workQueue|,
         RunSum(s.backs), IdleSum(s.workStop, s.backs) + FrontIdle(s) + (if s.main.MSync? then 1 else 0))
  }

  lemma {:induction false} RunSumUpdate(backs: seq<Backend>, b: nat, x: Backend)
    requires b < |backs|
    ensures RunSum(backs[b := x]) == RunSum(backs) - RunWeight(backs[b]) + RunWeight(x)
  {
    var last := |backs| - 1;
    if b < last {
      RunSumUpdate(backs[..last], b, x);
      assert backs[b := x][..last] == backs[..last][b := x];
    } else {
      assert backs[b := x][..last] == backs[..last];
    }
  }

  lemma {:induction false} IdleSumUpdate(stop: bool, backs: seq<Backend>, b: nat, x: Backend)
    requires b < |backs|
    ensures IdleSum(stop, backs[b := x]) == IdleSum(stop, backs) - IdleWeight(stop, backs[b]) + IdleWeight(stop, x)
  {
    var last := |backs| - 1;
    if b < last {
      IdleSumUpdate(stop, backs[..last], b, x);
      assert backs[b := x][..last] == backs[..last][b := x];
    } else {
      assert backs[b := x][..last] == backs[..last];
    }
  }

  lemma {:induction false} SameRunsSameSum(xs: seq<Backend>, ys: seq<Backend>)
    requires SameRuns(xs, ys)
    ensures RunSum(xs) == RunSum(ys)
  {
    if xs != [] {
      SameRunsSameSum(xs[..|xs| - 1], ys[..|ys| - 1]);
    }
  }

  lemma MainMovesOn(cfg: Config, s: Pool)
    requires Shaped(cfg, s) && Enabled(cfg, s, MainStep) && Shaped(cfg, ApplyMain(cfg, s))
    ensures MainLeft(cfg, ApplyMain(cfg, s)) < MainLeft(cfg, s)
      || (s.main.MSync? && ApplyMain(cfg, s) == s.(main := MWaiting))
  {
  }

  lemma MainLowersRank(cfg: Config, s: Pool)
    requires Inv(cfg, s) && Enabled(cfg, s, MainStep) && Inv(cfg, ApplyMain(cfg, s))
    ensures Lower(RankOf(cfg, ApplyMain(cfg, s)), RankOf(cfg, s))
  {
    MainMovesOn(cfg, s);
    FrontRank(cfg, s, ApplyMain(cfg, s));
  }

  lemma FrontMovesOn(cfg: Config, s: Pool)
    requires Shaped(cfg, s) && InvFront(cfg, s) && Enabled(cfg, s, FrontStep)
    requires Shaped(cfg, ApplyFront(cfg, s)) && InvFront(cfg, ApplyFront(cfg, s))
    requires s.requestStop ==> s.requestQueue == []
    ensures var s' := ApplyFront(cfg, s);
      && s'.main == s.main && s'.requestStop == s.requestStop && s'.workStop == s.workStop
      && Popped(cfg, s') >= Popped(cfg, s)
      && (|| Popped(cfg, s') > Popped(cfg, s)
          || DividingLeft(cfg, s') < DividingLeft(cfg, s)
          || (&& s'.backs == s.backs && s'.workQueue == s.workQueue
              && DividingLeft(cfg, s') == DividingLeft(cfg, s) && FrontIdle(s') < FrontIdle(s)))
  {
  }

  lemma FrontRank(cfg: Config, s: Pool, s': Pool)
    requires Inv(cfg, s) && Inv(cfg, s')
    requires || MainLeft(cfg, s') < MainLeft(cfg, s)
             || (s.main.MSync? && s' == s.(main := MWaiting))
             || (&& s'.main == s.main && s'.requestStop == s.requestStop && s'.workStop == s.workStop
                 && Popped(cfg, s') >= Popped(cfg, s)
                 && (|| Popped(cfg, s') > Popped(cfg, s)
                     || DividingLeft(cfg, s') < DividingLeft(cfg, s)
                     || (&& s'.backs == s.backs && s'.workQueue == s.workQueue
                         && DividingLeft(cfg, s') == DividingLeft(cfg, s) && FrontIdle(s') < FrontIdle(s))))
    ensures Lower(RankOf(cfg, s'), RankOf(cfg, s))
  {
  }

  lemma FrontLowersRank(cfg: Config, s: Pool)
    requires Inv(cfg, s) && Enabled(cfg, s, FrontStep) && Inv(cfg, ApplyFront(cfg, s))
    ensures Lower(RankOf(cfg, ApplyFront(cfg, s)), RankOf(cfg, s))
  {
    if s.requestStop {
      NothingLeft(cfg, s);
    }
    FrontMovesOn(cfg, s);
    FrontRank(cfg, s, ApplyFront(cfg, s));
  }

  /** The components of the rank that a backend step leaves alone. */
  lemma BackKeepsOuterRank(cfg: Config, s: Pool, b: nat)
    requires Shaped(cfg, s) && Enabled(cfg, s, BackStep(b)) && Shaped(cfg, ApplyBack(cfg, s, b))
    ensures var s' := ApplyBack(cfg, s, b);
      && MainLeft(cfg, s') == MainLeft(cfg, s) && Popped(cfg, s') == Popped(cfg, s)
      && s'.front == s.front && s'.workStop == s.workStop && s'.requestStop == s.requestStop
      && |s'.backs| == |s.backs| && s'.backs == s.backs[b := s'.backs[b]]
    ensures var s' := ApplyBack(cfg, s, b);
      || |s'.workQueue| < |s.workQueue|
      || (s'.workQueue == s.workQueue && RunWeight(s'.backs[b]) < RunWeight(s.backs[b]))
      || (&& s'.workQueue == s.workQueue && s'.main == s.main
          && RunWeight(s'.backs[b]) == RunWeight(s.backs[b])
          && (s.workStop ==> s.workQueue == [] ==>
                IdleWeight(true, s'.backs[b]) < IdleWeight(true, s.backs[b]))
          && (!s.workStop ==> IdleWeight(false, s'.backs[b]) < IdleWeight(false, s.backs[b])))
  {
  }

  lemma BackLowersRank(cfg: Config, s: Pool, b: nat)
    requires Inv(cfg, s) && Enabled(cfg, s, BackStep(b)) && Inv(cfg, ApplyBack(cfg, s, b))
    ensures Lower(RankOf(cfg, ApplyBack(cfg, s, b)), RankOf(cfg, s))
  {
    var s' := ApplyBack(cfg, s, b);
    BackKeepsOuterRank(cfg, s, b);
    if s.workStop {
      NothingLeft(cfg, s);
    }
    RunSumUpdate(s.backs, b, s'.backs[b]);
    IdleSumUpdate(s.workStop, s.backs, b, s'.backs[b]);
    BackRank(cfg, s, s', b);
  }

  lemma BackRank(cfg: Config, s: Pool, s': Pool, b: nat)
    requires Inv(cfg, s) && Inv(cfg, s') && b < |s.backs| && |s'.backs| == |s.backs|
    requires MainLeft(cfg, s') == MainLeft(cfg, s) && Popped(cfg, s') == Popped(cfg, s)
    requires s'.front == s.front && s'.workStop == s.workStop && s'.requestStop == s.requestStop
    requires RunSum(s'.backs) == RunSum(s.backs) - RunWeight(s.backs[b]) + RunWeight(s'.backs[b])
    requires IdleSum(s.workStop, s'.backs)
          == IdleSum(s.workStop, s.backs) - IdleWeight(s.workStop, s.backs[b]) + IdleWeight(s.workStop, s'.backs[b])
    requires
      || |s'.workQueue| < |s.workQueue|
      || (s'.workQueue == s.workQueue && RunWeight(s'.backs[b]) < RunWeight(s.backs[b]))
      || (&& s'.workQueue == s.workQueue && s'.main == s.main
          && RunWeight(s'.backs[b]) == RunWeight(s.backs[b])
          && IdleWeight(s.workStop, s'.backs[b]) < IdleWeight(s.workStop, s.backs[b]))
    ensures Lower(RankOf(cfg, s'), RankOf(cfg, s))
  {
    assert DividingLeft(cfg, s') == DividingLeft(cfg, s);
  }

  /** Every step other than a spurious wakeup lowers the rank. */
  lemma StepLowersRank(cfg: Config, s: Pool, step: Step, s': Pool)
    requires Inv(cfg, s) && Next(cfg, s, step, s') && !IsSpurious(step)
    ensures Inv(cfg, s') && Lower(RankOf(cfg, s'), RankOf(cfg, s))
  {
    NextKeepsInv(cfg, s, step, s');
    match step
    case MainStep => MainLowersRank(cfg, s);
    case FrontStep => FrontLowersRank(cfg, s);
    case BackStep(b) => BackLowersRank(cfg, s, b);
  }

  ghost predicate NextAt(cfg: Config, states: nat -> Pool, steps: nat -> Step, k: nat) {
    Next(cfg, states(k), steps(k), states(k + 1))
  }

  /** A run that never ends. */
  ghost predicate Endless(cfg: Config, states: nat -> Pool, steps: nat -> Step) {
    states(0) == Init(cfg) && forall k: nat :: NextAt(cfg, states, steps, k)
  }

  lemma {:induction false} EndlessKeepsInv(cfg: Config, states: nat -> Pool, steps: nat -> Step, k: nat)
    requires cfg.Valid() && Endless(cfg, states, steps)
    ensures Inv(cfg, states(k))
  {
    if k == 0 {
      InitInv(cfg);
    } else {
      EndlessKeepsInv(cfg, states, steps, k - 1);
      assert NextAt(cfg, states, steps, k - 1);
      NextKeepsInv(cfg, states(k - 1), steps(k - 1), states(k));
    }
  }

  ghost predicate SpuriousAt(steps: nat -> Step, m: nat) {
    IsSpurious(steps(m))
  }

  /** A run goes on for ever only through spurious wakeups that never cease: from every point
      on there is another one. So without them, or with finitely many, every run ends. */
  lemma NoEndlessRun(cfg: Config, states: nat -> Pool, steps: nat -> Step, k: nat)
    requires cfg.Valid() && Endless(cfg, states, steps)
    ensures exists m: nat :: m >= k && SpuriousAt(steps, m)
  {
    EndlessKeepsInv(cfg, states, steps, k);
    NextSpurious(cfg, states, steps, k, RankOf(cfg, states(k)));
  }

  lemma {:induction false} NextSpurious(cfg: Config, states: nat -> Pool, steps: nat -> Step, k: nat, rank: Rank)
    requires cfg.Valid() && Endless(cfg, states, steps) && Inv(cfg, states(k)) && rank == RankOf(cfg, states(k))
    ensures exists m: nat :: m >= k && SpuriousAt(steps, m)
    decreases rank.main, rank.unpopped, rank.dividing, rank.queued, rank.running, rank.idling
  {
    if !SpuriousAt(steps, k) {
      assert NextAt(cfg, states, steps, k);
      StepLowersRank(cfg, states(k), steps(k), states(k + 1));
      NextSpurious(cfg, states, steps, k + 1, RankOf(cfg, states(k + 1)));
    }
  }
}
