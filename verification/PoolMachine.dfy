/** The thread pool of hw4/tpool.c as a transition system: main, the frontend thread and
    any number of backend threads, interleaved step by step. A step is what a thread does
    between two points where another thread can act: a critical section, the store of one
    cell of c, or a private computation. */
module PoolMachine {
  import opened MatrixProduct
  import opened WorkDivision

  /** One call of tpool_request. */
  datatype Submission = Submission(a: Matrix, b: Matrix, numWorks: nat)

  /** What main.c passes: the matrix size, the number of backends, the requests in order. */
  datatype Config = Config(n: nat, threads: nat, script: seq<Submission>) {
    /** The checks of main.c; it does not compare numWorks with the number of cells. */
    predicate Valid() {
      && n > 0 && threads > 0
      && forall r :: 0 <= r < |script| ==>
           Square(script[r].a, n) && Square(script[r].b, n) && script[r].numWorks > 0
    }

    function Total(): nat { n * n }

    /** The works the frontend really creates for request r. */
    function Items(r: nat): nat
      requires r < |script|
    {
      Created(Total(), script[r].numWorks)
    }

    /** A request that asks for more works than the matrix has cells. */
    predicate Oversize(r: nat)
      requires r < |script|
    {
      script[r].numWorks > Total()
    }
  }

  /** A work item; req and item say which pass of the frontend's loop made it. */
  datatype Work = Work(req: nat, item: nat, start: int, end: int)

  /** A request as the threads see it. created counts the works allocated for it and
      freedWorks those already freed; c holds the cells stored so far. */
  datatype Request = Request(ready: bool, bt: Matrix, remaining: int, created: nat,
                             freedWorks: set<nat>, c: map<nat, int>, freed: bool)

  datatype Backend = BTop | BDequeue | BWaiting | BRun(work: Work, idx: int) | BExited

  datatype Frontend =
    | FTop
    | FDequeue
    | FWaiting
    | FOpen(req: nat)
    | FDivide(req: nat, i: nat, start: int)
    | FExited

  datatype Main =
    | MSubmit(k: nat)
    | MEnqueue(k: nat)
    | MSync
    | MWaiting
    | MStopRequests
    | MStopWorks
    | MJoin
    | MDone

  datatype Pool = Pool(main: Main, front: Frontend, backs: seq<Backend>,
                       reqs: seq<Request>, requestQueue: seq<nat>, workQueue: seq<Work>,
                       requestStop: bool, workStop: bool, active: int)

  datatype Step = MainStep | FrontStep | BackStep(b: nat) | SpuriousMain | SpuriousFront | SpuriousBack(b: nat)

  function Init(cfg: Config): Pool {
    Pool(MSubmit(0), FTop, seq(cfg.threads, _ => BTop),
         seq(|cfg.script|, _ => Request(false, [], 0, 0, {}, map[], false)),
         [], [], false, false, 0)
  }

  predicate Sized(cfg: Config, s: Pool) {
    cfg.Valid() && |s.reqs| == |cfg.script|
  }

  /** Indices stay in range; needed only to write the transitions down. */
  predicate Shaped(cfg: Config, s: Pool) {
    && Sized(cfg, s) && |s.backs| == cfg.threads
    && (forall j :: 0 <= j < |s.requestQueue| ==> s.requestQueue[j] < |cfg.script|)
    && (s.front.FOpen? || s.front.FDivide? ==> s.front.req < |cfg.script|)
    && (s.main.MSubmit? ==> s.main.k <= |cfg.script|)
    && (s.main.MEnqueue? ==> s.main.k < |cfg.script|)
    && (forall r :: 0 <= r < |s.reqs| && s.reqs[r].ready ==> Square(s.reqs[r].bt, cfg.n))
    && (forall b :: 0 <= b < |s.backs| && s.backs[b].BRun? ==>
          && s.backs[b].work.req < |s.reqs| && s.reqs[s.backs[b].work.req].ready
          && 0 <= s.backs[b].idx && s.backs[b].work.end < cfg.Total())
  }

  function Wake(b: Backend): Backend {
    if b.BWaiting? then BDequeue else b
  }

  /** pthread_cond_broadcast on the work queue. */
  function WakeAll(backs: seq<Backend>): (r: seq<Backend>)
    ensures |r| == |backs|
    ensures forall b :: 0 <= b < |backs| ==> r[b] == Wake(backs[b])
  {
    seq(|backs|, b requires 0 <= b < |backs| => Wake(backs[b]))
  }

  function WakeFront(f: Frontend): Frontend {
    if f.FWaiting? then FDequeue else f
  }

  predicate Enabled(cfg: Config, s: Pool, step: Step)
    requires Shaped(cfg, s)
  {
    match step
    case MainStep =>
      && !s.main.MWaiting? && !s.main.MDone?
      && (s.main.MJoin? ==> s.front.FExited? && forall b :: 0 <= b < |s.backs| ==> s.backs[b].BExited?)
    case FrontStep => !s.front.FWaiting? && !s.front.FExited?
    case BackStep(b) => b < |s.backs| && !s.backs[b].BWaiting? && !s.backs[b].BExited?
    case SpuriousMain => s.main.MWaiting?
    case SpuriousFront => s.front.FWaiting?
    case SpuriousBack(b) => b < |s.backs| && s.backs[b].BWaiting?
  }

  /** tpool_request, tpool_synchronize and tpool_destroy, in the order main.c calls them. */
  function ApplyMain(cfg: Config, s: Pool): Pool
    requires Shaped(cfg, s) && Enabled(cfg, s, MainStep)
  {
    match s.main
    case MSubmit(k) =>
      if k < |cfg.script| then s.(main := MEnqueue(k), active := s.active + 1) else s.(main := MSync)
    case MEnqueue(k) =>
      s.(main := MSubmit(k + 1), requestQueue := s.requestQueue + [k], front := WakeFront(s.front))
    case MSync =>
      if s.active > 0 || |s.workQueue| > 0 || |s.requestQueue| > 0 then s.(main := MWaiting)
      else s.(main := MStopRequests)
    case MStopRequests =>
      s.(main := MStopWorks, requestStop := true, front := WakeFront(s.front))
    case MStopWorks =>
      s.(main := MJoin, workStop := true, backs := WakeAll(s.backs))
    case MJoin => s.(main := MDone)
  }

  /** One pass of the loop that divides a request: guard, clamp, create, enqueue. */
  function ApplyDivide(cfg: Config, s: Pool): Pool
    requires Shaped(cfg, s) && s.front.FDivide?
  {
    var r, i, start := s.front.req, s.front.i, s.front.start;
    var works := cfg.script[r].numWorks;
    if i < works && start < cfg.Total() then
      var end := EndOf(cfg.Total(), works, i, start);
      s.(front := FDivide(r, i + 1, end + 1),
         workQueue := s.workQueue + [Work(r, i, start, end)],
         backs := WakeAll(s.backs),
         reqs := s.reqs[r := s.reqs[r].(created := s.reqs[r].created + 1)])
    else
      s.(front := FTop)
  }

  function ApplyFront(cfg: Config, s: Pool): Pool
    requires Shaped(cfg, s) && Enabled(cfg, s, FrontStep)
  {
    match s.front
    case FTop => s.(front := if s.requestStop && s.requestQueue == [] then FExited else FDequeue)
    case FDequeue =>
      if s.requestQueue != [] then
        s.(front := FOpen(s.requestQueue[0]), requestQueue := s.requestQueue[1..])
      else if s.requestStop then s.(front := FTop)
      else s.(front := FWaiting)
    case FOpen(r) =>
      var ready := s.reqs[r].(ready := true, bt := Transpose(cfg.script[r].b, cfg.n),
                               remaining := cfg.script[r].numWorks);
      s.(front := FDivide(r, 0, 0), reqs := s.reqs[r := ready])
    case FDivide(_, _, _) => ApplyDivide(cfg, s)
  }

  /** A backend stores the next cell of its work. */
  function ApplyCell(cfg: Config, s: Pool, b: nat): Pool
    requires Shaped(cfg, s) && b < |s.backs|
    requires s.backs[b].BRun? && s.backs[b].idx <= s.backs[b].work.end
  {
    var w, idx := s.backs[b].work, s.backs[b].idx;
    var value := CellValue(cfg.script[w.req].a, s.reqs[w.req].bt, cfg.n, idx);
    s.(backs := s.backs[b := BRun(w, idx + 1)],
       reqs := s.reqs[w.req := s.reqs[w.req].(c := s.reqs[w.req].c[idx := value])])
  }

  /** The critical section after the last cell, and the release of the work. */
  function ApplyFinish(cfg: Config, s: Pool, b: nat): Pool
    requires Shaped(cfg, s) && b < |s.backs| && s.backs[b].BRun?
  {
    var w := s.backs[b].work;
    var left := s.reqs[w.req].remaining - 1;
    var req := s.reqs[w.req].(remaining := left, freedWorks := s.reqs[w.req].freedWorks + {w.item});
    if left == 0 then
      s.(backs := s.backs[b := BTop], reqs := s.reqs[w.req := req.(freed := true)],
         active := s.active - 1,
         main := if s.active - 1 == 0 && s.main.MWaiting? then MSync else s.main)
    else
      s.(backs := s.backs[b := BTop], reqs := s.reqs[w.req := req])
  }

  function ApplyBack(cfg: Config, s: Pool, b: nat): Pool
    requires Shaped(cfg, s) && Enabled(cfg, s, BackStep(b))
  {
    match s.backs[b]
    case BTop => s.(backs := s.backs[b := if s.workStop && s.workQueue == [] then BExited else BDequeue])
    case BDequeue =>
      if s.workQueue != [] then
        s.(backs := s.backs[b := BRun(s.workQueue[0], s.workQueue[0].start)], workQueue := s.workQueue[1..])
      else
        s.(backs := s.backs[b := if s.workStop then BTop else BWaiting])
    case BRun(w, idx) => if idx <= w.end then ApplyCell(cfg, s, b) else ApplyFinish(cfg, s, b)
  }

  function Apply(cfg: Config, s: Pool, step: Step): Pool
    requires Shaped(cfg, s) && Enabled(cfg, s, step)
  {
    match step
    case MainStep => ApplyMain(cfg, s)
    case FrontStep => ApplyFront(cfg, s)
    case BackStep(b) => ApplyBack(cfg, s, b)
    case SpuriousMain => s.(main := MSync)
    case SpuriousFront => s.(front := FDequeue)
    case SpuriousBack(b) => s.(backs := s.backs[b := BDequeue])
  }

  ghost predicate Next(cfg: Config, s: Pool, step: Step, s': Pool) {
    Shaped(cfg, s) && Enabled(cfg, s, step) && s' == Apply(cfg, s, step)
  }

  /** A finite run: states, and the step taken from each state but the last. */
  ghost predicate Run(cfg: Config, states: seq<Pool>, steps: seq<Step>) {
    && |states| == |steps| + 1
    && states[0] == Init(cfg)
    && forall k {:trigger steps[k]} :: 0 <= k < |steps| ==> Next(cfg, states[k], steps[k], states[k + 1])
  }
}
