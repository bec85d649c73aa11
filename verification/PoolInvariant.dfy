/** What every reachable state of the pool satisfies, and that each step keeps it. */
module PoolInvariant {
  import opened FiniteSets
  import opened MatrixProduct
  import opened WorkDivision
  import opened PoolMachine

  /** The work the division gives to item i of request r. */
  function WorkOf(cfg: Config, r: nat, i: nat): Work
    requires cfg.Valid() && r < |cfg.script|
  {
    var works := cfg.script[r].numWorks;
    Work(r, i, Start(cfg.Total(), works, i), Start(cfg.Total(), works, i + 1) - 1)
  }

  /** Requests that main has put on the request queue so far. */
  function Enqueued(cfg: Config, s: Pool): nat {
    if s.main.MSubmit? || s.main.MEnqueue? then s.main.k else |cfg.script|
  }

  /** Requests already counted in active_requests; the count runs ahead of the queue. */
  function Activated(cfg: Config, s: Pool): nat {
    if s.main.MSubmit? then s.main.k else if s.main.MEnqueue? then s.main.k + 1 else |cfg.script|
  }

  /** Requests the frontend has taken off the queue. */
  function Popped(cfg: Config, s: Pool): int {
    Enqueued(cfg, s) - |s.requestQueue|
  }

  ghost predicate Running(s: Pool, w: Work) {
    exists b :: 0 <= b < |s.backs| && s.backs[b].BRun? && s.backs[b].work == w
  }

  /** A work that exists: allocated and not yet freed. */
  predicate Live(cfg: Config, s: Pool, w: Work)
    requires Sized(cfg, s)
  {
    && w.req < |cfg.script| && w == WorkOf(cfg, w.req, w.item)
    && s.reqs[w.req].ready
    && w.item < s.reqs[w.req].created && w.item !in s.reqs[w.req].freedWorks
  }

  // ---- The request queue and the frontend

  ghost predicate InvQueue(cfg: Config, s: Pool)
    requires Sized(cfg, s)
  {
    && (s.main.MSubmit? || s.main.MEnqueue? ==> s.main.k <= |cfg.script|)
    && 0 <= Popped(cfg, s)
    && forall j :: 0 <= j < |s.requestQueue| ==> s.requestQueue[j] == Popped(cfg, s) + j
  }

  ghost predicate InvFront(cfg: Config, s: Pool)
    requires Sized(cfg, s)
  {
    && (s.front.FOpen? ==> s.front.req == Popped(cfg, s) - 1)
    && (s.front.FDivide? ==>
          && s.front.req == Popped(cfg, s) - 1 && s.front.req < |s.reqs|
          && s.front.i == s.reqs[s.front.req].created
          && s.front.start == Start(cfg.Total(), cfg.script[s.front.req].numWorks, s.front.i))
    && forall r :: 0 <= r < |s.reqs| ==>
         && (s.reqs[r].ready <==> r < Popped(cfg, s) && !(s.front.FOpen? && s.front.req == r))
         && (!s.reqs[r].ready ==> s.reqs[r].created == 0)
         && s.reqs[r].created <= cfg.Items(r)
         && (s.reqs[r].ready && !(s.front.FDivide? && s.front.req == r) ==> s.reqs[r].created == cfg.Items(r))
  }

  // ---- Where each work is

  ghost predicate InvWorks(cfg: Config, s: Pool)
    requires Sized(cfg, s)
  {
    && (forall j :: 0 <= j < |s.workQueue| ==> Live(cfg, s, s.workQueue[j]) && !Running(s, s.workQueue[j]))
    && (forall j, k :: 0 <= j < k < |s.workQueue| ==> s.workQueue[j] != s.workQueue[k])
    && (forall b :: 0 <= b < |s.backs| && s.backs[b].BRun? ==>
          && Live(cfg, s, s.backs[b].work)
          && s.backs[b].work.start <= s.backs[b].idx <= s.backs[b].work.end + 1)
    && (forall b, d :: 0 <= b < d < |s.backs| && s.backs[b].BRun? && s.backs[d].BRun? ==>
          s.backs[b].work != s.backs[d].work)
  }

  ghost predicate InvPlaces(cfg: Config, s: Pool)
    requires Sized(cfg, s)
  {
    forall r, i :: 0 <= r < |s.reqs| && 0 <= i < s.reqs[r].created ==>
      i in s.reqs[r].freedWorks || WorkOf(cfg, r, i) in s.workQueue || Running(s, WorkOf(cfg, r, i))
  }

  // ---- The counters

  ghost predicate InvCount(cfg: Config, s: Pool)
    requires Sized(cfg, s)
  {
    forall r :: 0 <= r < |s.reqs| ==>
      && (forall i :: i in s.reqs[r].freedWorks ==> i < s.reqs[r].created)
      && (s.reqs[r].ready ==> s.reqs[r].remaining == cfg.script[r].numWorks - |s.reqs[r].freedWorks|)
      && (s.reqs[r].freed <==> s.reqs[r].ready && s.reqs[r].remaining == 0)
  }

  ghost function Unfinished(cfg: Config, s: Pool): set<nat>
    requires Sized(cfg, s)
  {
    set r: nat | r < |s.reqs| && r < Activated(cfg, s) && !s.reqs[r].freed
  }

  ghost predicate InvActive(cfg: Config, s: Pool)
    requires Sized(cfg, s)
  {
    s.active == |Unfinished(cfg, s)|
  }

  // ---- The cells of c

  /** Every stored cell lies in a work already created, and holds the right value. */
  ghost predicate CellsSound(cfg: Config, s: Pool)
    requires Sized(cfg, s)
  {
    && (forall r :: 0 <= r < |s.reqs| && s.reqs[r].ready ==> s.reqs[r].bt == Transpose(cfg.script[r].b, cfg.n))
    && forall r, x :: 0 <= r < |s.reqs| && x in s.reqs[r].c ==>
         && x < cfg.Total() && s.reqs[r].ready
         && s.reqs[r].c[x] == CellValue(cfg.script[r].a, Transpose(cfg.script[r].b, cfg.n), cfg.n, x)
         && x < Start(cfg.Total(), cfg.script[r].numWorks, s.reqs[r].created)
  }

  /** A freed work left none of its cells out. */
  ghost predicate CellsFreed(cfg: Config, s: Pool)
    requires Sized(cfg, s)
  {
    forall r, i, x: nat :: (0 <= r < |s.reqs| && i in s.reqs[r].freedWorks
      && InWork(cfg.Total(), cfg.script[r].numWorks, i, x)) ==> x in s.reqs[r].c
  }

  /** No cell of a queued work has been stored. */
  ghost predicate CellsQueued(cfg: Config, s: Pool)
    requires Sized(cfg, s)
  {
    forall w, x: nat :: (w in s.workQueue && Live(cfg, s, w) && w.start <= x <= w.end) ==>
      x !in s.reqs[w.req].c
  }

  /** A running work has stored exactly the cells before its index. */
  ghost predicate CellsRunning(cfg: Config, s: Pool)
    requires Sized(cfg, s)
  {
    forall b, x: nat :: (0 <= b < |s.backs| && s.backs[b].BRun? && s.backs[b].work.req < |s.reqs|
      && s.backs[b].work.start <= x <= s.backs[b].work.end) ==>
      (x in s.reqs[s.backs[b].work.req].c <==> x < s.backs[b].idx)
  }

  ghost predicate InvCells(cfg: Config, s: Pool)
    requires Sized(cfg, s)
  {
    CellsSound(cfg, s) && CellsFreed(cfg, s) && CellsQueued(cfg, s) && CellsRunning(cfg, s)
  }

  // ---- Waiting and stopping

  ghost predicate InvWait(cfg: Config, s: Pool)
    requires Sized(cfg, s)
  {
    && (forall b :: 0 <= b < |s.backs| ==>
          && (s.backs[b].BWaiting? ==> s.workQueue == [] && !s.workStop)
          && (s.backs[b].BExited? ==> s.workStop))
    && (s.front.FWaiting? ==> s.requestQueue == [] && !s.requestStop)
    && (s.front.FExited? ==> s.requestStop)
    && (s.main.MWaiting? ==> s.active > 0)
    && (s.requestStop <==> s.main.MStopWorks? || s.main.MJoin? || s.main.MDone?)
    && (s.workStop <==> s.main.MJoin? || s.main.MDone?)
    && (s.main.MStopRequests? || s.requestStop ==> s.active == 0)
    && (s.main.MDone? ==> s.front.FExited? && forall b :: 0 <= b < |s.backs| ==> s.backs[b].BExited?)
  }

  ghost predicate Inv(cfg: Config, s: Pool) {
    && Shaped(cfg, s)
    && InvQueue(cfg, s) && InvFront(cfg, s)
    && InvWorks(cfg, s) && InvPlaces(cfg, s)
    && InvCount(cfg, s) && InvActive(cfg, s)
    && InvCells(cfg, s) && InvWait(cfg, s)
  }

  lemma InitInv(cfg: Config)
    requires cfg.Valid()
    ensures Inv(cfg, Init(cfg))
  {
    assert Unfinished(cfg, Init(cfg)) == {};
  }

  // ---- Facts used by several steps

  /** An existing work covers cells of its matrix, and they lie below those not yet divided. */
  lemma LiveRange(cfg: Config, s: Pool, w: Work)
    requires Sized(cfg, s) && InvFront(cfg, s) && Live(cfg, s, w)
    ensures 0 <= w.start <= w.end < cfg.Total()
    ensures w.end < Start(cfg.Total(), cfg.script[w.req].numWorks, s.reqs[w.req].created)
  {
    var works := cfg.script[w.req].numWorks;
    SharesAreFair(cfg.Total(), works, w.item, w.item);
    StartMonotone(cfg.Total(), works, w.item + 1, s.reqs[w.req].created);
  }

  /** Existing works with a common cell of the same request are the same work. */
  lemma LiveDisjoint(cfg: Config, s: Pool, v: Work, w: Work, x: nat)
    requires Sized(cfg, s) && Live(cfg, s, v) && Live(cfg, s, w) && v.req == w.req
    requires v.start <= x <= v.end && w.start <= x <= w.end
    ensures v == w
  {
    WorksDisjoint(cfg.Total(), cfg.script[v.req].numWorks, v.item, w.item, x);
  }

  // ---- Main

  /** The same backends run the same works at the same index. */
  ghost predicate SameRuns(xs: seq<Backend>, ys: seq<Backend>) {
    && |xs| == |ys|
    && forall b :: 0 <= b < |xs| ==> if xs[b].BRun? then ys[b] == xs[b] else !ys[b].BRun?
  }

  lemma SameRunsSameWorks(s: Pool, s': Pool)
    requires SameRuns(s.backs, s'.backs)
    ensures forall w :: Running(s', w) <==> Running(s, w)
  {
    forall w ensures Running(s', w) <==> Running(s, w) {
      if Running(s, w) {
        var b :| 0 <= b < |s.backs| && s.backs[b].BRun? && s.backs[b].work == w;
        assert s'.backs[b].BRun? && s'.backs[b].work == w;
      }
    }
  }

  /** Waking or parking backends changes nothing about the works. */
  lemma IdlingKeepsWorks(cfg: Config, s: Pool, s': Pool)
    requires Sized(cfg, s) && InvWorks(cfg, s) && InvPlaces(cfg, s) && InvCount(cfg, s) && InvCells(cfg, s)
    requires s'.reqs == s.reqs && s'.workQueue == s.workQueue && SameRuns(s.backs, s'.backs)
    ensures InvWorks(cfg, s') && InvPlaces(cfg, s') && InvCount(cfg, s') && InvCells(cfg, s')
  {
    SameRunsSameWorks(s, s');
    assert forall w :: w in s.workQueue ==> (Live(cfg, s', w) <==> Live(cfg, s, w));
  }

  lemma MainKeepsQueue(cfg: Config, s: Pool)
    requires Shaped(cfg, s) && InvQueue(cfg, s) && Enabled(cfg, s, MainStep)
    ensures var s' := ApplyMain(cfg, s);
      InvQueue(cfg, s') && Popped(cfg, s') == Popped(cfg, s) && s'.reqs == s.reqs
    ensures ApplyMain(cfg, s).front == s.front || ApplyMain(cfg, s).front == WakeFront(s.front)
  {
  }

  lemma MainKeepsFront(cfg: Config, s: Pool, s': Pool)
    requires Sized(cfg, s) && InvFront(cfg, s)
    requires s'.reqs == s.reqs && Popped(cfg, s') == Popped(cfg, s)
    requires s'.front == s.front || s'.front == WakeFront(s.front)
    ensures Sized(cfg, s') && InvFront(cfg, s')
  {
  }

  lemma SubmitKeepsActive(cfg: Config, s: Pool)
    requires Sized(cfg, s) && InvCount(cfg, s) && InvFront(cfg, s) && InvActive(cfg, s)
    requires s.main.MSubmit? && s.main.k < |cfg.script|
    ensures InvActive(cfg, s.(main := MEnqueue(s.main.k), active := s.active + 1))
  {
    var s' := s.(main := MEnqueue(s.main.k), active := s.active + 1);
    assert !s.reqs[s.main.k].freed;
    assert Unfinished(cfg, s') == Unfinished(cfg, s) + {s.main.k};
  }

  lemma ActiveFrame(cfg: Config, s: Pool, s': Pool)
    requires Sized(cfg, s) && InvActive(cfg, s)
    requires s'.active == s.active && Activated(cfg, s') == Activated(cfg, s)
    requires |s'.reqs| == |s.reqs| && forall r :: 0 <= r < |s.reqs| ==> s'.reqs[r].freed == s.reqs[r].freed
    ensures InvActive(cfg, s')
  {
    assert Unfinished(cfg, s') == Unfinished(cfg, s);
  }

  lemma MainKeepsActive(cfg: Config, s: Pool)
    requires Shaped(cfg, s) && InvFront(cfg, s) && InvCount(cfg, s) && InvActive(cfg, s)
    requires Enabled(cfg, s, MainStep)
    ensures InvActive(cfg, ApplyMain(cfg, s))
  {
    if s.main.MSubmit? && s.main.k < |cfg.script| {
      SubmitKeepsActive(cfg, s);
    } else {
      ActiveFrame(cfg, s, ApplyMain(cfg, s));
    }
  }

  lemma MainKeepsInv(cfg: Config, s: Pool)
    requires Inv(cfg, s) && Enabled(cfg, s, MainStep)
    ensures Inv(cfg, Apply(cfg, s, MainStep))
  {
    var s' := ApplyMain(cfg, s);
    MainKeepsQueue(cfg, s);
    MainKeepsFront(cfg, s, s');
    MainKeepsActive(cfg, s);
    IdlingKeepsWorks(cfg, s, s');
    MainKeepsWait(cfg, s);
  }

  lemma MainKeepsWait(cfg: Config, s: Pool)
    requires Shaped(cfg, s) && InvQueue(cfg, s) && InvFront(cfg, s) && InvCount(cfg, s)
    requires InvActive(cfg, s) && InvWorks(cfg, s) && InvWait(cfg, s)
    requires Enabled(cfg, s, MainStep)
    ensures Shaped(cfg, ApplyMain(cfg, s)) && InvWait(cfg, ApplyMain(cfg, s))
  {
    MainKeepsQueue(cfg, s);
    if s.main.MSync? && s.active == 0 {
      NothingLeft(cfg, s);
    }
  }

  /** Once every request is submitted and active_requests is 0, both queues are empty. */
  lemma NothingLeft(cfg: Config, s: Pool)
    requires Shaped(cfg, s) && InvQueue(cfg, s) && InvFront(cfg, s) && InvCount(cfg, s)
    requires InvActive(cfg, s) && InvWorks(cfg, s)
    requires s.active == 0 && !s.main.MSubmit? && !s.main.MEnqueue?
    ensures s.requestQueue == [] && s.workQueue == []
    ensures forall r :: 0 <= r < |s.reqs| ==> s.reqs[r].freed
    ensures forall b :: 0 <= b < |s.backs| ==> !s.backs[b].BRun?
  {
    WorksKeepTheirRequest(cfg, s);
    assert s.requestQueue != [] ==> !s.reqs[s.requestQueue[0]].freed;
    assert s.workQueue != [] ==> s.workQueue[0].req < |s.reqs| && !s.reqs[s.workQueue[0].req].freed;
    forall r | 0 <= r < |s.reqs| ensures s.reqs[r].freed {
      assert r !in Unfinished(cfg, s);
    }
  }

  /** Backends only touch live requests: a queued or running work keeps its request. */
  lemma WorksKeepTheirRequest(cfg: Config, s: Pool)
    requires Sized(cfg, s) && InvFront(cfg, s) && InvCount(cfg, s) && InvWorks(cfg, s)
    ensures forall j :: 0 <= j < |s.workQueue| ==> !s.reqs[s.workQueue[j].req].freed
    ensures forall b :: 0 <= b < |s.backs| && s.backs[b].BRun? ==> !s.reqs[s.backs[b].work.req].freed
  {
    forall j | 0 <= j < |s.workQueue| ensures !s.reqs[s.workQueue[j].req].freed {
      assert Live(cfg, s, s.workQueue[j]) && !Running(s, s.workQueue[j]);
      OneMoreToFree(cfg, s, s.workQueue[j]);
    }
    forall b | 0 <= b < |s.backs| && s.backs[b].BRun? ensures !s.reqs[s.backs[b].work.req].freed {
      OneMoreToFree(cfg, s, s.backs[b].work);
    }
  }

  /** While a work exists its request has not been counted down to 0. */
  lemma OneMoreToFree(cfg: Config, s: Pool, w: Work)
    requires Sized(cfg, s) && InvFront(cfg, s) && InvCount(cfg, s) && Live(cfg, s, w)
    ensures s.reqs[w.req].remaining > 0 && !s.reqs[w.req].freed
  {
    var q := s.reqs[w.req];
    CountBelow(q.created);
    ProperSubsetSize(q.freedWorks, Below(q.created), w.item);
  }

  // ---- Frontend

  /** Steps of the frontend that touch neither a request nor a work. */
  lemma IdleFrontKeepsInv(cfg: Config, s: Pool, s': Pool)
    requires Inv(cfg, s)
    requires s' == s.(front := s'.front)
    requires !s.front.FOpen? && !s.front.FDivide? && !s'.front.FOpen? && !s'.front.FDivide?
    requires s'.front.FWaiting? ==> s.requestQueue == [] && !s.requestStop
    requires s'.front.FExited? ==> s.requestStop
    requires !s.main.MDone?
    ensures Inv(cfg, s')
  {
    IdlingKeepsWorks(cfg, s, s');
    ActiveFrame(cfg, s, s');
  }

  lemma PopRequestKeepsInv(cfg: Config, s: Pool)
    requires Inv(cfg, s) && s.front.FDequeue? && s.requestQueue != []
    ensures Inv(cfg, Apply(cfg, s, FrontStep))
  {
    var s' := Apply(cfg, s, FrontStep);
    IdlingKeepsWorks(cfg, s, s');
    ActiveFrame(cfg, s, s');
    PopKeepsFront(cfg, s, s');
  }

  lemma PopKeepsFront(cfg: Config, s: Pool, s': Pool)
    requires Shaped(cfg, s) && InvQueue(cfg, s) && InvFront(cfg, s) && s.front.FDequeue? && s.requestQueue != []
    requires s' == s.(front := FOpen(s.requestQueue[0]), requestQueue := s.requestQueue[1..])
    ensures Shaped(cfg, s') && InvQueue(cfg, s') && InvFront(cfg, s')
  {
    assert Popped(cfg, s') == Popped(cfg, s) + 1;
  }

  lemma OpenKeepsFront(cfg: Config, s: Pool)
    requires Shaped(cfg, s) && InvQueue(cfg, s) && InvFront(cfg, s) && s.front.FOpen?
    ensures var s' := ApplyFront(cfg, s); Shaped(cfg, s') && InvQueue(cfg, s') && InvFront(cfg, s')
  {
    var s' := ApplyFront(cfg, s);
    assert Popped(cfg, s') == Popped(cfg, s);
  }

  lemma OpenKeepsWorks(cfg: Config, s: Pool)
    requires Shaped(cfg, s) && InvFront(cfg, s) && InvWorks(cfg, s) && InvPlaces(cfg, s)
    requires InvCount(cfg, s) && s.front.FOpen?
    ensures var s' := ApplyFront(cfg, s); Sized(cfg, s') && InvWorks(cfg, s') && InvPlaces(cfg, s') && InvCount(cfg, s')
  {
    var s', r := ApplyFront(cfg, s), s.front.req;
    assert s.reqs[r].freedWorks == {};
    SameRunsSameWorks(s, s');
    assert forall w :: Live(cfg, s, w) ==> Live(cfg, s', w);
  }

  lemma OpenKeepsCells(cfg: Config, s: Pool)
    requires Shaped(cfg, s) && InvFront(cfg, s) && InvWorks(cfg, s) && InvCount(cfg, s)
    requires InvCells(cfg, s) && s.front.FOpen?
    ensures var s' := ApplyFront(cfg, s); Sized(cfg, s') && InvCells(cfg, s')
  {
    var s', r := ApplyFront(cfg, s), s.front.req;
    assert s.reqs[r].c == map[] && s.reqs[r].freedWorks == {};
    assert forall w :: Live(cfg, s', w) ==> Live(cfg, s, w);
  }

  lemma OpenKeepsInv(cfg: Config, s: Pool)
    requires Inv(cfg, s) && s.front.FOpen?
    ensures Inv(cfg, Apply(cfg, s, FrontStep))
  {
    var s' := ApplyFront(cfg, s);
    OpenKeepsFront(cfg, s);
    OpenKeepsWorks(cfg, s);
    OpenKeepsCells(cfg, s);
    ActiveFrame(cfg, s, s');
  }

  /** When the dividing loop goes on, the work it makes is the next item, and the clamp
      leaves it as it is; when the loop stops, every item has been made. */
  lemma DivideMakesItem(cfg: Config, s: Pool)
    requires Shaped(cfg, s) && InvFront(cfg, s) && s.front.FDivide?
    ensures var r, i, s' := s.front.req, s.front.i, ApplyDivide(cfg, s);
      if i < cfg.script[r].numWorks && s.front.start < cfg.Total() then
        && i < cfg.Items(r)
        && s' == s.(front := FDivide(r, i + 1, WorkOf(cfg, r, i).end + 1),
                    workQueue := s.workQueue + [WorkOf(cfg, r, i)], backs := WakeAll(s.backs),
                    reqs := s.reqs[r := s.reqs[r].(created := i + 1)])
      else
        i == cfg.Items(r)
  {
    var r, i := s.front.req, s.front.i;
    var works := cfg.script[r].numWorks;
    StartAtEnd(cfg.Total(), works);
    if i < cfg.Items(r) {
      SharesAreFair(cfg.Total(), works, i, i);
    }
  }

  lemma CreateKeepsWorks(cfg: Config, s: Pool, s': Pool, w: Work)
    requires Sized(cfg, s) && InvFront(cfg, s) && InvWorks(cfg, s) && InvPlaces(cfg, s) && InvCount(cfg, s)
    requires s.front.FDivide? && w.req == s.front.req && w.item == s.front.i && w == WorkOf(cfg, w.req, w.item)
    requires s'.reqs == s.reqs[w.req := s.reqs[w.req].(created := w.item + 1)]
    requires s'.workQueue == s.workQueue + [w] && s'.backs == WakeAll(s.backs)
    ensures Sized(cfg, s') && InvWorks(cfg, s') && InvPlaces(cfg, s') && InvCount(cfg, s')
  {
    assert !Live(cfg, s, w);
    assert SameRuns(s.backs, s'.backs);
    SameRunsSameWorks(s, s');
    forall v | Live(cfg, s, v) ensures Live(cfg, s', v) {
    }
    assert w !in s.workQueue;
    assert !Running(s, w);
  }

  lemma CreateKeepsCells(cfg: Config, s: Pool, s': Pool, w: Work)
    requires Sized(cfg, s) && InvFront(cfg, s) && InvWorks(cfg, s) && InvCount(cfg, s) && InvCells(cfg, s)
    requires s.front.FDivide? && w.req == s.front.req && w.item == s.front.i && w == WorkOf(cfg, w.req, w.item)
    requires s'.reqs == s.reqs[w.req := s.reqs[w.req].(created := w.item + 1)]
    requires s'.workQueue == s.workQueue + [w] && s'.backs == WakeAll(s.backs)
    ensures Sized(cfg, s') && InvCells(cfg, s')
  {
    StartMonotone(cfg.Total(), cfg.script[w.req].numWorks, w.item, w.item + 1);
    CreateKeepsQueued(cfg, s, s', w);
    CreateKeepsSound(cfg, s, s', w);
    assert SameRuns(s.backs, s'.backs);
  }

  lemma CreateKeepsSound(cfg: Config, s: Pool, s': Pool, w: Work)
    requires Sized(cfg, s) && CellsSound(cfg, s) && w.req < |s.reqs| && w.item == s.reqs[w.req].created
    requires Start(cfg.Total(), cfg.script[w.req].numWorks, w.item) <= Start(cfg.Total(), cfg.script[w.req].numWorks, w.item + 1)
    requires s'.reqs == s.reqs[w.req := s.reqs[w.req].(created := w.item + 1)]
    ensures Sized(cfg, s') && CellsSound(cfg, s')
  {
  }

  lemma CreateKeepsQueued(cfg: Config, s: Pool, s': Pool, w: Work)
    requires Sized(cfg, s) && CellsSound(cfg, s) && CellsQueued(cfg, s)
    requires s.front.FDivide? && w.req == s.front.req < |s.reqs| && w.item == s.reqs[w.req].created
    requires w == WorkOf(cfg, w.req, w.item)
    requires s'.reqs == s.reqs[w.req := s.reqs[w.req].(created := w.item + 1)] && s'.workQueue == s.workQueue + [w]
    ensures Sized(cfg, s') && CellsQueued(cfg, s')
  {
    forall v, x: nat | v in s'.workQueue && Live(cfg, s', v) && v.start <= x <= v.end
      ensures x !in s'.reqs[v.req].c {
      assert v == w || (v in s.workQueue && Live(cfg, s, v));
    }
  }

  lemma CreateKeepsInv(cfg: Config, s: Pool, s': Pool, w: Work)
    requires Inv(cfg, s) && s.front.FDivide?
    requires w.req == s.front.req && w.item == s.front.i && w == WorkOf(cfg, w.req, w.item)
    requires w.item < cfg.Items(w.req)
    requires s' == s.(front := FDivide(w.req, w.item + 1, w.end + 1), workQueue := s.workQueue + [w],
                      backs := WakeAll(s.backs), reqs := s.reqs[w.req := s.reqs[w.req].(created := w.item + 1)])
    ensures Inv(cfg, s')
  {
    CreateKeepsWorks(cfg, s, s', w);
    CreateKeepsCells(cfg, s, s', w);
    CreateKeepsFront(cfg, s, s', w);
    ActiveFrame(cfg, s, s');
  }

  lemma DivideKeepsInv(cfg: Config, s: Pool)
    requires Inv(cfg, s) && s.front.FDivide?
    ensures Inv(cfg, ApplyDivide(cfg, s))
  {
    var s' := ApplyDivide(cfg, s);
    DivideMakesItem(cfg, s);
    if s'.front.FDivide? {
      CreateKeepsInv(cfg, s, s', WorkOf(cfg, s.front.req, s.front.i));
    } else {
      StopDividingKeepsInv(cfg, s);
    }
  }

  lemma StopDividingKeepsInv(cfg: Config, s: Pool)
    requires Inv(cfg, s) && s.front.FDivide? && s.front.i == cfg.Items(s.front.req)
    ensures Inv(cfg, s.(front := FTop))
  {
    var s' := s.(front := FTop);
    IdlingKeepsWorks(cfg, s, s');
    ActiveFrame(cfg, s, s');
    assert Popped(cfg, s') == Popped(cfg, s);
  }

  lemma CreateKeepsFront(cfg: Config, s: Pool, s': Pool, w: Work)
    requires Shaped(cfg, s) && InvQueue(cfg, s) && InvFront(cfg, s) && InvWait(cfg, s)
    requires s.front.FDivide? && w.req == s.front.req && w.item == s.front.i && w == WorkOf(cfg, w.req, w.item)
    requires w.item < cfg.Items(w.req)
    requires s' == s.(front := FDivide(w.req, w.item + 1, w.end + 1), workQueue := s.workQueue + [w],
                      backs := WakeAll(s.backs), reqs := s.reqs[w.req := s.reqs[w.req].(created := w.item + 1)])
    ensures Shaped(cfg, s') && InvQueue(cfg, s') && InvFront(cfg, s') && InvWait(cfg, s')
  {
    forall b | 0 <= b < |s.backs|
      ensures s'.backs[b].BRun? ==> s'.backs[b] == s.backs[b]
      ensures s'.backs[b].BExited? <==> s.backs[b].BExited? {
    }
  }

  lemma FrontKeepsInv(cfg: Config, s: Pool)
    requires Inv(cfg, s) && Enabled(cfg, s, FrontStep)
    ensures Inv(cfg, Apply(cfg, s, FrontStep))
  {
    if s.front.FOpen? {
      OpenKeepsInv(cfg, s);
    } else if s.front.FDivide? {
      DivideKeepsInv(cfg, s);
    } else if s.front.FDequeue? && s.requestQueue != [] {
      PopRequestKeepsInv(cfg, s);
    } else {
      IdleFrontKeepsInv(cfg, s, Apply(cfg, s, FrontStep));
    }
  }

  // ---- Backends

  /** Steps of a backend that neither take, run nor finish a work. */
  lemma IdleBackKeepsInv(cfg: Config, s: Pool, s': Pool, b: nat, back: Backend)
    requires Inv(cfg, s) && b < |s.backs| && s' == s.(backs := s.backs[b := back])
    requires !s.backs[b].BRun? && !back.BRun? && !s.backs[b].BExited?
    requires back.BWaiting? ==> s.workQueue == [] && !s.workStop
    requires back.BExited? ==> s.workStop
    ensures Inv(cfg, s')
  {
    ActiveFrame(cfg, s, s');
    IdlingKeepsWorks(cfg, s, s');
  }

  // A backend takes the head of the work queue.

  lemma TakeMovesWork(cfg: Config, s: Pool, s': Pool, b: nat)
    requires b < |s.backs| && !s.backs[b].BRun? && s.workQueue != []
    requires s' == s.(backs := s.backs[b := BRun(s.workQueue[0], s.workQueue[0].start)], workQueue := s.workQueue[1..])
    ensures forall v :: Running(s', v) <==> Running(s, v) || v == s.workQueue[0]
    ensures forall v :: v in s.workQueue <==> v in s'.workQueue || v == s.workQueue[0]
  {
    var w := s.workQueue[0];
    forall v ensures Running(s', v) <==> Running(s, v) || v == w {
      if Running(s, v) {
        var d :| 0 <= d < |s.backs| && s.backs[d].BRun? && s.backs[d].work == v;
        assert s'.backs[d] == s.backs[d];
      }
      assert s'.backs[b].work == w;
    }
    assert s.workQueue == [w] + s'.workQueue;
  }

  lemma TakeKeepsPlaces(cfg: Config, s: Pool, s': Pool, b: nat)
    requires Sized(cfg, s) && InvPlaces(cfg, s) && InvCount(cfg, s)
    requires b < |s.backs| && !s.backs[b].BRun? && s.workQueue != []
    requires s' == s.(backs := s.backs[b := BRun(s.workQueue[0], s.workQueue[0].start)], workQueue := s.workQueue[1..])
    ensures Sized(cfg, s') && InvPlaces(cfg, s') && InvCount(cfg, s')
  {
    TakeMovesWork(cfg, s, s', b);
  }

  lemma TakeKeepsWorks(cfg: Config, s: Pool, s': Pool, b: nat)
    requires Sized(cfg, s) && InvFront(cfg, s) && InvWorks(cfg, s)
    requires b < |s.backs| && !s.backs[b].BRun? && s.workQueue != []
    requires s' == s.(backs := s.backs[b := BRun(s.workQueue[0], s.workQueue[0].start)], workQueue := s.workQueue[1..])
    ensures Sized(cfg, s') && InvWorks(cfg, s')
  {
    var w := s.workQueue[0];
    assert !Running(s, w);
    LiveRange(cfg, s, w);
    TakeMovesWork(cfg, s, s', b);
    forall d | 0 <= d < |s.backs| && d != b && s'.backs[d].BRun? ensures s'.backs[d].work != w {
      assert Running(s, s.backs[d].work);
    }
    forall j | 0 <= j < |s'.workQueue|
      ensures Live(cfg, s', s'.workQueue[j]) && !Running(s', s'.workQueue[j]) {
      assert s'.workQueue[j] == s.workQueue[j + 1];
      assert s.workQueue[0] != s.workQueue[j + 1];
    }
  }

  lemma TakeKeepsCells(cfg: Config, s: Pool, s': Pool, b: nat)
    requires Sized(cfg, s) && InvFront(cfg, s) && InvWorks(cfg, s) && InvCells(cfg, s)
    requires b < |s.backs| && !s.backs[b].BRun? && s.workQueue != []
    requires s' == s.(backs := s.backs[b := BRun(s.workQueue[0], s.workQueue[0].start)], workQueue := s.workQueue[1..])
    ensures Sized(cfg, s') && InvCells(cfg, s')
  {
    assert s.workQueue[0] in s.workQueue;
    assert forall v :: v in s'.workQueue ==> v in s.workQueue;
  }

  lemma TakeKeepsInv(cfg: Config, s: Pool, b: nat)
    requires Inv(cfg, s) && b < |s.backs| && s.backs[b].BDequeue? && s.workQueue != []
    ensures Inv(cfg, Apply(cfg, s, BackStep(b)))
  {
    var s' := ApplyBack(cfg, s, b);
    TakeKeepsWorks(cfg, s, s', b);
    TakeKeepsPlaces(cfg, s, s', b);
    TakeKeepsCells(cfg, s, s', b);
    TakeKeepsRest(cfg, s, s', b);
  }

  lemma TakeKeepsRest(cfg: Config, s: Pool, s': Pool, b: nat)
    requires Shaped(cfg, s) && InvQueue(cfg, s) && InvFront(cfg, s) && InvWorks(cfg, s)
    requires InvActive(cfg, s) && InvWait(cfg, s)
    requires b < |s.backs| && s.backs[b].BDequeue? && s.workQueue != []
    requires s' == s.(backs := s.backs[b := BRun(s.workQueue[0], s.workQueue[0].start)], workQueue := s.workQueue[1..])
    ensures Shaped(cfg, s') && InvQueue(cfg, s') && InvFront(cfg, s') && InvActive(cfg, s') && InvWait(cfg, s')
  {
    assert !Running(s, s.workQueue[0]);
    LiveRange(cfg, s, s.workQueue[0]);
    ActiveFrame(cfg, s, s');
  }

  // A backend stores one cell.

  /** What storing a cell changes: the index of the backend and one cell of its request. */
  ghost predicate StoresCell(s: Pool, s': Pool, b: nat, value: int)
    requires b < |s.backs| && s.backs[b].BRun? && s.backs[b].work.req < |s.reqs| && s.backs[b].idx >= 0
  {
    var w, idx := s.backs[b].work, s.backs[b].idx;
    s' == s.(backs := s.backs[b := BRun(w, idx + 1)],
             reqs := s.reqs[w.req := s.reqs[w.req].(c := s.reqs[w.req].c[idx := value])])
  }

  lemma CellStores(cfg: Config, s: Pool, b: nat) returns (value: int)
    requires Shaped(cfg, s) && b < |s.backs| && s.backs[b].BRun? && s.backs[b].idx <= s.backs[b].work.end
    ensures StoresCell(s, ApplyCell(cfg, s, b), b, value)
    ensures var w := s.backs[b].work; value == CellValue(cfg.script[w.req].a, s.reqs[w.req].bt, cfg.n, s.backs[b].idx)
  {
    var w := s.backs[b].work;
    value := CellValue(cfg.script[w.req].a, s.reqs[w.req].bt, cfg.n, s.backs[b].idx);
  }

  lemma CellKeepsQueued(cfg: Config, s: Pool, s': Pool, b: nat, value: int)
    requires Shaped(cfg, s) && InvFront(cfg, s) && InvWorks(cfg, s) && CellsQueued(cfg, s)
    requires b < |s.backs| && s.backs[b].BRun? && s.backs[b].idx <= s.backs[b].work.end && StoresCell(s, s', b, value)
    ensures Sized(cfg, s') && CellsQueued(cfg, s')
  {
    var w, idx := s.backs[b].work, s.backs[b].idx;
    forall v, x: nat | v in s'.workQueue && Live(cfg, s', v) && v.start <= x <= v.end
      ensures x !in s'.reqs[v.req].c {
      assert Live(cfg, s, v);
      assert Running(s, w);
      if v.req == w.req && x == idx {
        LiveDisjoint(cfg, s, v, w, x);
      }
    }
  }

  lemma CellKeepsRunning(cfg: Config, s: Pool, s': Pool, b: nat, value: int)
    requires Shaped(cfg, s) && InvFront(cfg, s) && InvWorks(cfg, s) && CellsRunning(cfg, s)
    requires b < |s.backs| && s.backs[b].BRun? && s.backs[b].idx <= s.backs[b].work.end && StoresCell(s, s', b, value)
    ensures Sized(cfg, s') && CellsRunning(cfg, s')
  {
    var w, idx := s.backs[b].work, s.backs[b].idx;
    forall d, x: nat | 0 <= d < |s.backs| && s'.backs[d].BRun? && s'.backs[d].work.start <= x <= s'.backs[d].work.end
      ensures x in s'.reqs[s'.backs[d].work.req].c <==> x < s'.backs[d].idx {
      if d != b && s.backs[d].work.req == w.req && x == idx {
        LiveDisjoint(cfg, s, s.backs[d].work, w, x);
      }
    }
  }

  lemma CellKeepsCells(cfg: Config, s: Pool, s': Pool, b: nat, value: int)
    requires Shaped(cfg, s) && InvFront(cfg, s) && InvWorks(cfg, s) && InvCells(cfg, s)
    requires b < |s.backs| && s.backs[b].BRun? && s.backs[b].idx <= s.backs[b].work.end && StoresCell(s, s', b, value)
    requires var w := s.backs[b].work; value == CellValue(cfg.script[w.req].a, s.reqs[w.req].bt, cfg.n, s.backs[b].idx)
    ensures Sized(cfg, s') && InvCells(cfg, s')
  {
    LiveRange(cfg, s, s.backs[b].work);
    CellKeepsQueued(cfg, s, s', b, value);
    CellKeepsRunning(cfg, s, s', b, value);
  }

  lemma CellKeepsWorks(cfg: Config, s: Pool, s': Pool, b: nat)
    requires Sized(cfg, s) && InvFront(cfg, s) && InvWorks(cfg, s) && InvPlaces(cfg, s) && InvCount(cfg, s)
    requires b < |s.backs| && s.backs[b].BRun? && s.backs[b].idx <= s.backs[b].work.end
    requires s'.backs == s.backs[b := BRun(s.backs[b].work, s.backs[b].idx + 1)] && s'.workQueue == s.workQueue
    requires s'.front == s.front && Popped(cfg, s') == Popped(cfg, s)
    requires |s'.reqs| == |s.reqs| && forall r :: 0 <= r < |s.reqs| ==> s'.reqs[r] == s.reqs[r].(c := s'.reqs[r].c)
    ensures Sized(cfg, s') && InvFront(cfg, s') && InvWorks(cfg, s') && InvPlaces(cfg, s') && InvCount(cfg, s')
  {
    forall v ensures Running(s', v) <==> Running(s, v) {
      if Running(s, v) {
        var d :| 0 <= d < |s.backs| && s.backs[d].BRun? && s.backs[d].work == v;
        assert s'.backs[d].BRun? && s'.backs[d].work == v;
      }
    }
    assert forall v :: Live(cfg, s, v) <==> Live(cfg, s', v);
  }

  lemma CellKeepsRest(cfg: Config, s: Pool, s': Pool, b: nat, value: int)
    requires Shaped(cfg, s) && InvQueue(cfg, s) && InvActive(cfg, s) && InvWait(cfg, s)
    requires b < |s.backs| && s.backs[b].BRun? && s.backs[b].idx <= s.backs[b].work.end && StoresCell(s, s', b, value)
    ensures Shaped(cfg, s') && InvQueue(cfg, s') && InvActive(cfg, s') && InvWait(cfg, s')
  {
    ActiveFrame(cfg, s, s');
  }

  lemma StoredKeepsInv(cfg: Config, s: Pool, s': Pool, b: nat, value: int)
    requires Inv(cfg, s) && b < |s.backs| && s.backs[b].BRun? && s.backs[b].idx <= s.backs[b].work.end
    requires StoresCell(s, s', b, value)
    requires var w := s.backs[b].work; value == CellValue(cfg.script[w.req].a, s.reqs[w.req].bt, cfg.n, s.backs[b].idx)
    ensures Inv(cfg, s')
  {
    CellKeepsCells(cfg, s, s', b, value);
    CellKeepsWorks(cfg, s, s', b);
    CellKeepsRest(cfg, s, s', b, value);
  }

  lemma CellKeepsInv(cfg: Config, s: Pool, b: nat)
    requires Inv(cfg, s) && b < |s.backs| && s.backs[b].BRun? && s.backs[b].idx <= s.backs[b].work.end
    ensures Inv(cfg, ApplyCell(cfg, s, b))
  {
    var value := CellStores(cfg, s, b);
    StoredKeepsInv(cfg, s, ApplyCell(cfg, s, b), b, value);
  }

  // A backend finishes its work.

  /** What finishing changes about the works: one of them is freed. */
  ghost predicate FreesWork(s: Pool, s': Pool, b: nat)
    requires b < |s.backs| && s.backs[b].BRun? && s.backs[b].work.req < |s.reqs|
  {
    var w := s.backs[b].work;
    && s'.workQueue == s.workQueue && s'.backs == s.backs[b := BTop]
    && |s'.reqs| == |s.reqs|
    && (forall r :: 0 <= r < |s.reqs| && r != w.req ==> s'.reqs[r] == s.reqs[r])
    && s'.reqs[w.req].freedWorks == s.reqs[w.req].freedWorks + {w.item}
    && s'.reqs[w.req].ready == s.reqs[w.req].ready && s'.reqs[w.req].bt == s.reqs[w.req].bt
    && s'.reqs[w.req].created == s.reqs[w.req].created && s'.reqs[w.req].c == s.reqs[w.req].c
  }

  lemma FinishKeepsWorks(cfg: Config, s: Pool, s': Pool, b: nat)
    requires Sized(cfg, s) && InvWorks(cfg, s) && InvPlaces(cfg, s)
    requires b < |s.backs| && s.backs[b].BRun? && FreesWork(s, s', b)
    ensures Sized(cfg, s') && InvWorks(cfg, s') && InvPlaces(cfg, s')
  {
    var w := s.backs[b].work;
    assert Running(s, w);
    forall v ensures Running(s', v) <==> Running(s, v) && v != w {
      if Running(s, v) && v != w {
        var d :| 0 <= d < |s.backs| && s.backs[d].BRun? && s.backs[d].work == v;
        assert s'.backs[d] == s.backs[d];
      }
      if Running(s', v) {
        var d :| 0 <= d < |s.backs| && s'.backs[d].BRun? && s'.backs[d].work == v;
        assert s.backs[d] == s'.backs[d] && d != b;
      }
    }
    assert forall v :: Live(cfg, s, v) && v != w ==> Live(cfg, s', v);
  }

  lemma FinishKeepsCells(cfg: Config, s: Pool, s': Pool, b: nat)
    requires Sized(cfg, s) && InvWorks(cfg, s) && InvCells(cfg, s)
    requires b < |s.backs| && s.backs[b].BRun? && s.backs[b].idx > s.backs[b].work.end && FreesWork(s, s', b)
    ensures Sized(cfg, s') && InvCells(cfg, s')
  {
    assert forall v :: Live(cfg, s', v) ==> Live(cfg, s, v);
  }

  lemma FinishFreesWork(cfg: Config, s: Pool, b: nat)
    requires Shaped(cfg, s) && b < |s.backs| && s.backs[b].BRun?
    ensures var s' := ApplyFinish(cfg, s, b); FreesWork(s, s', b)
    ensures var s', r := ApplyFinish(cfg, s, b), s.backs[b].work.req;
      && s'.reqs[r].remaining == s.reqs[r].remaining - 1
      && (s'.reqs[r].freed <==> s.reqs[r].freed || s'.reqs[r].remaining == 0)
      && s'.front == s.front && s'.requestQueue == s.requestQueue
      && Popped(cfg, s') == Popped(cfg, s)
  {
  }

  lemma FinishKeepsCount(cfg: Config, s: Pool, s': Pool, b: nat)
    requires Sized(cfg, s) && InvFront(cfg, s) && InvWorks(cfg, s) && InvCount(cfg, s)
    requires b < |s.backs| && s.backs[b].BRun? && FreesWork(s, s', b)
    requires var r := s.backs[b].work.req;
      && s'.reqs[r].remaining == s.reqs[r].remaining - 1
      && (s'.reqs[r].freed <==> s.reqs[r].freed || s'.reqs[r].remaining == 0)
      && s'.front == s.front && Popped(cfg, s') == Popped(cfg, s)
    ensures Sized(cfg, s') && InvFront(cfg, s') && InvCount(cfg, s')
  {
    OneMoreToFree(cfg, s, s.backs[b].work);
  }

  lemma FinishKeepsActive(cfg: Config, s: Pool, b: nat)
    requires Shaped(cfg, s) && InvFront(cfg, s) && InvWorks(cfg, s) && InvCount(cfg, s) && InvActive(cfg, s)
    requires b < |s.backs| && s.backs[b].BRun?
    ensures var s' := ApplyFinish(cfg, s, b); Sized(cfg, s') && InvActive(cfg, s') && s.active > 0
  {
    var s', r := ApplyFinish(cfg, s, b), s.backs[b].work.req;
    OneMoreToFree(cfg, s, s.backs[b].work);
    UnfinishedAfter(cfg, s, s', r);
  }

  /** One request may be finished, and active_requests counts it. */
  lemma UnfinishedAfter(cfg: Config, s: Pool, s': Pool, r: nat)
    requires Sized(cfg, s) && InvActive(cfg, s) && r in Unfinished(cfg, s)
    requires |s'.reqs| == |s.reqs| && Activated(cfg, s') == Activated(cfg, s)
    requires forall u :: 0 <= u < |s.reqs| && u != r ==> s'.reqs[u].freed == s.reqs[u].freed
    requires s'.active == if s'.reqs[r].freed then s.active - 1 else s.active
    ensures Sized(cfg, s') && InvActive(cfg, s') && s.active > 0
  {
    var before, after := Unfinished(cfg, s), Unfinished(cfg, s');
    assert after == if s'.reqs[r].freed then before - {r} else before;
  }

  lemma FinishKeepsInv(cfg: Config, s: Pool, b: nat)
    requires Inv(cfg, s) && b < |s.backs| && s.backs[b].BRun? && s.backs[b].idx > s.backs[b].work.end
    ensures Inv(cfg, Apply(cfg, s, BackStep(b)))
  {
    var s' := ApplyFinish(cfg, s, b);
    FinishFreesWork(cfg, s, b);
    FinishKeepsCount(cfg, s, s', b);
    FinishKeepsActive(cfg, s, b);
    FinishKeepsWorks(cfg, s, s', b);
    FinishKeepsCells(cfg, s, s', b);
    FinishKeepsRest(cfg, s, b);
  }

  lemma FinishKeepsRest(cfg: Config, s: Pool, b: nat)
    requires Shaped(cfg, s) && InvQueue(cfg, s) && InvWait(cfg, s) && s.active > 0
    requires b < |s.backs| && s.backs[b].BRun?
    ensures var s' := ApplyFinish(cfg, s, b); Shaped(cfg, s') && InvQueue(cfg, s') && InvWait(cfg, s')
  {
  }

  lemma BackKeepsInv(cfg: Config, s: Pool, b: nat)
    requires Inv(cfg, s) && Enabled(cfg, s, BackStep(b))
    ensures Inv(cfg, Apply(cfg, s, BackStep(b)))
  {
    if s.backs[b].BRun? {
      if s.backs[b].idx <= s.backs[b].work.end {
        CellKeepsInv(cfg, s, b);
      } else {
        FinishKeepsInv(cfg, s, b);
      }
    } else if s.backs[b].BDequeue? && s.workQueue != [] {
      TakeKeepsInv(cfg, s, b);
    } else {
      var s' := ApplyBack(cfg, s, b);
      IdleBackKeepsInv(cfg, s, s', b, s'.backs[b]);
    }
  }

  // ---- Every step, every run

  lemma SpuriousMainKeepsInv(cfg: Config, s: Pool)
    requires Inv(cfg, s) && s.main.MWaiting?
    ensures Inv(cfg, Apply(cfg, s, SpuriousMain))
  {
    var s' := Apply(cfg, s, SpuriousMain);
    IdlingKeepsWorks(cfg, s, s');
    ActiveFrame(cfg, s, s');
  }

  /** Any step of any thread, spurious wakeups included, keeps the invariant. */
  lemma StepKeepsInv(cfg: Config, s: Pool, step: Step)
    requires Inv(cfg, s) && Enabled(cfg, s, step)
    ensures Inv(cfg, Apply(cfg, s, step))
  {
    match step
    case MainStep => MainKeepsInv(cfg, s);
    case FrontStep => FrontKeepsInv(cfg, s);
    case BackStep(b) => BackKeepsInv(cfg, s, b);
    case SpuriousMain => SpuriousMainKeepsInv(cfg, s);
    case SpuriousFront => IdleFrontKeepsInv(cfg, s, Apply(cfg, s, step));
    case SpuriousBack(b) => IdleBackKeepsInv(cfg, s, Apply(cfg, s, step), b, BDequeue);
  }

  lemma NextKeepsInv(cfg: Config, s: Pool, step: Step, s': Pool)
    requires Inv(cfg, s) && Next(cfg, s, step, s')
    ensures Inv(cfg, s')
  {
    StepKeepsInv(cfg, s, step);
  }

  lemma {:induction false} RunKeepsInv(cfg: Config, states: seq<Pool>, steps: seq<Step>, k: nat)
    requires cfg.Valid() && Run(cfg, states, steps) && k < |states|
    ensures Inv(cfg, states[k])
  {
    if k == 0 {
      InitInv(cfg);
    } else {
      RunKeepsInv(cfg, states, steps, k - 1);
      NextKeepsInv(cfg, states[k - 1], steps[k - 1], states[k - 1 + 1]);
    }
  }
}
