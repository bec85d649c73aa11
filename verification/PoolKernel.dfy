/** The pool of hw4/tpool.c as it is programmed: two linked queues, counters and request
    records that the threads change in place. Each method is one step of PoolMachine. */
module PoolKernel {
  import opened MatrixProduct
  import opened WorkDivision
  import opened LinkedQueue
  import opened PoolMachine
  import opened PoolInvariant

  class Kernel {
    const cfg: Config
    const requestQueue: Queue<nat>
    const workQueue: Queue<Work>
    const reqs: array<Request>
    const backs: array<Backend>
    var main: Main
    var front: Frontend
    var active: int

    ghost predicate Valid()
      reads this, requestQueue, requestQueue.spine, workQueue, workQueue.spine
    {
      requestQueue.Valid() && workQueue.Valid() && cfg.Valid()
    }

    ghost function Abs(): Pool
      reads this, requestQueue, requestQueue.spine, workQueue, workQueue.spine, reqs, backs
    {
      Pool(main, front, backs[..], reqs[..], requestQueue.Contents(), workQueue.Contents(),
           requestQueue.stop, workQueue.stop, active)
    }

    /** tpool_init; the threads are at the heads of their loops. */
    constructor (input: Config)
      requires input.Valid()
      ensures Valid() && cfg == input && Abs() == Init(input) && Inv(input, Abs())
      ensures fresh(requestQueue) && fresh(workQueue) && fresh(reqs) && fresh(backs)
    {
      cfg := input;
      requestQueue := new Queue();
      workQueue := new Queue();
      var records := new Request[|input.script|](_ => Request(false, [], 0, 0, {}, map[], false));
      var threads := new Backend[input.threads](_ => BTop);
      assert records[..] == Init(input).reqs && threads[..] == Init(input).backs;
      reqs, backs := records, threads;
      main, front, active := MSubmit(0), FTop, 0;
      new;
      InitInv(input);
    }

    // ---- Wakeups

    /** pthread_cond_broadcast on the work queue. */
    method WakeBackends()
      modifies backs
      ensures backs[..] == WakeAll(old(backs[..]))
    {
      for b := 0 to backs.Length
        invariant forall d :: 0 <= d < backs.Length ==> backs[d] == if d < b then Wake(old(backs[d])) else old(backs[d])
      {
        if backs[b].BWaiting? {
          backs[b] := BDequeue;
        }
      }
    }

    /** pthread_cond_broadcast on the request queue. */
    method WakeFrontend()
      modifies this`front
      ensures front == WakeFront(old(front))
    {
      if front.FWaiting? {
        front := FDequeue;
      }
    }

    // ---- main

    /** tpool_request, tpool_synchronize and tpool_destroy, step by step. */
    method MainThread()
      requires Valid() && Inv(cfg, Abs()) && Enabled(cfg, Abs(), MainStep)
      modifies this, requestQueue, requestQueue.spine, workQueue, backs
      ensures Valid() && Next(cfg, old(Abs()), MainStep, Abs()) && Inv(cfg, Abs())
    {
      StepKeepsInv(cfg, Abs(), MainStep);
      if main.MSubmit? || main.MEnqueue? {
        Submit();
      } else if main.MSync? {
        Synchronize();
      } else {
        Destroy();
      }
    }

    /** The request is counted before it can be seen in the queue. */
    method Submit()
      requires Valid() && Shaped(cfg, Abs()) && (main.MSubmit? || main.MEnqueue?)
      modifies this`main, this`front, this`active, requestQueue, requestQueue.spine
      ensures Valid() && Abs() == ApplyMain(cfg, old(Abs()))
    {
      if main.MEnqueue? {
        EnqueueRequest(main.k);
        main := MSubmit(main.k + 1);
      } else if main.k < |cfg.script| {
        active := active + 1;
        main := MEnqueue(main.k);
      } else {
        main := MSync;
      }
    }

    /** enqueue_request. */
    method EnqueueRequest(r: nat)
      requires Valid()
      modifies this`front, requestQueue, requestQueue.spine
      ensures Valid()
      ensures Abs() == old(Abs().(requestQueue := Abs().requestQueue + [r], front := WakeFront(front)))
    {
      requestQueue.Enqueue(r);
      WakeFrontend();
    }

    /** The condition of the loop in tpool_synchronize. */
    method Synchronize()
      requires Valid() && Shaped(cfg, Abs()) && main.MSync?
      modifies this`main
      ensures Valid() && Abs() == ApplyMain(cfg, old(Abs()))
    {
      if active > 0 || workQueue.size > 0 || requestQueue.size > 0 {
        main := MWaiting;
      } else {
        main := MStopRequests;
      }
    }

    method Destroy()
      requires Valid() && Shaped(cfg, Abs()) && Enabled(cfg, Abs(), MainStep)
      requires main.MStopRequests? || main.MStopWorks? || main.MJoin?
      modifies this`main, this`front, requestQueue`stop, workQueue`stop, backs
      ensures Valid() && Abs() == ApplyMain(cfg, old(Abs()))
    {
      if main.MStopRequests? {
        StopRequests();
      } else if main.MStopWorks? {
        StopWorks();
      } else {
        main := MDone;
      }
    }

    method StopRequests()
      requires Valid() && main.MStopRequests?
      modifies this`main, this`front, requestQueue`stop
      ensures Valid()
      ensures Abs() == old(Abs().(main := MStopWorks, requestStop := true, front := WakeFront(front)))
    {
      requestQueue.Stop();
      WakeFrontend();
      main := MStopWorks;
    }

    method StopWorks()
      requires Valid() && main.MStopWorks?
      modifies this`main, workQueue`stop, backs
      ensures Valid()
      ensures Abs() == old(Abs().(main := MJoin, workStop := true, backs := WakeAll(backs[..])))
    {
      workQueue.Stop();
      WakeBackends();
      main := MJoin;
    }

    // ---- The frontend

    method FrontThread()
      requires Valid() && Inv(cfg, Abs()) && Enabled(cfg, Abs(), FrontStep)
      modifies this`front, requestQueue, workQueue, workQueue.spine, reqs, backs
      ensures Valid() && Next(cfg, old(Abs()), FrontStep, Abs()) && Inv(cfg, Abs())
    {
      StepKeepsInv(cfg, Abs(), FrontStep);
      if front.FTop? {
        FrontLoopHead();
      } else if front.FDequeue? {
        TakeRequest();
      } else if front.FOpen? {
        OpenRequest();
      } else {
        DividePass();
      }
    }

    /** The test at the head of frontend_thread_func. */
    method FrontLoopHead()
      requires Valid() && Shaped(cfg, Abs()) && front.FTop?
      modifies this`front
      ensures Valid() && Abs() == ApplyFront(cfg, old(Abs()))
    {
      front := if requestQueue.stop && requestQueue.size == 0 then FExited else FDequeue;
    }

    /** dequeue_request. */
    method TakeRequest()
      requires Valid() && Shaped(cfg, Abs()) && front.FDequeue?
      modifies this`front, requestQueue
      ensures Valid() && Abs() == ApplyFront(cfg, old(Abs()))
    {
      if requestQueue.size == 0 && !requestQueue.stop {
        front := FWaiting;
        return;
      }
      var r := requestQueue.Dequeue();
      front := if r.None? then FTop else FOpen(r.value);
    }

    /** remaining_works is set and b transposed. */
    method OpenRequest()
      requires Valid() && Shaped(cfg, Abs()) && front.FOpen?
      modifies this`front, reqs
      ensures Valid() && Abs() == ApplyFront(cfg, old(Abs()))
    {
      var r := front.req;
      reqs[r] := reqs[r].(ready := true, remaining := cfg.script[r].numWorks, bt := Transpose(cfg.script[r].b, cfg.n));
      front := FDivide(r, 0, 0);
    }

    /** One pass of the loop that divides a request. */
    method DividePass()
      requires Valid() && Shaped(cfg, Abs()) && front.FDivide?
      modifies this`front, workQueue, workQueue.spine, reqs, backs
      ensures Valid() && Abs() == ApplyDivide(cfg, old(Abs()))
    {
      var r, i, start := front.req, front.i, front.start;
      var works, total := cfg.script[r].numWorks, cfg.Total();
      if i < works && start < total {
        var end := EndOfPiece(total, works, i, start);
        CreateWork(Work(r, i, start, end));
        front := FDivide(r, i + 1, end + 1);
      } else {
        front := FTop;
      }
    }

    /** A work is created and queued. */
    method CreateWork(w: Work)
      requires Valid() && w.req < reqs.Length
      modifies workQueue, workQueue.spine, reqs, backs
      ensures Valid()
      ensures Abs() == old(Abs().(workQueue := Abs().workQueue + [w], backs := WakeAll(backs[..]),
        reqs := reqs[..][w.req := reqs[w.req].(created := reqs[w.req].created + 1)]))
    {
      reqs[w.req] := reqs[w.req].(created := reqs[w.req].created + 1);
      EnqueueWork(w);
    }

    /** enqueue_work. */
    method EnqueueWork(w: Work)
      requires Valid()
      modifies workQueue, workQueue.spine, backs
      ensures Valid()
      ensures Abs() == old(Abs().(workQueue := Abs().workQueue + [w], backs := WakeAll(backs[..])))
    {
      workQueue.Enqueue(w);
      WakeBackends();
    }

    // ---- The backends

    method BackThread(b: nat)
      requires Valid() && Inv(cfg, Abs()) && Enabled(cfg, Abs(), BackStep(b))
      modifies this`main, this`active, workQueue, reqs, backs
      ensures Valid() && Next(cfg, old(Abs()), BackStep(b), Abs()) && Inv(cfg, Abs())
    {
      StepKeepsInv(cfg, Abs(), BackStep(b));
      if backs[b].BTop? {
        BackLoopHead(b);
      } else if backs[b].BDequeue? {
        TakeWork(b);
      } else if backs[b].idx <= backs[b].work.end {
        StoreCell(b);
      } else {
        FinishWork(b);
      }
    }

    /** The test at the head of backend_thread_func. */
    method BackLoopHead(b: nat)
      requires Valid() && Shaped(cfg, Abs()) && b < backs.Length && backs[b].BTop?
      modifies backs
      ensures Valid() && Abs() == ApplyBack(cfg, old(Abs()), b)
    {
      backs[b] := if workQueue.stop && workQueue.size == 0 then BExited else BDequeue;
    }

    /** dequeue_work. */
    method TakeWork(b: nat)
      requires Valid() && Shaped(cfg, Abs()) && b < backs.Length && backs[b].BDequeue?
      modifies workQueue, backs
      ensures Valid() && Abs() == ApplyBack(cfg, old(Abs()), b)
    {
      if workQueue.size == 0 && !workQueue.stop {
        backs[b] := BWaiting;
        return;
      }
      var w := workQueue.Dequeue();
      backs[b] := if w.None? then BTop else BRun(w.value, w.value.start);
    }

    /** One pass of the loop over the cells of a work. */
    method StoreCell(b: nat)
      requires Valid() && Shaped(cfg, Abs()) && b < backs.Length && backs[b].BRun? && backs[b].idx <= backs[b].work.end
      modifies reqs, backs
      ensures Valid() && Abs() == ApplyCell(cfg, old(Abs()), b)
    {
      var w, idx := backs[b].work, backs[b].idx;
      CellInMatrix(cfg.n, idx);
      var value := DotOfRows(cfg.n, cfg.script[w.req].a[idx / cfg.n], reqs[w.req].bt[idx % cfg.n]);
      reqs[w.req] := reqs[w.req].(c := reqs[w.req].c[idx := value]);
      backs[b] := BRun(w, idx + 1);
    }

    /** The section under sync_mutex after the last cell. */
    method FinishWork(b: nat)
      requires Valid() && Shaped(cfg, Abs()) && b < backs.Length && backs[b].BRun?
      modifies this`main, this`active, reqs, backs
      ensures Valid() && Abs() == ApplyFinish(cfg, old(Abs()), b)
    {
      var w := backs[b].work;
      reqs[w.req] := reqs[w.req].(remaining := reqs[w.req].remaining - 1, freedWorks := reqs[w.req].freedWorks + {w.item});
      if reqs[w.req].remaining == 0 {
        active := active - 1;
        reqs[w.req] := reqs[w.req].(freed := true);
        if active == 0 && main.MWaiting? {
          main := MSync;
        }
      }
      backs[b] := BTop;
    }
  }

  /** The accumulating loop of main.c. */
  method DotOfRows(n: nat, a: seq<int>, b: seq<int>) returns (res: int)
    requires |a| == n && |b| == n
    ensures res == Dot(a, b, n)
  {
    res := 0;
    for i := 0 to n
      invariant res == Dot(a, b, i)
    {
      res := res + a[i] * b[i];
    }
  }
}
