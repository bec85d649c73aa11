/** The loops that the threads of hw4/tpool.c run over arrays and queues, tied to the
    functions the transition system of PoolMachine uses. */
module PoolThreads {
  import opened MatrixProduct
  import opened WorkDivision
  import opened PoolMachine
  import opened LinkedQueue

  /** The backend's loop over the cells of one work: it stores the product entries of
      cells start to end and touches no other cell. */
  method RunWork(n: nat, a: array2<int>, bt: array2<int>, c: array2<int>, start: int, end: int)
    requires a.Length0 == a.Length1 == n && bt.Length0 == bt.Length1 == n && c.Length0 == c.Length1 == n
    requires c != a && c != bt && 0 <= start && end < n * n
    modifies c
    ensures forall x, y :: 0 <= x < n && 0 <= y < n ==>
      c[x, y] == if start <= x * n + y <= end then CellValue(Rows(a), Rows(bt), n, CellAt(n, x, y)) else old(c[x, y])
  {
    var idx := start;
    while idx <= end
      invariant start <= idx && (start <= end + 1 ==> idx <= end + 1)
      invariant forall x, y :: 0 <= x < n && 0 <= y < n ==>
        c[x, y] == if start <= x * n + y < idx && x * n + y <= end
                   then CellValue(Rows(a), Rows(bt), n, CellAt(n, x, y)) else old(c[x, y])
    {
      CellInMatrix(n, idx);
      var row, col := idx / n, idx % n;
      var value := Calculation(n, a, row, bt, col);
      assert value == CellValue(Rows(a), Rows(bt), n, idx);
      c[row, col] := value;
      SameCell(n, idx);
      idx := idx + 1;
    }
  }

  /** The flat index of a cell. */
  function CellAt(n: nat, x: nat, y: nat): (idx: nat)
    requires x < n && y < n
    ensures idx < n * n && idx / n == x && idx % n == y
  {
    CellIndex(n, x, y);
    x * n + y
  }

  lemma SameCell(n: nat, idx: nat)
    requires idx < n * n
    ensures forall x, y :: 0 <= x < n && 0 <= y < n ==> (CellAt(n, x, y) == idx <==> x == idx / n && y == idx % n)
  {
    CellInMatrix(n, idx);
    assert idx == n * (idx / n) + idx % n;
  }

  /** The works the division makes for request r, in order. */
  ghost function WorksOf(r: nat, total: nat, works: nat): seq<Work>
    requires works > 0
  {
    seq(Created(total, works), i requires 0 <= i =>
      Work(r, i, Start(total, works, i), Start(total, works, i + 1) - 1))
  }

  /** The frontend's loop that cuts a request and enqueues the pieces. The guard, the
      early exit and the clamp are those of tpool.c; num_works is read once. */
  method DivideRequest(queue: Queue<Work>, r: nat, n: nat, numWorks: nat)
    requires queue.Valid() && numWorks > 0
    modifies queue, queue.spine
    ensures queue.Valid() && queue.stop == old(queue.stop)
    ensures queue.Contents() == old(queue.Contents()) + WorksOf(r, n * n, numWorks)
  {
    DivideCells(queue, r, n * n, numWorks);
  }

  method DivideCells(queue: Queue<Work>, r: nat, total: nat, numWorks: nat)
    requires queue.Valid() && numWorks > 0
    modifies queue, queue.spine
    ensures queue.Valid() && queue.stop == old(queue.stop)
    ensures queue.Contents() == old(queue.Contents()) + WorksOf(r, total, numWorks)
  {
    var start := 0;
    var i := 0;
    ghost var made := WorksOf(r, total, numWorks);
    StartAtEnd(total, numWorks);
    while i < numWorks
      invariant 0 <= i <= |made| && start == Start(total, numWorks, i)
      invariant queue.Valid() && queue.stop == old(queue.stop)
      invariant fresh(set x | x in queue.spine && x !in old(queue.spine))
      invariant queue.Contents() == old(queue.Contents()) + made[..i]
      decreases numWorks - i
    {
      NextPiece(total, numWorks, i);
      if start >= total {
        break;
      }
      start := EnqueuePiece(queue, r, total, numWorks, i, start);
      assert made[..i + 1] == made[..i] + [made[i]];
      i := i + 1;
    }
    if i < numWorks {
      NextPiece(total, numWorks, i);
    }
    assert made[..i] == made;
  }

  /** One pass of the loop behind the test for the early exit. */
  method EnqueuePiece(queue: Queue<Work>, r: nat, total: nat, numWorks: nat, i: nat, start: int) returns (next: int)
    requires queue.Valid() && 0 < numWorks && i < Created(total, numWorks) && start == Start(total, numWorks, i)
    modifies queue, queue.spine
    ensures queue.Valid() && queue.stop == old(queue.stop) && next == Start(total, numWorks, i + 1)
    ensures fresh(set x | x in queue.spine && x !in old(queue.spine))
    ensures queue.Contents() == old(queue.Contents()) + [WorksOf(r, total, numWorks)[i]]
  {
    NextPiece(total, numWorks, i);
    var end := EndOfPiece(total, numWorks, i, start);
    queue.Enqueue(Work(r, i, start, end));
    next := end + 1;
  }
}
