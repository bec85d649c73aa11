/** How the frontend of hw4/tpool.c cuts the total cells of a request into works. */
module WorkDivision {

  /** The size the loop gives to work i; the first total % works of them get one more. */
  function Share(total: nat, works: nat, i: nat): nat
    requires works > 0
  {
    total / works + (if i < total % works then 1 else 0)
  }

  /** The variable start when the loop reaches i, before any clamp. */
  function Start(total: nat, works: nat, i: nat): nat
    requires works > 0
  {
    if i == 0 then 0 else Start(total, works, i - 1) + Share(total, works, i - 1)
  }

  /** How many works the loop creates: it leaves early once start reaches the total. */
  function Created(total: nat, works: nat): nat {
    if works <= total then works else total
  }

  lemma {:induction false} StartClosedForm(total: nat, works: nat, i: nat)
    requires works > 0
    ensures Start(total, works, i) == i * (total / works) + (if i < total % works then i else total % works)
  {
    if i > 0 {
      StartClosedForm(total, works, i - 1);
      assert i * (total / works) == (i - 1) * (total / works) + total / works;
    }
  }

  lemma {:induction false} StartMonotone(total: nat, works: nat, i: nat, j: nat)
    requires works > 0 && i <= j
    ensures Start(total, works, i) <= Start(total, works, j)
    decreases j
  {
    if i < j {
      StartMonotone(total, works, i, j - 1);
    }
  }

  /** The works cover exactly [0, total), whatever the requested number of works. */
  lemma StartAtEnd(total: nat, works: nat)
    requires works > 0
    ensures Start(total, works, works) == total
    ensures Start(total, works, Created(total, works)) == total
  {
    StartClosedForm(total, works, works);
    assert works * (total / works) + total % works == total;
    if works > total {
      FewCells(total, works);
      StartClosedForm(total, works, total);
    }
  }

  lemma FewCells(total: nat, works: nat)
    requires total < works
    ensures total / works == 0 && total % works == total
  {
  }

  /** Every work that is created is nonempty and fits, so neither clamp changes it,
      and any two shares differ by at most one. */
  lemma SharesAreFair(total: nat, works: nat, i: nat, j: nat)
    requires works > 0 && i < Created(total, works) && j < Created(total, works)
    ensures 1 <= Share(total, works, i)
    ensures Share(total, works, i) <= Share(total, works, j) + 1
    ensures Start(total, works, i) < total
    ensures Start(total, works, i + 1) <= total
  {
    StartAtEnd(total, works);
    StartMonotone(total, works, i + 1, Created(total, works));
    if works > total {
      FewCells(total, works);
    } else {
      ManyCells(total, works);
    }
  }

  lemma ManyCells(total: nat, works: nat)
    requires 0 < works <= total
    ensures total / works >= 1
  {
    var q := total / works;
    assert total == works * q + total % works;
    assert works * q > 0;
  }

  /** Where the piece ends that starts at start, clamped to the matrix. */
  function EndOf(total: nat, works: nat, i: nat, start: int): int
    requires works > 0
  {
    var last := start + Share(total, works, i) - 1;
    if last >= total then total - 1 else last
  }

  /** The arithmetic at the top of the dividing loop. */
  method EndOfPiece(total: nat, works: nat, i: nat, start: int) returns (end: int)
    requires works > 0
    ensures end == EndOf(total, works, i, start)
  {
    var base, extra := total / works, total % works;
    var size := base + if i < extra then 1 else 0;
    end := start + size - 1;
    if end >= total {
      end := total - 1;
    }
  }

  /** The loop of the frontend stops early exactly when all works are created; until then the
      next piece is nonempty and inside the matrix. */
  lemma NextPiece(total: nat, works: nat, i: nat)
    requires works > 0 && i <= Created(total, works) && i < works
    ensures Start(total, works, i) >= total <==> i == Created(total, works)
    ensures i < Created(total, works) ==> Start(total, works, i) < Start(total, works, i + 1) <= total
    ensures i < Created(total, works) ==> EndOf(total, works, i, Start(total, works, i)) == Start(total, works, i + 1) - 1
  {
    StartAtEnd(total, works);
    if i < Created(total, works) {
      SharesAreFair(total, works, i, i);
    }
  }

  /** Each cell below `upto` starts belongs to a work. */
  lemma {:induction false} CellHasWork(total: nat, works: nat, upto: nat, cell: nat) returns (i: nat)
    requires works > 0 && cell < Start(total, works, upto)
    ensures i < upto && Start(total, works, i) <= cell < Start(total, works, i + 1)
  {
    if Start(total, works, upto - 1) <= cell {
      i := upto - 1;
    } else {
      i := CellHasWork(total, works, upto - 1, cell);
    }
  }

  predicate InWork(total: nat, works: nat, i: nat, cell: nat)
    requires works > 0
  {
    Start(total, works, i) <= cell < Start(total, works, i + 1)
  }

  /** Two different works have no cell in common. */
  lemma WorksDisjoint(total: nat, works: nat, i: nat, j: nat, cell: nat)
    requires works > 0
    requires InWork(total, works, i, cell) && InWork(total, works, j, cell)
    ensures i == j
  {
    if i < j {
      StartMonotone(total, works, i + 1, j);
    } else if j < i {
      StartMonotone(total, works, j + 1, i);
    }
  }

  /** The division is a partition: every cell of the matrix lies in exactly one created
      work, for every number of works main.c lets through. */
  lemma DivisionIsPartition(total: nat, works: nat, cell: nat)
    requires works > 0
    ensures cell < total <==> exists i :: 0 <= i < Created(total, works) && InWork(total, works, i, cell)
    ensures forall i, j :: 0 <= i && 0 <= j && InWork(total, works, i, cell) && InWork(total, works, j, cell) ==> i == j
  {
    StartAtEnd(total, works);
    if cell < total {
      var i := CellHasWork(total, works, Created(total, works), cell);
      assert InWork(total, works, i, cell);
    }
    forall i | 0 <= i < Created(total, works) && InWork(total, works, i, cell) ensures cell < total {
      SharesAreFair(total, works, i, i);
    }
    forall i, j | 0 <= i && 0 <= j && InWork(total, works, i, cell) && InWork(total, works, j, cell) ensures i == j {
      WorksDisjoint(total, works, i, j, cell);
    }
  }
}
