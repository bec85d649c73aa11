/** The containers of hw2/test.c: a circular queue of nodes and an array of friends with holes. */
module ReferenceLists {
  import opened Options

  const CAPACITY := 64
  const MAX_CMD_NUM := 512

  class NodeQueue<T(0)> {
    const elements: array<T>
    var size: nat
    var begin: nat
    var end: nat

    ghost predicate Valid()
      reads this
    {
      elements.Length == CAPACITY && begin < CAPACITY && size <= CAPACITY && end == (begin + size) % CAPACITY
    }

    ghost function Contents(): (r: seq<T>)
      reads this, elements
      requires Valid()
      ensures |r| == size
    {
      seq(size, i requires 0 <= i < size reads this, elements requires elements.Length == CAPACITY =>
        elements[(begin + i) % CAPACITY])
    }

    /** FqNew */
    constructor ()
      ensures Valid() && fresh(elements) && Contents() == []
    {
      elements := new T[CAPACITY];
      size, begin, end := 0, 0, 0;
    }

    /** FqPush: refused only when the queue is full. */
    method Push(x: T) returns (ok: bool)
      requires Valid()
      modifies this`size, this`end, elements
      ensures Valid() && (ok <==> |old(Contents())| < CAPACITY)
      ensures Contents() == if ok then old(Contents()) + [x] else old(Contents())
    {
      if size == CAPACITY {
        return false;
      }
      elements[end] := x;
      end := (end + 1) % CAPACITY;
      size := size + 1;
      ok := true;
    }

    /** FqPop compares begin with end: besides the empty queue it also refuses the full
        one. It succeeds exactly when 0 < size < capacity. */
    method Pop() returns (ok: bool)
      requires Valid()
      modifies this`size, this`begin
      ensures Valid() && (ok <==> 0 < |old(Contents())| < CAPACITY)
      ensures Contents() == if ok then old(Contents())[1..] else old(Contents())
    {
      if begin == end {
        return false;
      }
      begin := (begin + 1) % CAPACITY;
      size := size - 1;
      ok := true;
    }

    method Front() returns (x: T)
      requires Valid() && Contents() != []
      ensures x == Contents()[0]
    {
      x := elements[begin];
    }
  }

  // ---- The array with holes

  /** What the slots hold, holes skipped. */
  function Live<T>(slots: seq<Option<T>>): seq<T> {
    if slots == [] then []
    else (if slots[0].Some? then [slots[0].value] else []) + Live(slots[1..])
  }

  lemma {:induction false} LiveAppend<T>(a: seq<Option<T>>, b: seq<Option<T>>)
    ensures Live(a + b) == Live(a) + Live(b)
  {
    if a == [] {
      assert a + b == b;
    } else {
      var rest := a[1..];
      assert (a + b)[1..] == rest + b && (a + b)[0] == a[0];
      LiveAppend(rest, b);
      var first: seq<T> := if a[0].Some? then [a[0].value] else [];
      assert Live(a + b) == first + Live(rest + b) && Live(a) == first + Live(rest);
    }
  }

  /** Changing one slot changes only its own part. */
  lemma LiveUpdate<T>(slots: seq<Option<T>>, i: nat, x: Option<T>)
    requires i < |slots|
    ensures Live(slots[i := x]) == Live(slots[..i]) + Live([x]) + Live(slots[i + 1..])
    ensures Live(slots) == Live(slots[..i]) + Live([slots[i]]) + Live(slots[i + 1..])
  {
    assert slots[i := x] == slots[..i] + [x] + slots[i + 1..];
    assert slots == slots[..i] + [slots[i]] + slots[i + 1..];
    LiveAppend(slots[..i] + [x], slots[i + 1..]);
    LiveAppend(slots[..i], [x]);
    LiveAppend(slots[..i] + [slots[i]], slots[i + 1..]);
    LiveAppend(slots[..i], [slots[i]]);
  }

  lemma {:induction false} LiveHoles<T>(slots: seq<Option<T>>)
    requires forall i :: 0 <= i < |slots| ==> slots[i].None?
    ensures Live(slots) == []
  {
    if slots != [] {
      LiveHoles(slots[1..]);
    }
  }

  class FriendArray<T> {
    const slots: array<Option<T>>
    var size: int
    var left: nat

    ghost predicate Valid()
      reads this, slots
    {
      && slots.Length == MAX_CMD_NUM && left <= MAX_CMD_NUM
      && size == |Live(slots[..])|
      && forall i :: left <= i < MAX_CMD_NUM ==> slots[i].None?
    }

    /** FaNew */
    constructor ()
      ensures Valid() && fresh(slots) && Live(slots[..]) == [] && left == 0
    {
      slots := new Option<T>[MAX_CMD_NUM](_ => None);
      size, left := 0, 0;
      new;
      LiveHoles(slots[..]);
    }

    /** FaInsert never refills a hole: it fails exactly when every slot has been used
        once, however few friends are left. */
    method Insert(x: T) returns (ok: bool)
      requires Valid()
      modifies this`size, this`left, slots
      ensures Valid() && (ok <==> old(left) < MAX_CMD_NUM)
      ensures left == old(left) + (if ok then 1 else 0)
      ensures Live(slots[..]) == if ok then old(Live(slots[..])) + [x] else old(Live(slots[..]))
    {
      if size >= MAX_CMD_NUM || left >= MAX_CMD_NUM {
        LiveBound(slots[..left], slots[left..]);
        assert slots[..] == slots[..left] + slots[left..];
        return false;
      }
      LiveUpdate(slots[..], left, Some(x));
      LiveHoles(slots[..][left + 1..]);
      assert Live([slots[..][left]]) == [] && Live([Some(x)]) == [x];
      ghost var was := slots[..];
      slots[left] := Some(x);
      assert slots[..] == was[left := Some(x)];
      size := size + 1;
      left := left + 1;
      ok := true;
    }

    /** FaRemove of an occupied slot leaves a hole. */
    method Remove(index: nat)
      requires Valid() && index < MAX_CMD_NUM && slots[index].Some?
      modifies this`size, slots
      ensures Valid() && left == old(left)
      ensures Live(slots[..]) == old(Live(slots[..index]) + Live(slots[index + 1..]))
    {
      LiveUpdate(slots[..], index, None);
      ghost var was := slots[..];
      assert Live([was[index]]) == [was[index].value] && Live<T>([None]) == [];
      assert was[..index] == slots[..index] && was[index + 1..] == slots[index + 1..];
      slots[index] := None;
      assert slots[..] == was[index := None];
      size := size - 1;
    }

    /** The loop over the slots that every traversal uses: it stops once it has seen as
        many friends as size says, and has then seen them all, in order. */
    method Friends() returns (found: seq<T>)
      requires Valid()
      ensures found == Live(slots[..])
    {
      found := [];
      ghost var all := slots[..];
      var i := 0;
      while i < MAX_CMD_NUM
        invariant 0 <= i <= MAX_CMD_NUM && found == Live(all[..i])
        decreases MAX_CMD_NUM - i
      {
        assert all[..i + 1] == all[..i] + [all[i]];
        LiveAppend(all[..i], [all[i]]);
        if slots[i].Some? {
          found := found + [slots[i].value];
        }
        assert all == all[..i + 1] + all[i + 1..];
        LiveAppend(all[..i + 1], all[i + 1..]);
        if |found| >= size {
          return;
        }
        i := i + 1;
      }
      assert all[..i] == all;
    }
  }

  /** There are no more friends than slots in front of the holes. */
  lemma LiveBound<T>(a: seq<Option<T>>, b: seq<Option<T>>)
    requires forall i :: 0 <= i < |b| ==> b[i].None?
    ensures |Live(a + b)| <= |a|
  {
    LiveAppend(a, b);
    LiveHoles(b);
    LiveSize(a);
  }

  lemma {:induction false} LiveSize<T>(a: seq<Option<T>>)
    ensures |Live(a)| <= |a|
  {
    if a != [] {
      LiveSize(a[1..]);
    }
  }
}
