/** The linked queue of hw4/tpool.c, used for works and for requests alike: a head, a
    tail, a size and a stop flag, with nodes chained through next. */
module LinkedQueue {
  import opened Options

  class Node<T> {
    var value: T
    var next: Node?<T>

    constructor (value: T)
      ensures this.value == value && next == null
    {
      this.value := value;
      next := null;
    }
  }

  class Queue<T> {
    var head: Node?<T>
    var tail: Node?<T>
    var size: int
    var stop: bool
    ghost var spine: seq<Node<T>>

    ghost predicate Valid()
      reads this, spine
    {
      && size == |spine|
      && (if spine == [] then head == null && tail == null
          else head == spine[0] && tail == spine[|spine| - 1])
      && (forall i, j :: 0 <= i < j < |spine| ==> spine[i] != spine[j])
      && (forall i {:trigger spine[i].next} :: 0 <= i < |spine| ==>
            spine[i].next == if i + 1 < |spine| then spine[i + 1] else null)
    }

    ghost function Contents(): (r: seq<T>)
      reads this, spine
      ensures |r| == |spine|
    {
      seq(|spine|, i requires 0 <= i < |spine| reads this, spine => spine[i].value)
    }

    /** queue_init */
    constructor ()
      ensures Valid() && Contents() == [] && !stop
      ensures spine == []
    {
      head, tail, size, stop, spine := null, null, 0, false, [];
    }

    /** enqueue_work and enqueue_request: link behind the tail, or start the list. */
    method Enqueue(x: T)
      requires Valid()
      modifies this, spine
      ensures Valid() && stop == old(stop)
      ensures Contents() == old(Contents()) + [x]
      ensures fresh(set n | n in spine && n !in old(spine))
    {
      var node := new Node(x);
      if tail != null {
        tail.next := node;
      } else {
        head := node;
      }
      tail := node;
      size := size + 1;
      spine := spine + [node];
      assert forall i :: 0 <= i < |old(spine)| ==> Contents()[i] == old(Contents())[i];
    }

    /** The flag that tpool_destroy sets. */
    method Stop()
      requires Valid()
      modifies this`stop
      ensures Valid() && stop && Contents() == old(Contents())
    {
      stop := true;
    }

    /** dequeue_work and dequeue_request after the wait: NULL when the list is empty. */
    method Dequeue() returns (r: Option<T>)
      requires Valid()
      modifies this
      ensures Valid() && stop == old(stop)
      ensures old(Contents()) == [] ==> r == None && Contents() == []
      ensures old(Contents()) != [] ==> r == Some(old(Contents())[0]) && Contents() == old(Contents())[1..]
      ensures forall n :: n in spine ==> n in old(spine)
    {
      if head == null {
        return None;
      }
      r := Some(head.value);
      head := head.next;
      if head == null {
        tail := null;
      }
      size := size - 1;
      ghost var was := spine;
      spine := spine[1..];
      assert forall i :: 0 <= i < |spine| ==> spine[i] == was[i + 1];
    }
  }
}
