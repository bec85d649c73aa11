/** The circular array of hw3's queues (struct tcb_queue). A thread is its number. */
module SchedQueues {
  import opened SchedMachine

  class TcbQueue {
    const arr: array<nat>
    var head: nat
    var size: nat

    ghost predicate Valid()
      reads this
    {
      arr.Length == THREAD_MAX && head < THREAD_MAX && size <= THREAD_MAX
    }

    /** The threads in the queue, the head first. */
    ghost function Contents(): (c: seq<nat>)
      requires Valid()
      reads this, arr
      ensures |c| == size && forall k :: 0 <= k < size ==> c[k] == arr[(head + k) % THREAD_MAX]
    {
      seq(size, k requires 0 <= k < size reads this, arr requires Valid() => arr[(head + k) % THREAD_MAX])
    }

    constructor ()
      ensures Valid() && fresh(arr) && Contents() == []
    {
      arr := new nat[THREAD_MAX](_ => 0);
      head, size := 0, 0;
    }

    /** push_to_ready and push_to_waiting: no live slot is overwritten while one is free. */
    method Push(t: nat)
      requires Valid() && size < THREAD_MAX
      modifies this`size, arr
      ensures Valid() && Contents() == old(Contents()) + [t]
    {
      var tail := (head + size) % THREAD_MAX;
      arr[tail] := t;
      size := size + 1;
    }

    method Front() returns (t: nat)
      requires Valid() && size > 0
      ensures t == Contents()[0]
    {
      t := arr[head];
    }

    method Drop()
      requires Valid() && size > 0
      modifies this`head, this`size
      ensures Valid() && Contents() == old(Contents())[1..]
    {
      head := (head + 1) % THREAD_MAX;
      size := size - 1;
    }
  }
}
