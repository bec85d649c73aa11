/** How hw2/friend.c finds the process a command is for: each process asks its children in
    order and stops at the first that does not answer "fail". Every command gets exactly
    one reply. The breadth-first search of hw2/test.c is the independent reference. */
module FriendRouting {
  import opened Options
  import opened FriendTree

  // ---- Meet

  function MeetRoute(t: Tree, p: string, x: Tree): (bool, Tree)
    decreases t, 1
  {
    if t.name == p then (true, t.(children := t.children + [x]))
    else
      var (ok, cs) := MeetRouteAll(t.children, p, x);
      (ok, t.(children := cs))
  }

  function MeetRouteAll(cs: seq<Tree>, p: string, x: Tree): (bool, seq<Tree>)
    decreases cs, 0
  {
    if cs == [] then (false, [])
    else
      var (ok, c) := MeetRoute(cs[0], p, x);
      if ok then (true, [c] + cs[1..])
      else
        var (okRest, rest) := MeetRouteAll(cs[1..], p, x);
        (okRest, [c] + rest)
  }

  /** A Meet succeeds exactly when the parent is known; it then puts the new friend last
      under the parent, and otherwise leaves the tree as it was. */
  lemma {:induction false} MeetIsAttach(t: Tree, p: string, x: Tree)
    requires Count(t, p) <= 1
    ensures MeetRoute(t, p, x) == (Count(t, p) > 0, Attach(t, p, [x]))
    decreases t, 1
  {
    if t.name == p {
      AttachAllAbsent(t.children, p, [x]);
    } else {
      MeetAllIsAttach(t.children, p, x);
      assert Attach(t, p, [x]).children == AttachAll(t.children, p, [x]);
    }
  }

  lemma {:induction false} MeetAllIsAttach(cs: seq<Tree>, p: string, x: Tree)
    requires CountAll(cs, p) <= 1
    ensures MeetRouteAll(cs, p, x) == (CountAll(cs, p) > 0, AttachAll(cs, p, [x]))
    decreases cs, 0
  {
    if cs != [] {
      MeetIsAttach(cs[0], p, x);
      MeetAllIsAttach(cs[1..], p, x);
      if Count(cs[0], p) > 0 {
        AttachAllAbsent(cs[1..], p, [x]);
      }
    }
  }

  /** A process that answers "fail" has changed nothing. */
  lemma {:induction false} MeetFailKeeps(t: Tree, p: string, x: Tree)
    requires !MeetRoute(t, p, x).0
    ensures MeetRoute(t, p, x).1 == t
    decreases t, 1
  {
    MeetAllFailKeeps(t.children, p, x);
  }

  lemma {:induction false} MeetAllFailKeeps(cs: seq<Tree>, p: string, x: Tree)
    requires !MeetRouteAll(cs, p, x).0
    ensures MeetRouteAll(cs, p, x).1 == cs
    decreases cs, 0
  {
    if cs != [] {
      MeetFailKeeps(cs[0], p, x);
      MeetAllFailKeeps(cs[1..], p, x);
    }
  }

  /** The children are asked in order: child i decides if all before it fail. */
  lemma {:induction false} MeetAllAt(cs: seq<Tree>, p: string, x: Tree, i: nat)
    requires i <= |cs| && forall j :: 0 <= j < i ==> !MeetRoute(cs[j], p, x).0
    ensures i == |cs| ==> MeetRouteAll(cs, p, x) == (false, cs)
    ensures i < |cs| && MeetRoute(cs[i], p, x).0 ==>
      MeetRouteAll(cs, p, x) == (true, cs[i := MeetRoute(cs[i], p, x).1])
    decreases cs
  {
    if i > 0 {
      MeetFailKeeps(cs[0], p, x);
      MeetAllAt(cs[1..], p, x, i - 1);
      assert [cs[0]] + cs[1..] == cs;
      if i < |cs| {
        var c := MeetRoute(cs[i], p, x).1;
        assert [cs[0]] + cs[1..][i - 1 := c] == cs[i := c];
      }
    } else if cs != [] {
      assert [MeetRoute(cs[0], p, x).1] + cs[1..] == cs[0 := MeetRoute(cs[0], p, x).1];
    }
  }

  // ---- Graduate

  /** checknode with task 2 at a process that is not itself the one named. */
  function GraduateRoute(t: Tree, c: string): (bool, Tree)
    decreases t, 1
  {
    var (ok, cs) := GraduateRouteAll(t.children, c);
    (ok, t.(children := cs))
  }

  function GraduateRouteAll(cs: seq<Tree>, c: string): (bool, seq<Tree>)
    decreases cs, 0
  {
    if cs == [] then (false, [])
    else if cs[0].name == c then (true, cs[1..])
    else
      var (ok, d) := GraduateRoute(cs[0], c);
      if ok then (true, [d] + cs[1..])
      else
        var (okRest, rest) := GraduateRouteAll(cs[1..], c);
        (okRest, [d] + rest)
  }

  /** Graduating a friend below the root removes exactly that subtree. */
  lemma {:induction false} GraduateIsRemove(t: Tree, c: string)
    requires CountAll(t.children, c) <= 1
    ensures GraduateRoute(t, c) == (CountAll(t.children, c) > 0, Remove(t, c))
    decreases t, 1
  {
    GraduateAllIsRemove(t.children, c);
  }

  lemma {:induction false} GraduateAllIsRemove(cs: seq<Tree>, c: string)
    requires CountAll(cs, c) <= 1
    ensures GraduateRouteAll(cs, c) == (CountAll(cs, c) > 0, RemoveAll(cs, c))
    decreases cs, 0
  {
    if cs != [] {
      assert Count(cs[0], c) + CountAll(cs[1..], c) <= 1;
      if cs[0].name == c {
        RemoveAllAbsent(cs[1..], c);
      } else {
        GraduateIsRemove(cs[0], c);
        GraduateAllIsRemove(cs[1..], c);
        if Count(cs[0], c) > 0 {
          RemoveAllAbsent(cs[1..], c);
        }
      }
    }
  }

  /** A process asks its children in order; failing leaves everything in place. */
  lemma {:induction false} GraduateFailKeeps(t: Tree, c: string)
    requires !GraduateRoute(t, c).0
    ensures GraduateRoute(t, c).1 == t
    decreases t, 1
  {
    GraduateAllFailKeeps(t.children, c);
  }

  lemma {:induction false} GraduateAllFailKeeps(cs: seq<Tree>, c: string)
    requires !GraduateRouteAll(cs, c).0
    ensures GraduateRouteAll(cs, c).1 == cs
    decreases cs, 0
  {
    if cs != [] {
      GraduateFailKeeps(cs[0], c);
      GraduateAllFailKeeps(cs[1..], c);
    }
  }

  lemma TailChanged(cs: seq<Tree>, i: nat, d: Tree)
    requires 0 < i < |cs|
    ensures [cs[0]] + cs[1..][i - 1 := d] == cs[i := d]
    ensures [cs[0]] + (cs[1..][..i - 1] + cs[1..][i..]) == cs[..i] + cs[i + 1..]
  {
  }

  lemma {:induction false} GraduateAllAt(cs: seq<Tree>, c: string, i: nat)
    requires i <= |cs| && forall j :: 0 <= j < i ==> cs[j].name != c && !GraduateRoute(cs[j], c).0
    ensures i == |cs| ==> GraduateRouteAll(cs, c) == (false, cs)
    ensures i < |cs| && cs[i].name == c ==> GraduateRouteAll(cs, c) == (true, cs[..i] + cs[i + 1..])
    ensures i < |cs| && cs[i].name != c && GraduateRoute(cs[i], c).0 ==>
      GraduateRouteAll(cs, c) == (true, cs[i := GraduateRoute(cs[i], c).1])
    decreases cs
  {
    if i > 0 {
      GraduateFailKeeps(cs[0], c);
      GraduateAllAt(cs[1..], c, i - 1);
      assert [cs[0]] + cs[1..] == cs;
      if i < |cs| {
        TailChanged(cs, i, GraduateRoute(cs[i], c).1);
      }
    } else if cs != [] {
      assert [GraduateRoute(cs[0], c).1] + cs[1..] == cs[0 := GraduateRoute(cs[0], c).1];
      assert cs[..0] + cs[1..] == cs[1..];
    }
  }

  lemma {:induction false} GraduateFinds(cs: seq<Tree>, c: string)
    ensures GraduateRouteAll(cs, c).0 <==> FindAll(cs, c).Some?
    decreases cs
  {
    if cs != [] {
      GraduateFinds(cs[0].children, c);
      GraduateFinds(cs[1..], c);
    }
  }

  /** The order in which the processes of a subtree exit: a process answers "Exited" after
      all its children have. */
  function ExitOrder(t: Tree): seq<string>
    decreases t, 1
  {
    ExitOrderAll(t.children) + [t.name]
  }

  function ExitOrderAll(cs: seq<Tree>): seq<string>
    decreases cs, 0
  {
    if cs == [] then [] else ExitOrder(cs[0]) + ExitOrderAll(cs[1..])
  }

  lemma {:induction false} ExitOrderAppend(a: seq<Tree>, b: seq<Tree>)
    ensures ExitOrderAll(a + b) == ExitOrderAll(a) + ExitOrderAll(b)
  {
    if a == [] {
      assert a + b == b;
    } else {
      assert (a + b)[1..] == a[1..] + b;
      ExitOrderAppend(a[1..], b);
    }
  }

  lemma {:induction false} ExitOrderSize(t: Tree)
    ensures |ExitOrder(t)| == Size(t)
    decreases t, 1
  {
    ExitOrderAllSize(t.children);
  }

  lemma {:induction false} ExitOrderAllSize(cs: seq<Tree>)
    ensures |ExitOrderAll(cs)| == SizeAll(cs)
    decreases cs, 0
  {
    if cs != [] {
      ExitOrderSize(cs[0]);
      ExitOrderAllSize(cs[1..]);
    }
  }

  /** Every process of the tree exits as the last of the block formed by its own subtree:
      its descendants are gone before it, and nobody else exits in between. */
  lemma {:induction false} DescendantsExitFirst(t: Tree, n: string) returns (k: nat)
    requires Find(t, n).Some?
    ensures var s := Find(t, n).value;
      && k + Size(s) <= |ExitOrder(t)|
      && ExitOrder(t)[k..k + Size(s)] == ExitOrder(s)
      && ExitOrder(s)[Size(s) - 1] == n
    decreases t, 1
  {
    ExitOrderSize(t);
    if t.name == n {
      k := 0;
    } else {
      k := DescendantsExitFirstAll(t.children, n);
      var size := Size(Find(t, n).value);
      assert ExitOrder(t)[k..k + size] == ExitOrderAll(t.children)[k..k + size];
    }
  }

  lemma {:induction false} DescendantsExitFirstAll(cs: seq<Tree>, n: string) returns (k: nat)
    requires FindAll(cs, n).Some?
    ensures var s := FindAll(cs, n).value;
      && k + Size(s) <= |ExitOrderAll(cs)|
      && ExitOrderAll(cs)[k..k + Size(s)] == ExitOrder(s)
      && ExitOrder(s)[Size(s) - 1] == n
    decreases cs, 0
  {
    var size := Size(FindAll(cs, n).value);
    if Find(cs[0], n).Some? {
      k := DescendantsExitFirst(cs[0], n);
      assert ExitOrderAll(cs)[k..k + size] == ExitOrder(cs[0])[k..k + size];
    } else {
      var j := DescendantsExitFirstAll(cs[1..], n);
      k := |ExitOrder(cs[0])| + j;
      assert ExitOrderAll(cs)[k..k + size] == ExitOrderAll(cs[1..])[j..j + size];
    }
  }

  // ---- find_parent_value

  /** The reply of a process to findValue: the value of p, or "fail" (None). A process
      called c turns a value that comes from below it into "fail". */
  function ValueRoute(t: Tree, p: string, c: string): Option<nat>
    decreases t, 1
  {
    if t.name == p then Some(t.value)
    else
      var reply := ValueRouteAll(t.children, p, c);
      if reply.Some? && t.name == c then None else reply
  }

  function ValueRouteAll(cs: seq<Tree>, p: string, c: string): Option<nat>
    decreases cs, 0
  {
    if cs == [] then None
    else if ValueRoute(cs[0], p, c).Some? then ValueRoute(cs[0], p, c)
    else ValueRouteAll(cs[1..], p, c)
  }

  /** p lies strictly below c. */
  predicate StrictlyBelow(t: Tree, p: string, c: string) {
    Find(t, c).Some? && CountAll(Find(t, c).value.children, p) > 0
  }

  predicate StrictlyBelowAll(cs: seq<Tree>, p: string, c: string) {
    FindAll(cs, c).Some? && CountAll(FindAll(cs, c).value.children, p) > 0
  }

  /** find_parent_value answers the value of p when p is known and not a strict
      descendant of c, and -1 otherwise, although a reply changes on its way up. */
  lemma {:induction false} ValueRouteAnswer(t: Tree, p: string, c: string)
    requires Count(t, p) <= 1 && Count(t, c) <= 1
    ensures ValueRoute(t, p, c)
         == if Find(t, p).Some? && !StrictlyBelow(t, p, c) then Some(Find(t, p).value.value) else None
    decreases t, 1
  {
    FindCounts(t, p);
    FindAllCounts(t.children, c);
    if t.name == p {
      if FindAll(t.children, c).Some? {
        FoundIsPartAll(t.children, c, p);
      }
    } else {
      ValueRouteAllAnswer(t.children, p, c);
    }
  }

  lemma {:induction false} ValueRouteAllAnswer(cs: seq<Tree>, p: string, c: string)
    requires CountAll(cs, p) <= 1 && CountAll(cs, c) <= 1
    ensures ValueRouteAll(cs, p, c)
         == if FindAll(cs, p).Some? && !StrictlyBelowAll(cs, p, c) then Some(FindAll(cs, p).value.value) else None
    decreases cs, 0
  {
    if cs != [] {
      var h, rest := cs[0], cs[1..];
      ValueRouteAnswer(h, p, c);
      ValueRouteAllAnswer(rest, p, c);
      FindCounts(h, p);
      FindCounts(h, c);
      FindAllCounts(rest, p);
      FindAllCounts(rest, c);
      if Find(h, c).Some? {
        FoundIsPart(h, c, p);
      }
      if FindAll(rest, c).Some? {
        FoundIsPartAll(rest, c, p);
      }
    }
  }

  // ---- Breadth-first search

  /** The search loop of TreeMeet and TreeCheck in hw2/test.c over its queue. */
  function BreadthFirstFind(queue: seq<Tree>, n: string): Option<Tree>
    decreases SizeAll(queue)
  {
    if queue == [] then None
    else if queue[0].name == n then Some(queue[0])
    else
      SizeAppend(queue[1..], queue[0].children);
      assert SizeAll(queue) == 1 + SizeAll(queue[0].children) + SizeAll(queue[1..]);
      BreadthFirstFind(queue[1..] + queue[0].children, n)
  }

  lemma {:induction false} BreadthFirstAgrees(queue: seq<Tree>, n: string)
    requires CountAll(queue, n) <= 1
    ensures BreadthFirstFind(queue, n) == FindAll(queue, n)
    decreases SizeAll(queue)
  {
    if queue != [] && queue[0].name != n {
      var cs, rest := queue[0].children, queue[1..];
      SizeAppend(rest, cs);
      assert SizeAll(queue) == 1 + SizeAll(cs) + SizeAll(rest);
      CountAppend(rest, cs, n);
      BreadthFirstAgrees(rest + cs, n);
      FindAppend(rest, cs, n);
      FindAllCounts(cs, n);
      FindAllCounts(rest, n);
    }
  }

  /** With unique names the depth-first routing of the processes and the breadth-first
      search of the reference act on the same node. */
  lemma SearchesAgree(t: Tree, n: string)
    requires Count(t, n) <= 1
    ensures BreadthFirstFind([t], n) == Find(t, n)
  {
    assert CountAll([t], n) == Count(t, n);
    BreadthFirstAgrees([t], n);
    assert FindAll([t], n) == Find(t, n);
  }

  /** Without unique names they need not: x occurs at depth 2 on the left and at depth 1
      on the right. */
  lemma SearchesDisagreeOnTwins()
    ensures var deep, shallow := Leaf("x", "x_01", 1), Leaf("x", "x_02", 2);
      var t := Node("r", "r", 100, [Node("a", "a_01", 1, [deep]), shallow]);
      Find(t, "x") == Some(deep) && BreadthFirstFind([t], "x") == Some(shallow)
  {
    var deep, shallow := Leaf("x", "x_01", 1), Leaf("x", "x_02", 2);
    var a := Node("a", "a_01", 1, [deep]);
    var t := Node("r", "r", 100, [a, shallow]);
    assert FindAll([deep], "x") == Some(deep);
    assert Find(a, "x") == Some(deep);
    assert FindAll([a, shallow], "x") == Some(deep);
    SizeAppend([], t.children);
    assert [t][1..] + t.children == [a, shallow];
    SizeAppend([shallow], a.children);
    assert [a, shallow][1..] + a.children == [shallow, deep];
    assert BreadthFirstFind([shallow, deep], "x") == Some(shallow);
    assert BreadthFirstFind([a, shallow], "x") == Some(shallow);
  }
}
