/** The tree of friends of hw2: what a node is, and the operations that the commands mean,
    written over whole trees without routing. */
module FriendTree {
  import opened Options

  /** One process: its name, the info string it shows, its value, its children in order. */
  datatype Tree = Node(name: string, info: string, value: nat, children: seq<Tree>)

  function Leaf(name: string, info: string, value: nat): Tree {
    Node(name, info, value, [])
  }

  /** How many nodes of the tree are called n. */
  function Count(t: Tree, n: string): nat
    decreases t, 1
  {
    (if t.name == n then 1 else 0) + CountAll(t.children, n)
  }

  function CountAll(ts: seq<Tree>, n: string): nat
    decreases ts, 0
  {
    if ts == [] then 0 else Count(ts[0], n) + CountAll(ts[1..], n)
  }

  /** No two nodes have the same name. */
  ghost predicate Unique(t: Tree) {
    forall n :: Count(t, n) <= 1
  }

  function Size(t: Tree): nat
    decreases t, 1
  {
    1 + SizeAll(t.children)
  }

  function SizeAll(ts: seq<Tree>): nat
    decreases ts, 0
  {
    if ts == [] then 0 else Size(ts[0]) + SizeAll(ts[1..])
  }

  /** Puts xs behind the children of every node called p. */
  function Attach(t: Tree, p: string, xs: seq<Tree>): Tree
    decreases t, 1
  {
    t.(children := AttachAll(t.children, p, xs) + if t.name == p then xs else [])
  }

  function AttachAll(ts: seq<Tree>, p: string, xs: seq<Tree>): (r: seq<Tree>)
    ensures |r| == |ts|
    decreases ts, 0
  {
    if ts == [] then [] else [Attach(ts[0], p, xs)] + AttachAll(ts[1..], p, xs)
  }

  /** Takes out every subtree, below the root, whose root is called c. */
  function Remove(t: Tree, c: string): Tree
    decreases t, 1
  {
    t.(children := RemoveAll(t.children, c))
  }

  function RemoveAll(ts: seq<Tree>, c: string): seq<Tree>
    decreases ts, 0
  {
    if ts == [] then []
    else if ts[0].name == c then RemoveAll(ts[1..], c)
    else [Remove(ts[0], c)] + RemoveAll(ts[1..], c)
  }

  /** The first node called n in depth-first order. */
  function Find(t: Tree, n: string): Option<Tree>
    decreases t, 1
  {
    if t.name == n then Some(t) else FindAll(t.children, n)
  }

  function FindAll(ts: seq<Tree>, n: string): Option<Tree>
    decreases ts, 0
  {
    if ts == [] then None
    else if Find(ts[0], n).Some? then Find(ts[0], n) else FindAll(ts[1..], n)
  }

  // ---- Counting

  lemma {:induction false} CountAppend(a: seq<Tree>, b: seq<Tree>, n: string)
    ensures CountAll(a + b, n) == CountAll(a, n) + CountAll(b, n)
  {
    if a == [] {
      assert a + b == b;
    } else {
      assert (a + b)[1..] == a[1..] + b;
      CountAppend(a[1..], b, n);
    }
  }

  lemma {:induction false} SizeAppend(a: seq<Tree>, b: seq<Tree>)
    ensures SizeAll(a + b) == SizeAll(a) + SizeAll(b)
  {
    if a == [] {
      assert a + b == b;
    } else {
      assert (a + b)[1..] == a[1..] + b;
      SizeAppend(a[1..], b);
    }
  }

  /** A name is found exactly when it occurs, and what is found bears it. */
  lemma {:induction false} FindCounts(t: Tree, n: string)
    ensures Find(t, n).Some? <==> Count(t, n) > 0
    ensures Find(t, n).Some? ==> Find(t, n).value.name == n
    decreases t, 1
  {
    FindAllCounts(t.children, n);
  }

  lemma {:induction false} FindAllCounts(ts: seq<Tree>, n: string)
    ensures FindAll(ts, n).Some? <==> CountAll(ts, n) > 0
    ensures FindAll(ts, n).Some? ==> FindAll(ts, n).value.name == n
    decreases ts, 0
  {
    if ts != [] {
      FindCounts(ts[0], n);
      FindAllCounts(ts[1..], n);
    }
  }

  /** What is found is part of the tree: its names occur at least as often in the whole,
      and a name other than n occurs more often when it also lies on the way. */
  lemma {:induction false} FoundIsPart(t: Tree, n: string, m: string)
    requires Find(t, n).Some?
    ensures Count(Find(t, n).value, m) <= Count(t, m)
    ensures Size(Find(t, n).value) <= Size(t)
    decreases t, 1
  {
    if t.name != n {
      FoundIsPartAll(t.children, n, m);
    }
  }

  lemma {:induction false} FoundIsPartAll(ts: seq<Tree>, n: string, m: string)
    requires FindAll(ts, n).Some?
    ensures Count(FindAll(ts, n).value, m) <= CountAll(ts, m)
    ensures Size(FindAll(ts, n).value) <= SizeAll(ts)
    decreases ts, 0
  {
    if Find(ts[0], n).Some? {
      FoundIsPart(ts[0], n, m);
    } else {
      FoundIsPartAll(ts[1..], n, m);
    }
  }

  lemma {:induction false} FindAppend(a: seq<Tree>, b: seq<Tree>, n: string)
    ensures FindAll(a + b, n) == if FindAll(a, n).Some? then FindAll(a, n) else FindAll(b, n)
  {
    if a == [] {
      assert a + b == b;
    } else {
      assert (a + b)[1..] == a[1..] + b;
      FindAppend(a[1..], b, n);
    }
  }

  // ---- Attaching

  /** Attaching where the name does not occur changes nothing. */
  lemma {:induction false} AttachAbsent(t: Tree, p: string, xs: seq<Tree>)
    requires Count(t, p) == 0
    ensures Attach(t, p, xs) == t
    decreases t, 1
  {
    AttachAllAbsent(t.children, p, xs);
  }

  lemma {:induction false} AttachAllAbsent(ts: seq<Tree>, p: string, xs: seq<Tree>)
    requires CountAll(ts, p) == 0
    ensures AttachAll(ts, p, xs) == ts
    decreases ts, 0
  {
    if ts != [] {
      AttachAbsent(ts[0], p, xs);
      AttachAllAbsent(ts[1..], p, xs);
    }
  }

  lemma {:induction false} AttachAllAppend(a: seq<Tree>, b: seq<Tree>, p: string, xs: seq<Tree>)
    ensures AttachAll(a + b, p, xs) == AttachAll(a, p, xs) + AttachAll(b, p, xs)
  {
    if a == [] {
      assert a + b == b;
    } else {
      assert (a + b)[1..] == a[1..] + b;
      AttachAllAppend(a[1..], b, p, xs);
    }
  }

  lemma Distribute(a: nat, b: nat, c: nat)
    ensures (a + b) * c == a * c + b * c
  {
  }

  /** Attaching adds the counts of what is attached, once per place. */
  lemma {:induction false} AttachCounts(t: Tree, p: string, xs: seq<Tree>, n: string)
    ensures Count(Attach(t, p, xs), n) == Count(t, n) + Count(t, p) * CountAll(xs, n)
    decreases t, 1
  {
    AttachAllCounts(t.children, p, xs, n);
    CountAppend(AttachAll(t.children, p, xs), if t.name == p then xs else [], n);
    Distribute(1, CountAll(t.children, p), CountAll(xs, n));
  }

  lemma {:induction false} AttachAllCounts(ts: seq<Tree>, p: string, xs: seq<Tree>, n: string)
    ensures CountAll(AttachAll(ts, p, xs), n) == CountAll(ts, n) + CountAll(ts, p) * CountAll(xs, n)
    decreases ts, 0
  {
    if ts != [] {
      AttachCounts(ts[0], p, xs, n);
      AttachAllCounts(ts[1..], p, xs, n);
      Distribute(Count(ts[0], p), CountAll(ts[1..], p), CountAll(xs, n));
    }
  }

  /** Attaching one list and then another at the same place attaches their concatenation. */
  lemma {:induction false} AttachTwice(t: Tree, p: string, xs: seq<Tree>, ys: seq<Tree>)
    requires CountAll(xs, p) == 0
    ensures Attach(Attach(t, p, xs), p, ys) == Attach(t, p, xs + ys)
    decreases t, 1
  {
    AttachAllTwice(t.children, p, xs, ys);
    AttachAllAppend(AttachAll(t.children, p, xs), if t.name == p then xs else [], p, ys);
    AttachAllAbsent(if t.name == p then xs else [], p, ys);
    assert Attach(Attach(t, p, xs), p, ys).children == Attach(t, p, xs + ys).children;
  }

  lemma {:induction false} AttachAllTwice(ts: seq<Tree>, p: string, xs: seq<Tree>, ys: seq<Tree>)
    requires CountAll(xs, p) == 0
    ensures AttachAll(AttachAll(ts, p, xs), p, ys) == AttachAll(ts, p, xs + ys)
    decreases ts, 0
  {
    if ts != [] {
      AttachTwice(ts[0], p, xs, ys);
      AttachAllTwice(ts[1..], p, xs, ys);
    }
  }

  /** Attaching x at p and then ys below x is attaching x with ys at p, when x is new. */
  lemma {:induction false} AttachInside(t: Tree, p: string, x: Tree, ys: seq<Tree>)
    requires Count(t, x.name) == 0 && CountAll(x.children, x.name) == 0
    ensures Attach(Attach(t, p, [x]), x.name, ys) == Attach(t, p, [x.(children := x.children + ys)])
    decreases t, 1
  {
    var mine := if t.name == p then [x] else [];
    AttachAllInside(t.children, p, x, ys);
    AttachAllAppend(AttachAll(t.children, p, [x]), mine, x.name, ys);
    AttachAllAbsent(x.children, x.name, ys);
    assert AttachAll([x], x.name, ys) == [x.(children := x.children + ys)];
    assert Attach(Attach(t, p, [x]), x.name, ys).children
        == Attach(t, p, [x.(children := x.children + ys)]).children;
  }

  lemma {:induction false} AttachAllInside(ts: seq<Tree>, p: string, x: Tree, ys: seq<Tree>)
    requires CountAll(ts, x.name) == 0 && CountAll(x.children, x.name) == 0
    ensures AttachAll(AttachAll(ts, p, [x]), x.name, ys) == AttachAll(ts, p, [x.(children := x.children + ys)])
    decreases ts, 0
  {
    if ts != [] {
      AttachInside(ts[0], p, x, ys);
      AttachAllInside(ts[1..], p, x, ys);
    }
  }

  // ---- Removing

  lemma {:induction false} RemoveAbsent(t: Tree, c: string)
    requires CountAll(t.children, c) == 0
    ensures Remove(t, c) == t
    decreases t, 1
  {
    RemoveAllAbsent(t.children, c);
  }

  lemma {:induction false} RemoveAllAbsent(ts: seq<Tree>, c: string)
    requires CountAll(ts, c) == 0
    ensures RemoveAll(ts, c) == ts
    decreases ts, 0
  {
    if ts != [] {
      assert Count(ts[0], c) == 0;
      RemoveAbsent(ts[0], c);
      RemoveAllAbsent(ts[1..], c);
    }
  }

  /** Removing the subtree of a name that occurs once removes exactly its names. */
  lemma {:induction false} RemoveCounts(t: Tree, c: string, n: string)
    requires t.name != c && Count(t, c) <= 1
    ensures Count(Remove(t, c), n) == Count(t, n) - if Find(t, c).Some? then Count(Find(t, c).value, n) else 0
    decreases t, 1
  {
    RemoveAllCounts(t.children, c, n);
  }

  lemma {:induction false} RemoveAllCounts(ts: seq<Tree>, c: string, n: string)
    requires CountAll(ts, c) <= 1
    ensures CountAll(RemoveAll(ts, c), n)
         == CountAll(ts, n) - if FindAll(ts, c).Some? then Count(FindAll(ts, c).value, n) else 0
    decreases ts, 0
  {
    if ts != [] {
      FindCounts(ts[0], c);
      FindAllCounts(ts[1..], c);
      RemoveAllCounts(ts[1..], c, n);
      if ts[0].name != c {
        RemoveCounts(ts[0], c, n);
      }
    }
  }
}
