/** Adopt in hw2/friend.c: the subtree is written to a FIFO as preorder Meet records, the
    old processes exit, and the records are replayed under the new parent. */
module FriendAdopt {
  import opened Options
  import opened FriendTree
  import opened FriendRouting
  import opened FriendText

  /** The content of one line "Meet <parent> <info> false", with the name and value of the info. */
  datatype Record = Record(parent: string, name: string, info: string, value: nat)

  function RecordOf(parent: string, name: string, value: nat): Record {
    Record(parent, name, InfoText(name, value), value)
  }

  /** The records of the friends cs under p, each followed by those of its own subtree. */
  function RecordsAll(p: string, cs: seq<Tree>, v: nat): seq<Record>
    requires v > 0
    decreases cs
  {
    if cs == [] then []
    else
      [RecordOf(p, cs[0].name, cs[0].value % v)]
      + RecordsAll(cs[0].name, cs[0].children, v)
      + RecordsAll(p, cs[1..], v)
  }

  /** adopt and be_adopted: the process that has the child named c writes the first
      record and lets the child write the rest; the others pass the command on. */
  function AdoptRoute(cs: seq<Tree>, p: string, c: string, v: nat): Option<seq<Record>>
    requires v > 0
    decreases cs
  {
    if cs == [] then None
    else if cs[0].name == c then
      Some([RecordOf(p, c, cs[0].value % v)] + RecordsAll(c, cs[0].children, v))
    else if AdoptRoute(cs[0].children, p, c, v).Some? then AdoptRoute(cs[0].children, p, c, v)
    else AdoptRoute(cs[1..], p, c, v)
  }

  /** The friend that replaying a record creates. */
  function FromRecord(r: Record): Tree {
    Leaf(r.name, r.info, r.value)
  }

  function Replay(t: Tree, rs: seq<Record>): Tree
    decreases rs
  {
    if rs == [] then t else Replay(MeetRoute(t, rs[0].parent, FromRecord(rs[0])).1, rs[1..])
  }

  datatype AdoptOutcome =
    | Refused              // "<p> is a descendant of <c>"; the tree stays as it is
    | Crashed              // a value is reduced modulo 0
    | Blocked              // nothing was written, so the read of the FIFO never returns
    | Adopted(tree: Tree)

  /** The Adopt branch of main in friend.c, at the root. */
  function AdoptCommand(t: Tree, p: string, c: string): AdoptOutcome {
    if c == t.name || ValueRoute(t, p, c).None? then Refused
    else
      var v := ValueRoute(t, p, c).value;
      if v == 0 then (if FindAll(t.children, c).Some? then Crashed else Blocked)
      else if AdoptRoute(t.children, p, c, v).None? then Blocked
      else Adopted(Replay(GraduateRoute(t, c).1, AdoptRoute(t.children, p, c, v).value))
  }

  // ---- What the records rebuild

  /** The subtree as its new parent sees it: same shape and names, values reduced. */
  function Reduced(t: Tree, v: nat): Tree
    requires v > 0
    decreases t, 1
  {
    Node(t.name, InfoText(t.name, t.value % v), t.value % v, ReducedAll(t.children, v))
  }

  function ReducedAll(ts: seq<Tree>, v: nat): seq<Tree>
    requires v > 0
    decreases ts, 0
  {
    if ts == [] then [] else [Reduced(ts[0], v)] + ReducedAll(ts[1..], v)
  }

  lemma {:induction false} ReducedCounts(t: Tree, v: nat, n: string)
    requires v > 0
    ensures Count(Reduced(t, v), n) == Count(t, n)
    decreases t, 1
  {
    ReducedAllCounts(t.children, v, n);
  }

  lemma {:induction false} ReducedAllCounts(ts: seq<Tree>, v: nat, n: string)
    requires v > 0
    ensures CountAll(ReducedAll(ts, v), n) == CountAll(ts, n)
    decreases ts, 0
  {
    if ts != [] {
      ReducedCounts(ts[0], v, n);
      ReducedAllCounts(ts[1..], v, n);
    }
  }

  lemma {:induction false} FindReduced(t: Tree, v: nat, n: string)
    requires v > 0
    ensures Find(Reduced(t, v), n) == if Find(t, n).Some? then Some(Reduced(Find(t, n).value, v)) else None
    decreases t, 1
  {
    FindAllReduced(t.children, v, n);
  }

  lemma {:induction false} FindAllReduced(ts: seq<Tree>, v: nat, n: string)
    requires v > 0
    ensures FindAll(ReducedAll(ts, v), n) == if FindAll(ts, n).Some? then Some(Reduced(FindAll(ts, n).value, v)) else None
    decreases ts, 0
  {
    if ts != [] {
      FindReduced(ts[0], v, n);
      FindAllReduced(ts[1..], v, n);
    }
  }

  /** In a subtree that moves every friend is found again under its name; it has the remainder
      of its value, an info that shows both, and the same children in the same order. */
  lemma FriendsReduced(t: Tree, v: nat, n: string)
    requires v > 0 && Find(t, n).Some?
    ensures Find(Reduced(t, v), n).Some?
    ensures var was, now := Find(t, n).value, Find(Reduced(t, v), n).value;
      && now.name == n && now.value == was.value % v
      && ('_' !in n ==> InfoName(now.info) == n && InfoValue(now.info) == was.value % v)
      && |now.children| == |was.children|
      && forall i :: 0 <= i < |now.children| ==> now.children[i].name == was.children[i].name
  {
    FindCounts(t, n);
    FindReduced(t, v, n);
    ReducedAllAt(Find(t, n).value.children, v);
    if '_' !in n {
      InfoRoundTrip(n, Find(t, n).value.value % v);
    }
  }

  lemma {:induction false} ReplayAppend(t: Tree, a: seq<Record>, b: seq<Record>)
    ensures Replay(t, a + b) == Replay(Replay(t, a), b)
    decreases a
  {
    if a == [] {
      assert a + b == b;
    } else {
      assert (a + b)[1..] == a[1..] + b;
      ReplayAppend(MeetRoute(t, a[0].parent, FromRecord(a[0])).1, a[1..], b);
    }
  }

  /** Nobody is created under a parent that is not there. */
  lemma {:induction false} ReplayAbsent(t: Tree, rs: seq<Record>)
    requires forall i :: 0 <= i < |rs| ==> Count(t, rs[i].parent) == 0
    ensures Replay(t, rs) == t
    decreases rs
  {
    if rs != [] {
      MeetIsAttach(t, rs[0].parent, FromRecord(rs[0]));
      AttachAbsent(t, rs[0].parent, [FromRecord(rs[0])]);
      ReplayAbsent(t, rs[1..]);
    }
  }

  /** The first record attaches a leaf for d; the records of its children fill it in. */
  lemma ReplayHead(t: Tree, p: string, d: Tree, v: nat)
    requires v > 0 && Count(t, p) == 1 && Count(t, d.name) == 0 && Count(d, d.name) == 1
    ensures var leaf := FromRecord(RecordOf(p, d.name, d.value % v));
      && Replay(t, [RecordOf(p, d.name, d.value % v)]) == Attach(t, p, [leaf])
      && (forall n :: Count(Attach(t, p, [leaf]), n) == Count(t, n) + (if d.name == n then 1 else 0))
      && Attach(Attach(t, p, [leaf]), d.name, ReducedAll(d.children, v)) == Attach(t, p, [Reduced(d, v)])
  {
    var r := RecordOf(p, d.name, d.value % v);
    var leaf := FromRecord(r);
    MeetIsAttach(t, p, leaf);
    assert [r][1..] == [];
    forall n ensures Count(Attach(t, p, [leaf]), n) == Count(t, n) + (if d.name == n then 1 else 0) {
      AttachCounts(t, p, [leaf], n);
      assert CountAll([leaf], n) == if d.name == n then 1 else 0;
    }
    AttachInside(t, p, leaf, ReducedAll(d.children, v));
    assert [] + ReducedAll(d.children, v) == ReducedAll(d.children, v);
    assert leaf.(children := ReducedAll(d.children, v)) == Reduced(d, v);
  }

  /** Replaying the records of a list of subtrees attaches exactly those subtrees, values
      reduced, in the same order, as the last children of p. */
  lemma {:induction false} ReplayRebuilds(t: Tree, p: string, cs: seq<Tree>, v: nat)
    requires v > 0 && Count(t, p) == 1
    requires forall n :: Count(t, n) + CountAll(cs, n) <= 1
    ensures Replay(t, RecordsAll(p, cs, v)) == Attach(t, p, ReducedAll(cs, v))
    decreases cs
  {
    if cs == [] {
      AttachNothing(t, p);
    } else {
      var d, rest := cs[0], cs[1..];
      var first, below, others := [RecordOf(p, d.name, d.value % v)], RecordsAll(d.name, d.children, v), RecordsAll(p, rest, v);
      forall n ensures Count(t, n) + Count(d, n) + CountAll(rest, n) <= 1 {
        assert CountAll(cs, n) == Count(d, n) + CountAll(rest, n);
      }
      ReplayAppend(t, first + below, others);
      ReplayAppend(t, first, below);
      ReplayHead(t, p, d, v);
      var one := Replay(t, first);
      ReplayRebuilds(one, d.name, d.children, v);
      var two := Attach(t, p, [Reduced(d, v)]);
      forall n ensures Count(two, n) == Count(t, n) + Count(d, n) {
        AttachCounts(t, p, [Reduced(d, v)], n);
        ReducedCounts(d, v, n);
        assert CountAll([Reduced(d, v)], n) == Count(d, n);
      }
      ReplayRebuilds(two, p, rest, v);
      assert CountAll([Reduced(d, v)], p) == 0 by {
        ReducedCounts(d, v, p);
        assert Count(two, p) == Count(t, p) + Count(d, p);
      }
      AttachTwice(t, p, [Reduced(d, v)], ReducedAll(rest, v));
    }
  }

  lemma {:induction false} AttachNothing(t: Tree, p: string)
    ensures Attach(t, p, []) == t
    decreases t, 1
  {
    AttachAllNothing(t.children, p);
    assert t.children + [] == t.children;
  }

  lemma {:induction false} AttachAllNothing(ts: seq<Tree>, p: string)
    ensures AttachAll(ts, p, []) == ts
    decreases ts, 0
  {
    if ts != [] {
      AttachNothing(ts[0], p);
      AttachAllNothing(ts[1..], p);
    }
  }

  // ---- What adopt leaves behind before the old processes exit

  /** adopt and be_adopted reduce the values of the subtree where it still is. */
  function ReducedInPlace(cs: seq<Tree>, c: string, v: nat): seq<Tree>
    requires v > 0
    decreases cs
  {
    if cs == [] then []
    else if cs[0].name == c then [Reduced(cs[0], v)] + cs[1..]
    else if FindAll(cs[0].children, c).Some? then
      [cs[0].(children := ReducedInPlace(cs[0].children, c, v))] + cs[1..]
    else [cs[0]] + ReducedInPlace(cs[1..], c, v)
  }

  /** Those processes are the ones that exit next, so the reduction is not seen again. */
  lemma {:induction false} ReducedThenGraduated(cs: seq<Tree>, c: string, v: nat)
    requires v > 0
    ensures GraduateRouteAll(ReducedInPlace(cs, c, v), c) == GraduateRouteAll(cs, c)
    decreases cs
  {
    if cs != [] {
      GraduateFinds(cs[0].children, c);
      ReducedThenGraduated(cs[0].children, c, v);
      ReducedThenGraduated(cs[1..], c, v);
      assert ([Reduced(cs[0], v)] + cs[1..])[1..] == cs[1..];
      assert ([cs[0]] + ReducedInPlace(cs[1..], c, v))[1..] == ReducedInPlace(cs[1..], c, v);
      var d := cs[0].(children := ReducedInPlace(cs[0].children, c, v));
      assert ([d] + cs[1..])[1..] == cs[1..];
    }
  }

  lemma {:induction false} ReducedAbsent(cs: seq<Tree>, c: string, v: nat)
    requires v > 0 && FindAll(cs, c).None?
    ensures ReducedInPlace(cs, c, v) == cs
    decreases cs
  {
    if cs != [] {
      ReducedAbsent(cs[1..], c, v);
    }
  }

  /** Children asked in order, as the loop of adopt does. */
  lemma {:induction false} AdoptAt(cs: seq<Tree>, p: string, c: string, v: nat, i: nat)
    requires v > 0 && i <= |cs|
    requires forall j :: 0 <= j < i ==> cs[j].name != c && FindAll(cs[j].children, c).None?
    ensures i == |cs| ==> AdoptRoute(cs, p, c, v) == None && ReducedInPlace(cs, c, v) == cs
    ensures i < |cs| && cs[i].name == c ==>
      && AdoptRoute(cs, p, c, v) == Some([RecordOf(p, c, cs[i].value % v)] + RecordsAll(c, cs[i].children, v))
      && ReducedInPlace(cs, c, v) == cs[i := Reduced(cs[i], v)]
    ensures i < |cs| && cs[i].name != c && FindAll(cs[i].children, c).Some? ==>
      && AdoptRoute(cs, p, c, v) == AdoptRoute(cs[i].children, p, c, v)
      && ReducedInPlace(cs, c, v) == cs[i := cs[i].(children := ReducedInPlace(cs[i].children, c, v))]
    decreases cs
  {
    if cs != [] && i == 0 {
      AdoptFirst(cs, p, c, v);
    } else if cs != [] {
      AdoptRouteFinds(cs[0].children, p, c, v);
      AdoptAt(cs[1..], p, c, v, i - 1);
      assert [cs[0]] + cs[1..] == cs;
      if i < |cs| {
        TailChanged(cs, i, Reduced(cs[i], v));
        TailChanged(cs, i, cs[i].(children := ReducedInPlace(cs[i].children, c, v)));
      }
    }
  }

  lemma AdoptFirst(cs: seq<Tree>, p: string, c: string, v: nat)
    requires v > 0 && cs != []
    ensures cs[0].name == c ==>
      && AdoptRoute(cs, p, c, v) == Some([RecordOf(p, c, cs[0].value % v)] + RecordsAll(c, cs[0].children, v))
      && ReducedInPlace(cs, c, v) == cs[0 := Reduced(cs[0], v)]
    ensures cs[0].name != c && FindAll(cs[0].children, c).Some? ==>
      && AdoptRoute(cs, p, c, v) == AdoptRoute(cs[0].children, p, c, v)
      && ReducedInPlace(cs, c, v) == cs[0 := cs[0].(children := ReducedInPlace(cs[0].children, c, v))]
  {
    AdoptRouteFinds(cs[0].children, p, c, v);
    assert [Reduced(cs[0], v)] + cs[1..] == cs[0 := Reduced(cs[0], v)];
    var d := cs[0].(children := ReducedInPlace(cs[0].children, c, v));
    assert [d] + cs[1..] == cs[0 := d];
  }

  lemma {:induction false} RecordsAppend(p: string, a: seq<Tree>, b: seq<Tree>, v: nat)
    requires v > 0
    ensures RecordsAll(p, a + b, v) == RecordsAll(p, a, v) + RecordsAll(p, b, v)
    decreases |a|
  {
    if a == [] {
      assert a + b == b;
    } else {
      assert (a + b)[1..] == a[1..] + b;
      RecordsAppend(p, a[1..], b, v);
    }
  }

  lemma {:induction false} ReducedAllAt(ts: seq<Tree>, v: nat)
    requires v > 0
    ensures |ReducedAll(ts, v)| == |ts|
    ensures forall i :: 0 <= i < |ts| ==> ReducedAll(ts, v)[i] == Reduced(ts[i], v)
  {
    if ts != [] {
      ReducedAllAt(ts[1..], v);
    }
  }

  // ---- The whole command

  /** The search for c writes the records of the first friend called c, whoever relays it. */
  lemma {:induction false} AdoptRouteFinds(cs: seq<Tree>, p: string, c: string, v: nat)
    requires v > 0
    ensures AdoptRoute(cs, p, c, v)
         == if FindAll(cs, c).Some? then Some(RecordsAll(p, [FindAll(cs, c).value], v)) else None
    decreases cs
  {
    if cs != [] {
      AdoptRouteFinds(cs[0].children, p, c, v);
      AdoptRouteFinds(cs[1..], p, c, v);
      if cs[0].name == c {
        assert RecordsAll(p, [cs[0]][1..], v) == [];
        assert RecordsAll(p, [cs[0]], v) == [RecordOf(p, c, cs[0].value % v)] + RecordsAll(c, cs[0].children, v);
      }
    }
  }

  /** Adopt is refused exactly when c is the root, p is unknown, or p is a strict
      descendant of c. */
  lemma AdoptRefusal(t: Tree, p: string, c: string)
    requires Unique(t)
    ensures AdoptCommand(t, p, c).Refused? <==> c == t.name || Count(t, p) == 0 || StrictlyBelow(t, p, c)
  {
    FindCounts(t, p);
    assert Count(t, p) <= 1 && Count(t, c) <= 1;
    ValueRouteAnswer(t, p, c);
  }

  /** p may adopt c: c is not the root, and p is known and no strict descendant of c. */
  predicate MayAdopt(t: Tree, p: string, c: string) {
    c != t.name && Count(t, p) > 0 && !StrictlyBelow(t, p, c)
  }

  /** How the command ends, by what can be looked up in the tree before it. */
  lemma AdoptOutcomes(t: Tree, p: string, c: string)
    requires Unique(t)
    ensures Count(t, p) > 0 ==> Find(t, p).Some?
    ensures AdoptCommand(t, p, c).Refused? <==> !MayAdopt(t, p, c)
    ensures AdoptCommand(t, p, c).Blocked? <==> MayAdopt(t, p, c) && Count(t, c) == 0
    ensures AdoptCommand(t, p, c).Crashed? <==> MayAdopt(t, p, c) && Count(t, c) > 0 && Find(t, p).value.value == 0
    ensures AdoptCommand(t, p, c).Adopted? <==> MayAdopt(t, p, c) && Count(t, c) > 0 && Find(t, p).value.value > 0
  {
    FindCounts(t, p);
    AdoptRefusal(t, p, c);
    if MayAdopt(t, p, c) {
      assert Count(t, p) <= 1 && Count(t, c) <= 1;
      ValueRouteAnswer(t, p, c);
      FindAllCounts(t.children, c);
      var v := Find(t, p).value.value;
      if v > 0 {
        AdoptRouteFinds(t.children, p, c, v);
      }
    }
  }

  /** Otherwise, with c in the tree and a nonzero value at p, the command ends with c's
      subtree taken from its place and attached, reduced, behind the children of p. */
  lemma AdoptMoves(t: Tree, p: string, c: string)
    requires Unique(t) && c != t.name && Count(t, p) == 1 && !StrictlyBelow(t, p, c)
    requires Find(t, c).Some? && Find(t, p).Some? && Find(t, p).value.value > 0
    ensures AdoptCommand(t, p, c)
         == Adopted(Attach(Remove(t, c), p, [Reduced(Find(t, c).value, Find(t, p).value.value)]))
  {
    var s, v := Find(t, c).value, Find(t, p).value.value;
    assert Count(t, c) <= 1;
    ValueRouteAnswer(t, p, c);
    AdoptRouteFinds(t.children, p, c, v);
    GraduateIsRemove(t, c);
    var u := Remove(t, c);
    forall n ensures Count(u, n) + CountAll([s], n) == Count(t, n) {
      RemoveCounts(t, c, n);
      assert CountAll([s], n) == Count(s, n);
    }
    assert forall n :: Count(t, n) <= 1;
    FindCounts(t, c);
    assert ReducedAll([s], v) == [Reduced(s, v)];
    if p == c {
      assert Count(u, c) == 0 by { assert Count(u, c) + CountAll([s], c) == Count(t, c); }
      forall i | 0 <= i < |RecordsAll(p, [s], v)| ensures Count(u, RecordsAll(p, [s], v)[i].parent) == 0 {
        RecordParents(p, [s], v, i);
        var q := RecordsAll(p, [s], v)[i].parent;
        assert Count(u, q) + CountAll([s], q) == Count(t, q);
      }
      ReplayAbsent(u, RecordsAll(p, [s], v));
      AttachAbsent(u, p, [Reduced(s, v)]);
    } else {
      assert Count(u, p) + CountAll([s], p) == Count(t, p);
      ReplayRebuilds(u, p, [s], v);
    }
  }

  /** Every record names as parent either p or a friend of the subtrees themselves. */
  lemma {:induction false} RecordParents(p: string, cs: seq<Tree>, v: nat, i: nat)
    requires v > 0 && i < |RecordsAll(p, cs, v)|
    ensures RecordsAll(p, cs, v)[i].parent == p || CountAll(cs, RecordsAll(p, cs, v)[i].parent) > 0
    decreases cs
  {
    var below := RecordsAll(cs[0].name, cs[0].children, v);
    if 0 < i <= |below| {
      RecordParents(cs[0].name, cs[0].children, v, i - 1);
      assert RecordsAll(p, cs, v)[i] == below[i - 1];
    } else if i > |below| {
      RecordParents(p, cs[1..], v, i - 1 - |below|);
      assert RecordsAll(p, cs, v)[i] == RecordsAll(p, cs[1..], v)[i - 1 - |below|];
    }
  }

  // ---- What the move means

  /** Attaching a new subtree and removing it again gives the tree back. */
  lemma {:induction false} RemoveAttached(t: Tree, p: string, x: Tree)
    requires Count(t, x.name) == 0
    ensures Remove(Attach(t, p, [x]), x.name) == t
    decreases t, 1
  {
    RemoveAllAttached(t.children, p, x, if t.name == p then [x] else []);
  }

  lemma FirstStays(first: Tree, rest: seq<Tree>, c: string)
    requires first.name != c
    ensures RemoveAll([first] + rest, c) == [Remove(first, c)] + RemoveAll(rest, c)
  {
    assert ([first] + rest)[1..] == rest;
  }

  lemma NothingElseAttached(x: Tree, more: seq<Tree>)
    requires more == [x] || more == []
    ensures RemoveAll(more, x.name) == []
  {
    assert more != [] ==> more[1..] == [];
  }

  lemma {:induction false} RemoveAllAttached(ts: seq<Tree>, p: string, x: Tree, more: seq<Tree>)
    requires CountAll(ts, x.name) == 0 && (more == [x] || more == [])
    ensures RemoveAll(AttachAll(ts, p, [x]) + more, x.name) == ts
    decreases ts, 0
  {
    if ts == [] {
      assert AttachAll(ts, p, [x]) + more == more;
      NothingElseAttached(x, more);
    } else {
      var first, rest := Attach(ts[0], p, [x]), AttachAll(ts[1..], p, [x]) + more;
      RemoveAttached(ts[0], p, x);
      RemoveAllAttached(ts[1..], p, x, more);
      assert AttachAll(ts, p, [x]) + more == [first] + rest;
      FirstStays(first, rest, x.name);
    }
  }

  /** The attached subtree is found, and it is the last child of its parent. */
  lemma {:induction false} FindAttached(t: Tree, p: string, x: Tree)
    requires Count(t, p) == 1 && Count(t, x.name) == 0 && Count(x, p) == 0
    ensures Find(Attach(t, p, [x]), x.name) == Some(x)
    ensures Find(t, p).Some?
    ensures Find(Attach(t, p, [x]), p) == Some(Find(t, p).value.(children := Find(t, p).value.children + [x]))
    decreases t, 1
  {
    if t.name == p {
      AttachAllAbsent(t.children, p, [x]);
      FindAppend(t.children, [x], x.name);
      FindAllCounts(t.children, x.name);
      assert FindAll([x], x.name) == Some(x);
    } else {
      FindAllAttached(t.children, p, x);
      assert Attach(t, p, [x]).children == AttachAll(t.children, p, [x]);
    }
  }

  lemma {:induction false} FindAllAttached(ts: seq<Tree>, p: string, x: Tree)
    requires CountAll(ts, p) == 1 && CountAll(ts, x.name) == 0 && Count(x, p) == 0
    ensures FindAll(AttachAll(ts, p, [x]), x.name) == Some(x)
    ensures FindAll(ts, p).Some?
    ensures FindAll(AttachAll(ts, p, [x]), p) == Some(FindAll(ts, p).value.(children := FindAll(ts, p).value.children + [x]))
    decreases ts, 0
  {
    FindCounts(ts[0], p);
    if Count(ts[0], p) == 1 {
      FindAttached(ts[0], p, x);
    } else {
      AttachAbsent(ts[0], p, [x]);
      FindCounts(ts[0], x.name);
      FindAllAttached(ts[1..], p, x);
    }
  }

  /** Adopt moves the subtree of c under p and nothing else: every name is still there
      once, p has c as its last child, c's subtree has kept its shape with every value
      reduced modulo p's, and apart from it the tree is the same as before. It holds
      exactly when p is not c itself, which find_parent_value does not exclude. */
  lemma AdoptKeepsEverybody(t: Tree, p: string, c: string)
    requires Unique(t) && c != t.name && Count(t, p) == 1 && !StrictlyBelow(t, p, c)
    requires Find(t, c).Some? && Find(t, p).Some? && Find(t, p).value.value > 0
    ensures AdoptCommand(t, p, c).Adopted?
    ensures var t' := AdoptCommand(t, p, c).tree;
      (forall n :: Count(t', n) == Count(t, n)) <==> p != c
    ensures p == c ==> AdoptCommand(t, p, c).tree == Remove(t, c)
    ensures var s, v, t' := Find(t, c).value, Find(t, p).value.value, AdoptCommand(t, p, c).tree;
      p != c ==>
        && Find(t', c) == Some(Reduced(s, v))
        && Remove(t', c) == Remove(t, c)
        && Find(Remove(t, c), p).Some?
        && Find(t', p) == Some(Find(Remove(t, c), p).value.(children := Find(Remove(t, c), p).value.children + [Reduced(s, v)]))
  {
    AdoptMoves(t, p, c);
    var s, v, u := Find(t, c).value, Find(t, p).value.value, Remove(t, c);
    var x := Reduced(s, v);
    assert Count(t, c) <= 1;
    FindCounts(t, c);
    forall n ensures Count(u, n) == Count(t, n) - Count(s, n) && Count(x, n) == Count(s, n) && CountAll([x], n) == Count(x, n) {
      RemoveCounts(t, c, n);
      ReducedCounts(s, v, n);
    }
    assert Count(s, c) == 1;
    if p == c {
      AttachAbsent(u, p, [x]);
      assert Count(u, c) != Count(t, c);
    } else {
      assert Count(s, p) == 0;
      forall n ensures Count(Attach(u, p, [x]), n) == Count(t, n) {
        AttachCounts(u, p, [x], n);
      }
      RemoveAttached(u, p, x);
      FindAttached(u, p, x);
    }
  }
}
