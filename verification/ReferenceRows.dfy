/** The nodes of hw2/test.c as a table: for each name what its node shows and the names of
    its children. How a tree follows from the table, and what changes of rows do to the tree. */
module ReferenceRows {
  import opened Options
  import opened FriendTree
  import opened FriendText
  import opened FriendAdopt

  datatype Row = Row(info: string, value: nat, kids: seq<string>)

  type Rows = map<string, Row>

  function Names(ts: seq<Tree>): (r: seq<string>)
    ensures |r| == |ts|
  {
    if ts == [] then [] else [ts[0].name] + Names(ts[1..])
  }

  /** Every friend of the trees ts has the row that belongs to it. */
  ghost predicate Matches(rows: Rows, ts: seq<Tree>)
    decreases ts
  {
    ts == [] ||
    (&& ts[0].name in rows && rows[ts[0].name] == Row(ts[0].info, ts[0].value, Names(ts[0].children))
     && Matches(rows, ts[0].children) && Matches(rows, ts[1..]))
  }

  lemma {:induction false} NamesAppend(a: seq<Tree>, b: seq<Tree>)
    ensures Names(a + b) == Names(a) + Names(b)
  {
    if a == [] {
      assert a + b == b;
    } else {
      assert (a + b)[1..] == a[1..] + b;
      NamesAppend(a[1..], b);
    }
  }

  lemma {:induction false} NamesAt(ts: seq<Tree>, i: nat)
    requires i < |ts|
    ensures Names(ts)[i] == ts[i].name
  {
    if i > 0 {
      NamesAt(ts[1..], i - 1);
    }
  }

  lemma {:induction false} MatchesAppend(rows: Rows, a: seq<Tree>, b: seq<Tree>)
    ensures Matches(rows, a + b) <==> Matches(rows, a) && Matches(rows, b)
  {
    if a == [] {
      assert a + b == b;
    } else {
      assert (a + b)[1..] == a[1..] + b;
      MatchesAppend(rows, a[1..], b);
    }
  }

  /** Only the rows of the friends themselves matter. */
  lemma {:induction false} MatchesKeep(rows: Rows, now: Rows, ts: seq<Tree>)
    requires Matches(rows, ts)
    requires forall n :: CountAll(ts, n) > 0 && n in rows ==> n in now && now[n] == rows[n]
    ensures Matches(now, ts)
    decreases ts
  {
    if ts != [] {
      assert CountAll(ts, ts[0].name) > 0;
      forall n | CountAll(ts[0].children, n) > 0 || CountAll(ts[1..], n) > 0 ensures CountAll(ts, n) > 0 {
      }
      MatchesKeep(rows, now, ts[0].children);
      MatchesKeep(rows, now, ts[1..]);
    }
  }

  /** What is found in the trees has its rows. */
  lemma {:induction false} FoundMatches(rows: Rows, ts: seq<Tree>, n: string)
    requires Matches(rows, ts) && FindAll(ts, n).Some?
    ensures Matches(rows, [FindAll(ts, n).value])
    decreases ts
  {
    if ts[0].name == n {
      assert [ts[0]][1..] == [];
    } else if Find(ts[0], n).Some? {
      FoundMatches(rows, ts[0].children, n);
    } else {
      FoundMatches(rows, ts[1..], n);
    }
  }

  lemma {:induction false} MatchesKnown(rows: Rows, ts: seq<Tree>, n: string)
    requires Matches(rows, ts) && CountAll(ts, n) > 0
    ensures n in rows
    decreases ts
  {
    if ts[0].name != n {
      if CountAll(ts[0].children, n) > 0 {
        MatchesKnown(rows, ts[0].children, n);
      } else {
        MatchesKnown(rows, ts[1..], n);
      }
    }
  }

  // ---- Values reduced

  function ReducedRow(n: string, row: Row, v: nat): Row
    requires v > 0
  {
    Row(InfoText(n, row.value % v), row.value % v, row.kids)
  }

  lemma {:induction false} NamesReduced(ts: seq<Tree>, v: nat)
    requires v > 0
    ensures Names(ReducedAll(ts, v)) == Names(ts)
  {
    if ts != [] {
      NamesReduced(ts[1..], v);
    }
  }

  /** Reducing the rows of all friends of some trees reduces the trees. */
  lemma {:induction false} ReducedMatches(rows: Rows, now: Rows, ts: seq<Tree>, v: nat)
    requires v > 0 && Matches(rows, ts)
    requires forall n :: CountAll(ts, n) > 0 ==> n in rows && n in now && now[n] == ReducedRow(n, rows[n], v)
    ensures Matches(now, ReducedAll(ts, v))
    decreases ts
  {
    if ts != [] {
      NamesReduced(ts[0].children, v);
      assert CountAll(ts, ts[0].name) > 0;
      forall n | CountAll(ts[0].children, n) > 0 || CountAll(ts[1..], n) > 0 ensures CountAll(ts, n) > 0 {
      }
      ReducedMatches(rows, now, ts[0].children, v);
      ReducedMatches(rows, now, ts[1..], v);
    }
  }

  // ---- A child taken out

  function Without(names: seq<string>, c: string): seq<string> {
    if names == [] then [] else (if names[0] == c then [] else [names[0]]) + Without(names[1..], c)
  }

  lemma {:induction false} WithoutAppend(a: seq<string>, b: seq<string>, c: string)
    ensures Without(a + b, c) == Without(a, c) + Without(b, c)
  {
    if a == [] {
      assert a + b == b;
    } else {
      assert (a + b)[1..] == a[1..] + b;
      WithoutAppend(a[1..], b, c);
    }
  }

  lemma {:induction false} WithoutAbsent(names: seq<string>, c: string)
    requires c !in names
    ensures Without(names, c) == names
  {
    if names != [] {
      WithoutAbsent(names[1..], c);
    }
  }

  lemma {:induction false} WithoutIsGone(names: seq<string>, c: string)
    ensures c !in Without(names, c)
  {
    if names != [] {
      WithoutIsGone(names[1..], c);
    }
  }

  lemma {:induction false} NamesRemoved(ts: seq<Tree>, c: string)
    ensures Names(RemoveAll(ts, c)) == Without(Names(ts), c)
    decreases ts
  {
    if ts != [] {
      NamesRemoved(ts[1..], c);
      assert Names(ts)[1..] == Names(ts[1..]);
    }
  }

  /** How often a name occurs. */
  function Times(names: seq<string>, c: string): nat {
    if names == [] then 0 else (if names[0] == c then 1 else 0) + Times(names[1..], c)
  }

  lemma {:induction false} TimesAppend(a: seq<string>, b: seq<string>, c: string)
    ensures Times(a + b, c) == Times(a, c) + Times(b, c)
  {
    if a == [] {
      assert a + b == b;
    } else {
      assert (a + b)[1..] == a[1..] + b;
      TimesAppend(a[1..], b, c);
    }
  }

  lemma {:induction false} TimesPositive(names: seq<string>, c: string)
    ensures Times(names, c) > 0 <==> c in names
  {
    if names != [] {
      TimesPositive(names[1..], c);
    }
  }

  lemma OnlyOnce(a: seq<string>, c: string, b: seq<string>)
    requires Times(a + [c] + b, c) == 1
    ensures c !in a && c !in b
  {
    TimesAppend(a + [c], b, c);
    TimesAppend(a, [c], c);
    assert Times([c], c) == 1 + Times([], c);
    TimesPositive(a, c);
    TimesPositive(b, c);
  }

  /** Taking out a name that occurs once. */
  lemma {:induction false} WithoutOnly(a: seq<string>, c: string, b: seq<string>)
    requires c !in a && c !in b
    ensures Without(a + [c] + b, c) == a + b
  {
    var names := a + [c] + b;
    if a == [] {
      assert names[1..] == b && a + b == b;
      WithoutAbsent(b, c);
    } else {
      assert names[1..] == a[1..] + [c] + b && names[0] == a[0];
      WithoutOnly(a[1..], c, b);
      assert [a[0]] + (a[1..] + b) == a + b;
    }
  }

  /** A name is at most as often among the children as in their trees. */
  lemma {:induction false} NamesCount(ts: seq<Tree>, c: string)
    ensures Times(Names(ts), c) <= CountAll(ts, c)
  {
    if ts != [] {
      NamesCount(ts[1..], c);
      assert Names(ts)[1..] == Names(ts[1..]);
    }
  }

  /** Taking c out of the rows of all others removes its subtree. */
  lemma {:induction false} RemovedMatches(rows: Rows, now: Rows, ts: seq<Tree>, c: string)
    requires Matches(rows, ts)
    requires forall n :: CountAll(RemoveAll(ts, c), n) > 0 ==>
      n in rows && n in now && now[n] == rows[n].(kids := Without(rows[n].kids, c))
    ensures Matches(now, RemoveAll(ts, c))
    decreases ts
  {
    if ts != [] {
      var rest := RemoveAll(ts[1..], c);
      if ts[0].name == c {
        RemovedMatches(rows, now, ts[1..], c);
      } else {
        var d := Remove(ts[0], c);
        NamesRemoved(ts[0].children, c);
        assert RemoveAll(ts, c) == [d] + rest && ([d] + rest)[1..] == rest;
        assert CountAll(RemoveAll(ts, c), ts[0].name) > 0;
        forall n | CountAll(d.children, n) > 0 || CountAll(rest, n) > 0 ensures CountAll(RemoveAll(ts, c), n) > 0 {
        }
        RemovedMatches(rows, now, ts[0].children, c);
        RemovedMatches(rows, now, ts[1..], c);
      }
    }
  }

  /** A friend below the roots is among the children of somebody, once. */
  lemma {:induction false} ParentRow(rows: Rows, ts: seq<Tree>, c: string) returns (q: string)
    requires Matches(rows, ts) && CountAll(ts, c) == 1 && c !in Names(ts)
    ensures q in rows && CountAll(ts, q) > 0 && Times(rows[q].kids, c) == 1
    decreases ts
  {
    var cs := ts[0].children;
    assert Names(ts) == [ts[0].name] + Names(ts[1..]);
    if CountAll(cs, c) == 1 {
      if c in Names(cs) {
        q := ts[0].name;
        NamesCount(cs, c);
        TimesPositive(Names(cs), c);
      } else {
        q := ParentRow(rows, cs, c);
      }
    } else {
      assert Names(ts[1..]) == Names(ts)[1..];
      q := ParentRow(rows, ts[1..], c);
    }
  }

  // ---- Trees put behind the children of one

  lemma {:induction false} NamesAttached(ts: seq<Tree>, p: string, xs: seq<Tree>)
    ensures Names(AttachAll(ts, p, xs)) == Names(ts)
  {
    if ts != [] {
      NamesAttached(ts[1..], p, xs);
    }
  }

  /** Putting the names of xs behind the children of p attaches xs there. */
  lemma {:induction false} AttachedMatches(rows: Rows, now: Rows, ts: seq<Tree>, p: string, xs: seq<Tree>)
    requires Matches(rows, ts) && Matches(now, xs)
    requires forall n :: CountAll(ts, n) > 0 ==>
      n in rows && n in now && now[n] == rows[n].(kids := rows[n].kids + if n == p then Names(xs) else [])
    ensures Matches(now, AttachAll(ts, p, xs))
    decreases ts
  {
    if ts != [] {
      var d, rest := Attach(ts[0], p, xs), AttachAll(ts[1..], p, xs);
      var mine := if ts[0].name == p then xs else [];
      assert CountAll(ts, ts[0].name) > 0;
      forall n | CountAll(ts[0].children, n) > 0 || CountAll(ts[1..], n) > 0 ensures CountAll(ts, n) > 0 {
      }
      AttachedMatches(rows, now, ts[0].children, p, xs);
      AttachedMatches(rows, now, ts[1..], p, xs);
      NamesAttached(ts[0].children, p, xs);
      NamesAppend(AttachAll(ts[0].children, p, xs), mine);
      MatchesAppend(now, AttachAll(ts[0].children, p, xs), mine);
      assert ([d] + rest)[1..] == rest;
    }
  }
}
