/** TreeAdopt of hw2/test.c on node objects: the check of the listing, the queue loop that
    reduces values, the scan of the old parent's slots and the insertion at the new parent.
    The tree it ends with is compared with the one that the processes of hw2/friend.c build. */
module ReferenceAdopt {
  import opened Options
  import opened FriendTree
  import opened FriendText
  import opened FriendRouting
  import opened FriendAdopt
  import opened FriendListing
  import opened ReferenceLists
  import opened ReferenceRows
  import opened ReferenceNodes

  // ---- Reducing values

  /** The rows when the nodes of s, apart from those still queued, are reduced. */
  ghost predicate ReducedSoFar(rows: Rows, now: Rows, s: Tree, ts: seq<Tree>, v: nat)
    requires v > 0
  {
    && rows.Keys == now.Keys
    && (forall n :: CountAll(ts, n) <= Count(s, n) <= 1)
    && (forall n :: n in rows ==> now[n] == if Count(s, n) > CountAll(ts, n) then ReducedRow(n, rows[n], v) else rows[n])
  }

  lemma ReduceFirst(rows: Rows, now: Rows, s: Tree, ts: seq<Tree>, v: nat)
    requires v > 0 && ts != [] && ReducedSoFar(rows, now, s, ts, v) && Matches(rows, ts)
    ensures ts[0].name in now && now[ts[0].name].kids == Names(ts[0].children) && Count(s, ts[0].name) > 0
    ensures ReducedSoFar(rows, now[ts[0].name := ReducedRow(ts[0].name, now[ts[0].name], v)], s, ts[1..] + ts[0].children, v)
  {
    var n := ts[0].name;
    assert CountAll(ts, n) == 1 + CountAll(ts[0].children, n) + CountAll(ts[1..], n);
    forall m ensures CountAll(ts[1..] + ts[0].children, m) == CountAll(ts, m) - if m == n then 1 else 0 {
      CountAppend(ts[1..], ts[0].children, m);
    }
  }

  lemma OtherRows(nodes: NodeTree, rows: Rows, q: string)
    requires nodes.Shows(rows) && q in rows
    ensures nodes.RowAt(q) == rows[q] && forall n :: n in rows && n != q ==> nodes.RowAt(n) == rows[n]
  {
  }

  lemma OneRow(nodes: NodeTree, rows: Rows, q: string, row: Row)
    requires nodes.Wired() && nodes.at.Keys == rows.Keys && q in rows && nodes.RowAt(q) == row
    requires forall n :: n in rows && n != q ==> nodes.RowAt(n) == rows[n]
    ensures nodes.Shows(rows[q := row])
  {
  }

  /** The values of one node: the others, and all friends, stay as they are. */
  method ReduceNode(nodes: NodeTree, cur: Node, newParent: Node)
    requires nodes.Wired() && cur.name in nodes.at && nodes.at[cur.name] == cur && newParent.value > 0
    modifies cur`info, cur`value
    ensures nodes.Wired()
    ensures nodes.RowAt(cur.name) == ReducedRow(cur.name, old(nodes.RowAt(cur.name)), old(newParent.value))
    ensures forall n :: n in nodes.at && n != cur.name ==> nodes.RowAt(n) == old(nodes.RowAt(n))
  {
    cur.info := InfoText(cur.name, cur.value % newParent.value);
    cur.value := cur.value % newParent.value;
    forall n | n in nodes.at ensures nodes.FriendsOf(n) == old(nodes.FriendsOf(n)) && nodes.FriendsKnown(n) {
      assert old(nodes.FriendsKnown(n));
    }
  }

  /** The next node of the queue is taken and reduced. */
  method TakeReduced(nodes: NodeTree, queue: NodeQueue<Node?>, newParent: Node, ghost now: Rows, ghost ts: seq<Tree>)
      returns (cur: Node)
    requires nodes.Shows(now) && nodes.Queued(queue, ts) && ts != [] && ts[0].name in now && newParent.value > 0
    modifies queue, nodes.Nodes
    ensures cur == nodes.at[ts[0].name] && nodes.Queued(queue, ts[1..])
    ensures nodes.Shows(now[ts[0].name := ReducedRow(ts[0].name, now[ts[0].name], old(newParent.value))])
  {
    cur := nodes.PopFront(queue, ts);
    nodes.StillShows(now);
    OtherRows(nodes, now, ts[0].name);
    ghost var row := ReducedRow(ts[0].name, now[ts[0].name], newParent.value);
    ReduceNode(nodes, cur, newParent);
    OneRow(nodes, now, ts[0].name, row);
  }

  method ReduceStep(nodes: NodeTree, queue: NodeQueue<Node?>, newParent: Node, ghost rows: Rows, ghost now: Rows,
                    ghost s: Tree, ghost ts: seq<Tree>) returns (ghost next: Rows)
    requires newParent.value > 0 && ReducedSoFar(rows, now, s, ts, newParent.value)
    requires nodes.Shows(now) && nodes.Queued(queue, ts) && Matches(rows, ts) && ts != []
    modifies queue, queue.elements, nodes.Nodes
    ensures nodes.Shows(next) && nodes.Queued(queue, ts[1..] + ts[0].children)
    ensures ReducedSoFar(rows, next, s, ts[1..] + ts[0].children, old(newParent.value))
  {
    ReduceFirst(rows, now, s, ts, newParent.value);
    OpenFirst(rows, ts);
    next := now[ts[0].name := ReducedRow(ts[0].name, now[ts[0].name], newParent.value)];
    var cur := TakeReduced(nodes, queue, newParent, now, ts);
    PushFriendsOf(nodes, queue, cur, next, ts[1..], ts[0]);
  }

  method PushFriendsOf(nodes: NodeTree, queue: NodeQueue<Node?>, cur: Node, ghost now: Rows, ghost ts: seq<Tree>, ghost d: Tree)
    requires nodes.Shows(now) && nodes.Queued(queue, ts) && d.name in now && cur == nodes.at[d.name]
    requires SizeAll(ts + d.children) <= MAX_FRIENDS && now[d.name].kids == Names(d.children)
    modifies queue, queue.elements
    ensures nodes.Shows(now) && nodes.Queued(queue, ts + d.children)
  {
    assert now[d.name] == nodes.RowAt(d.name);
    nodes.PushFriends(queue, cur, ts, d);
    nodes.StillShows(now);
  }

  /** The loop over the queue. */
  method ReduceFrom(nodes: NodeTree, queue: NodeQueue<Node?>, newParent: Node, ghost rows: Rows, ghost s: Tree, ghost p: string)
      returns (ghost now: Rows)
    requires p in rows && nodes.Shows(rows) && newParent == nodes.at[p] && rows[p].value > 0
    requires nodes.Queued(queue, [s]) && Matches(rows, [s]) && Count(s, p) == 0 && forall n :: Count(s, n) <= 1
    modifies queue, queue.elements, nodes.Nodes
    ensures nodes.Shows(now) && ReducedSoFar(rows, now, s, [], rows[p].value)
  {
    ghost var v, ts := rows[p].value, [s];
    now := rows;
    NothingReduced(rows, s, v);
    while queue.size > 0
      invariant nodes.Shows(now) && nodes.Queued(queue, ts) && Matches(rows, ts)
      invariant ReducedSoFar(rows, now, s, ts, v)
      decreases SizeAll(ts)
    {
      assert now[p] == rows[p] && now[p] == nodes.RowAt(p);
      OpenFirst(rows, ts);
      now := ReduceStep(nodes, queue, newParent, rows, now, s, ts);
      ts := ts[1..] + ts[0].children;
    }
  }

  lemma NothingReduced(rows: Rows, s: Tree, v: nat)
    requires v > 0 && forall n :: Count(s, n) <= 1
    ensures ReducedSoFar(rows, rows, s, [s], v)
  {
    forall n ensures CountAll([s], n) == Count(s, n) {
    }
  }

  /** The part of TreeAdopt that adjusts the values of the subtree. */
  method Reduce(nodes: NodeTree, child: Node, newParent: Node, ghost rows: Rows, ghost s: Tree, ghost p: string)
      returns (ghost now: Rows)
    requires p in rows && nodes.Shows(rows) && newParent == nodes.at[p] && rows[p].value > 0
    requires s.name in nodes.at && child == nodes.at[s.name] && Size(s) <= MAX_FRIENDS && Matches(rows, [s])
    requires Count(s, p) == 0 && forall n :: Count(s, n) <= 1
    modifies nodes.Nodes
    ensures nodes.Shows(now) && ReducedSoFar(rows, now, s, [], rows[p].value)
  {
    var queue := nodes.NewQueue(child, s);
    nodes.StillShows(rows);
    now := ReduceFrom(nodes, queue, newParent, rows, s, p);
  }

  // ---- Leaving the old parent

  /** The rows when c is no child of q any more. */
  function Dropped(rows: Rows, q: string, c: string): Rows
    requires q in rows
  {
    rows[q := rows[q].(kids := Without(rows[q].kids, c))]
  }

  /** If c was nobody else's child, it is nobody's then. */
  lemma NobodysChild(rows: Rows, q: string, c: string)
    requires q in rows && forall n :: n in rows && c in rows[n].kids ==> n == q
    ensures forall n :: n in rows ==> Dropped(rows, q, c)[n] == rows[n].(kids := Without(rows[n].kids, c))
    ensures forall n :: n in rows ==> c !in Dropped(rows, q, c)[n].kids
  {
    WithoutIsGone(rows[q].kids, c);
    forall n | n in rows && n != q ensures rows[n] == rows[n].(kids := Without(rows[n].kids, c)) {
      WithoutAbsent(rows[n].kids, c);
    }
  }

  /** A node that is among the friends of q has q as its parent, and is nobody else's friend. */
  lemma OldParent(nodes: NodeTree, rows: Rows, q: string, c: string)
    requires nodes.Shows(rows) && q in rows && c in rows[q].kids
    ensures c in nodes.at && nodes.at[c].parent == nodes.at[q]
    ensures forall n :: n in rows && c in rows[n].kids ==> n == q
  {
    FriendCalled(nodes, rows, q, c);
    forall n | n in rows && c in rows[n].kids ensures n == q {
      FriendCalled(nodes, rows, n, c);
      assert nodes.at[n].name == n;
    }
  }

  lemma FriendCalled(nodes: NodeTree, rows: Rows, q: string, c: string)
    requires nodes.Shows(rows) && q in rows && c in rows[q].kids
    ensures c in nodes.at && nodes.at[c] in nodes.FriendsOf(q) && nodes.at[c].parent == nodes.at[q]
  {
    var friends := nodes.FriendsOf(q);
    assert rows[q] == nodes.RowAt(q) && nodes.FriendsKnown(q);
    var i :| 0 <= i < |NamesOf(friends)| && NamesOf(friends)[i] == c;
    assert friends[i] in friends;
  }

  /** The scan over the slots for the name of the child. */
  method FindSlot(friends: FriendArray<Node>, name: string) returns (i: nat)
    requires friends.Valid() && name in NamesOf(Live(friends.slots[..]))
    ensures i < MAX_CMD_NUM && friends.slots[i].Some? && friends.slots[i].value.name == name
    ensures name !in NamesOf(Live(friends.slots[..i]))
  {
    assert friends.slots[..MAX_CMD_NUM] == friends.slots[..];
    i := 0;
    while i < MAX_CMD_NUM && (friends.slots[i].None? || friends.slots[i].value.name != name)
      invariant i <= MAX_CMD_NUM && name !in NamesOf(Live(friends.slots[..i]))
      decreases MAX_CMD_NUM - i
    {
      NextSlot(friends.slots[..], i, name);
      assert friends.slots[..][..i + 1] == friends.slots[..i + 1];
      i := i + 1;
    }
  }

  lemma NextSlot(slots: seq<Option<Node>>, i: nat, name: string)
    requires i < |slots| && name !in NamesOf(Live(slots[..i]))
    requires slots[i].None? || slots[i].value.name != name
    ensures name !in NamesOf(Live(slots[..i + 1]))
  {
    assert slots[..i + 1] == slots[..i] + [slots[i]];
    LiveAppend(slots[..i], [slots[i]]);
    assert Live([slots[i]]) == (if slots[i].Some? then [slots[i].value] else []) + Live<Node>([]);
    NamesOfAppend(Live(slots[..i]), Live([slots[i]]));
  }

  lemma NamesOfAppend(a: seq<Node>, b: seq<Node>)
    ensures NamesOf(a + b) == NamesOf(a) + NamesOf(b)
  {
  }

  /** The names before, at and behind an occupied slot. */
  lemma SlotNames(slots: seq<Option<Node>>, i: nat)
    requires i < |slots| && slots[i].Some?
    ensures var a, b := NamesOf(Live(slots[..i])), NamesOf(Live(slots[i + 1..]));
      && NamesOf(Live(slots)) == a + [slots[i].value.name] + b
      && NamesOf(Live(slots[..i]) + Live(slots[i + 1..])) == a + b
  {
    var before, behind := Live(slots[..i]), Live(slots[i + 1..]);
    LiveUpdate(slots, i, slots[i]);
    assert Live([slots[i]]) == [slots[i].value] + Live<Node>([]) == [slots[i].value];
    NamesOfAppend(before + [slots[i].value], behind);
    NamesOfAppend(before, [slots[i].value]);
    assert NamesOf([slots[i].value]) == [slots[i].value.name];
    NamesOfAppend(before, behind);
  }

  /** The scan and FaRemove at the parent. */
  method DropFriend(friends: FriendArray<Node>, name: string)
    requires friends.Valid() && Times(NamesOf(Live(friends.slots[..])), name) == 1
    modifies friends`size, friends.slots
    ensures friends.Valid() && friends.left == old(friends.left)
    ensures NamesOf(Live(friends.slots[..])) == Without(old(NamesOf(Live(friends.slots[..]))), name)
    ensures forall k :: k in Live(friends.slots[..]) ==> k in old(Live(friends.slots[..]))
  {
    ghost var slots := friends.slots[..];
    TimesPositive(NamesOf(Live(slots)), name);
    var i := FindSlot(friends, name);
    SlotNames(slots, i);
    OnlyOnce(NamesOf(Live(slots[..i])), name, NamesOf(Live(slots[i + 1..])));
    WithoutOnly(NamesOf(Live(slots[..i])), name, NamesOf(Live(slots[i + 1..])));
    LiveUpdate(slots, i, slots[i]);
    assert slots[..i] == friends.slots[..i] && slots[i + 1..] == friends.slots[i + 1..];
    friends.Remove(i);
  }

  /** At the parent the name goes; the other nodes stay as they are. */
  method DropFrom(nodes: NodeTree, parent: Node, name: string, ghost q: string)
    requires nodes.Wired() && q in nodes.at && parent == nodes.at[q]
    requires Times(NamesOf(nodes.FriendsOf(q)), name) == 1
    modifies parent.friends`size, parent.friends.slots
    ensures nodes.Wired()
    ensures nodes.RowAt(q) == old(nodes.RowAt(q)).(kids := Without(old(nodes.RowAt(q)).kids, name))
    ensures forall n :: n in nodes.at && n != q ==> nodes.RowAt(n) == old(nodes.RowAt(n))
    ensures forall n :: n in nodes.at ==> nodes.at[n].friends.left == old(nodes.at[n].friends.left)
  {
    assert nodes.FriendsKnown(q);
    DropFriend(parent.friends, name);
    assert nodes.FriendsKnown(q);
    forall n | n in nodes.at && n != q ensures nodes.FriendsOf(n) == old(nodes.FriendsOf(n)) && nodes.FriendsKnown(n) {
      assert old(nodes.FriendsKnown(n));
    }
  }

  /** The part of TreeAdopt that takes the child from its old parent. */
  method Detach(nodes: NodeTree, child: Node, ghost rows: Rows, ghost q: string)
    requires nodes.Shows(rows) && q in rows && Times(rows[q].kids, child.name) == 1
    requires child.name in nodes.at && nodes.at[child.name] == child
    modifies nodes.at[q].friends`size, nodes.at[q].friends.slots
    ensures nodes.Shows(Dropped(rows, q, child.name))
    ensures forall n :: n in rows && child.name in rows[n].kids ==> n == q
    ensures forall n :: n in nodes.at ==> nodes.at[n].friends.left == old(nodes.at[n].friends.left)
  {
    TimesPositive(rows[q].kids, child.name);
    OldParent(nodes, rows, q, child.name);
    var parent := child.parent;
    OtherRows(nodes, rows, q);
    DropFrom(nodes, parent, child.name, q);
    OneRow(nodes, rows, q, rows[q].(kids := Without(rows[q].kids, child.name)));
  }

  // ---- Joining the new parent

  /** The rows when c is the last child of p. */
  function Joined(rows: Rows, p: string, c: string): Rows
    requires p in rows
  {
    rows[p := rows[p].(kids := rows[p].kids + [c])]
  }

  method PutLast(newParent: Node, child: Node) returns (ok: bool)
    requires newParent.friends.Valid()
    modifies newParent.friends`size, newParent.friends`left, newParent.friends.slots, child`parent
    ensures ok <==> old(newParent.friends.left) < MAX_CMD_NUM
    ensures ok ==> newParent.friends.Valid() && child.parent == newParent
    ensures ok ==> Live(newParent.friends.slots[..]) == old(Live(newParent.friends.slots[..])) + [child]
  {
    ok := newParent.friends.Insert(child);
    if ok {
      child.parent := newParent;
    }
  }

  /** At the parent the child is put last; the other nodes stay as they are. */
  method InsertFriend(nodes: NodeTree, newParent: Node, child: Node, ghost p: string) returns (ok: bool)
    requires nodes.Wired() && p in nodes.at && newParent == nodes.at[p]
    requires child.name in nodes.at && nodes.at[child.name] == child
    requires forall n :: n in nodes.at ==> child !in nodes.FriendsOf(n)
    modifies newParent.friends`size, newParent.friends`left, newParent.friends.slots, child`parent
    ensures ok <==> old(newParent.friends.left) < MAX_CMD_NUM
    ensures ok ==> nodes.Wired() && nodes.FriendsOf(p) == old(nodes.FriendsOf(p)) + [child]
    ensures newParent.info == old(newParent.info) && newParent.value == old(newParent.value)
    ensures ok ==> forall n :: n in nodes.at && n != p ==> nodes.RowAt(n) == old(nodes.RowAt(n))
  {
    assert nodes.FriendsKnown(p);
    ok := PutLast(newParent, child);
    if ok {
      assert nodes.FriendsKnown(p);
      forall n | n in nodes.at && n != p ensures nodes.FriendsOf(n) == old(nodes.FriendsOf(n)) && nodes.FriendsKnown(n) {
        assert old(nodes.FriendsKnown(n));
      }
    }
  }

  /** FaInsert at the new parent: the node becomes its last friend, unless all slots were used. */
  method JoinParent(nodes: NodeTree, newParent: Node, child: Node, ghost rows: Rows, ghost p: string) returns (ok: bool)
    requires nodes.Shows(rows) && p in rows && newParent == nodes.at[p]
    requires child.name in nodes.at && nodes.at[child.name] == child
    requires forall n :: n in rows ==> child.name !in rows[n].kids
    modifies newParent.friends`size, newParent.friends`left, newParent.friends.slots, child`parent
    ensures ok <==> old(newParent.friends.left) < MAX_CMD_NUM
    ensures ok ==> nodes.Shows(Joined(rows, p, child.name))
  {
    forall n | n in nodes.at ensures child !in nodes.FriendsOf(n) {
      NotAmong(nodes.FriendsOf(n), child);
      assert nodes.RowAt(n) == rows[n];
    }
    OtherRows(nodes, rows, p);
    NamesOfAppend(nodes.FriendsOf(p), [child]);
    ok := InsertFriend(nodes, newParent, child, p);
    if ok {
      assert NamesOf([child]) == [child.name];
      OneRow(nodes, rows, p, rows[p].(kids := rows[p].kids + [child.name]));
    }
  }

  lemma NotAmong(friends: seq<Node>, child: Node)
    ensures child.name !in NamesOf(friends) ==> child !in friends
  {
    if child in friends {
      var i :| 0 <= i < |friends| && friends[i] == child;
      assert NamesOf(friends)[i] == child.name;
    }
  }

  // ---- What the changed rows mean

  /** A friend that moves: s with the name c, from below somebody in t. */
  ghost predicate Moves(t: Tree, s: Tree, c: string) {
    Unique(t) && c != t.name && Find(t, c) == Some(s)
  }

  lemma MovedParts(t: Tree, s: Tree, c: string)
    requires Moves(t, s, c)
    ensures s.name == c && Size(s) <= Size(t) && Count(s, c) == 1 && CountAll(s.children, c) == 0
    ensures forall n :: Count(Remove(t, c), n) + Count(s, n) == Count(t, n) <= 1
  {
    FindCounts(t, c);
    FoundIsPart(t, c, c);
    assert Count(t, c) <= 1;
    forall n ensures Count(Remove(t, c), n) + Count(s, n) == Count(t, n) <= 1 {
      RemoveCounts(t, c, n);
    }
  }

  /** The tree without c, once c is nobody's child. */
  lemma RestMatches(rows: Rows, now: Rows, d: Rows, t: Tree, s: Tree, c: string, v: nat)
    requires v > 0 && Moves(t, s, c) && Matches(rows, [t]) && ReducedSoFar(rows, now, s, [], v)
    requires d.Keys == now.Keys && forall n :: n in now ==> d[n] == now[n].(kids := Without(now[n].kids, c))
    ensures Matches(d, [Remove(t, c)])
  {
    MovedParts(t, s, c);
    var u := Remove(t, c);
    assert [t][1..] == [] && RemoveAll([], c) == [] && RemoveAll([t], c) == [u];
    forall n | CountAll([u], n) > 0 ensures n in rows && n in d && d[n] == rows[n].(kids := Without(rows[n].kids, c)) {
      assert CountAll([u], n) == Count(u, n) && CountAll([t], n) == Count(t, n);
      MatchesKnown(rows, [t], n);
    }
    RemovedMatches(rows, d, [t], c);
  }

  /** The subtree itself, reduced. */
  lemma SubtreeMatches(rows: Rows, now: Rows, d: Rows, t: Tree, s: Tree, c: string, v: nat)
    requires v > 0 && Moves(t, s, c) && Matches(rows, [t]) && ReducedSoFar(rows, now, s, [], v)
    requires d.Keys == now.Keys && forall n :: n in now ==> d[n] == now[n].(kids := Without(now[n].kids, c))
    ensures Matches(d, [Reduced(s, v)])
  {
    MovedParts(t, s, c);
    var x := Reduced(s, v);
    ReducedSubtree(rows, now, t, s, c, v);
    ReducedAllCounts(s.children, v, c);
    RemoveAllAbsent(x.children, c);
    NamesRemoved(x.children, c);
    forall n | CountAll(x.children, n) > 0 ensures n in now && n in d {
      MatchesKnown(now, x.children, n);
    }
    RemovedMatches(now, d, x.children, c);
    assert [x][1..] == [] && Matches(d, []);
  }

  lemma ReducedSubtree(rows: Rows, now: Rows, t: Tree, s: Tree, c: string, v: nat)
    requires v > 0 && Moves(t, s, c) && Matches(rows, [t]) && ReducedSoFar(rows, now, s, [], v)
    ensures Matches(now, [Reduced(s, v)]) && Matches(now, Reduced(s, v).children)
  {
    assert FindAll([t], c) == Find(t, c);
    FoundMatches(rows, [t], c);
    forall n | CountAll([s], n) > 0 ensures n in rows && n in now && now[n] == ReducedRow(n, rows[n], v) {
      assert CountAll([s], n) == Count(s, n);
      MatchesKnown(rows, [s], n);
    }
    ReducedMatches(rows, now, [s], v);
    assert ReducedAll([s], v) == [Reduced(s, v)];
  }

  /** Both put together: the rows after TreeAdopt show the subtree moved and reduced. */
  lemma AdoptedMatches(rows: Rows, now: Rows, t: Tree, s: Tree, p: string, c: string, q: string, v: nat)
    requires v > 0 && Moves(t, s, c) && Matches(rows, [t]) && ReducedSoFar(rows, now, s, [], v)
    requires Count(t, p) == 1 && Count(s, p) == 0 && p in now
    requires q in now && forall n :: n in now && c in now[n].kids ==> n == q
    ensures Matches(Joined(Dropped(now, q, c), p, c), [Attach(Remove(t, c), p, [Reduced(s, v)])])
  {
    var d := Dropped(now, q, c);
    NobodysChild(now, q, c);
    RestMatches(rows, now, d, t, s, c, v);
    SubtreeMatches(rows, now, d, t, s, c, v);
    MovedParts(t, s, c);
    ReducedCounts(s, v, p);
    JoinedMatches(d, Remove(t, c), Reduced(s, v), p, c);
  }

  lemma JoinedMatches(d: Rows, u: Tree, x: Tree, p: string, c: string)
    requires p in d && Matches(d, [u]) && Matches(d, [x]) && x.name == c && Count(x, p) == 0
    ensures Matches(Joined(d, p, c), [Attach(u, p, [x])])
  {
    var j := Joined(d, p, c);
    assert CountAll([x], p) == Count(x, p);
    MatchesKeep(d, j, [x]);
    assert Names([x]) == [c];
    forall n | CountAll([u], n) > 0 ensures n in d && j[n] == d[n].(kids := d[n].kids + if n == p then Names([x]) else []) {
      MatchesKnown(d, [u], n);
      assert d[n].kids + [] == d[n].kids;
    }
    AttachedMatches(d, j, [u], p, [x]);
    assert AttachAll([u], p, [x]) == [Attach(u, p, [x])] + AttachAll([], p, [x]);
  }

  // ---- strstr in the listing

  predicate OccursAt(text: string, word: string, i: nat) {
    i + |word| <= |text| && text[i..i + |word|] == word
  }

  predicate Occurs(text: string, word: string) {
    exists i: nat :: i <= |text| && OccursAt(text, word, i)
  }

  method Strstr(text: string, word: string) returns (found: bool)
    ensures found <==> Occurs(text, word)
  {
    found := false;
    for i := 0 to |text| + 1
      invariant forall j: nat :: j < i ==> !OccursAt(text, word, j)
    {
      if i + |word| <= |text| && text[i..i + |word|] == word {
        assert OccursAt(text, word, i);
        return true;
      }
    }
  }

  lemma OccursInside(a: string, b: string, c: string, word: string)
    requires Occurs(b, word)
    ensures Occurs(a + b + c, word)
  {
    var i: nat :| i <= |b| && OccursAt(b, word, i);
    assert (a + b + c)[|a| + i..|a| + i + |word|] == b[i..i + |word|];
    assert OccursAt(a + b + c, word, |a| + i);
  }

  /** Every info starts with the name. */
  ghost predicate InfosShow(ts: seq<Tree>)
    decreases ts
  {
    ts == [] || (OccursAt(ts[0].info, ts[0].name, 0) && InfosShow(ts[0].children) && InfosShow(ts[1..]))
  }

  lemma {:induction false} InfosShowAppend(a: seq<Tree>, b: seq<Tree>)
    ensures InfosShow(a + b) <==> InfosShow(a) && InfosShow(b)
  {
    if a == [] {
      assert a + b == b;
    } else {
      assert (a + b)[1..] == a[1..] + b;
      InfosShowAppend(a[1..], b);
    }
  }

  lemma {:induction false} FoundInfosShow(ts: seq<Tree>, n: string)
    requires InfosShow(ts) && FindAll(ts, n).Some?
    ensures InfosShow([FindAll(ts, n).value])
    decreases ts
  {
    if ts[0].name == n {
      assert [ts[0]][1..] == [];
    } else if Find(ts[0], n).Some? {
      FoundInfosShow(ts[0].children, n);
    } else {
      FoundInfosShow(ts[1..], n);
    }
  }

  /** The first line shows what the first info shows, and what the others show. */
  lemma LineShows(ts: seq<Tree>, n: string)
    requires ts != [] && (Occurs(ts[0].info, n) || Occurs(Join(Infos(ts[1..])), n))
    ensures Occurs(Join(Infos(ts)), n)
  {
    JoinHead(ts);
    ShownInside(ts[0].info, if |ts| > 1 then " " else "", Join(Infos(ts[1..])), Join(Infos(ts)), n);
  }

  lemma ShownInside(a: string, gap: string, b: string, all: string, n: string)
    requires all == a + gap + b && (Occurs(a, n) || Occurs(b, n))
    ensures Occurs(all, n)
  {
    if Occurs(a, n) {
      OccursInside("", a, gap + b, n);
      assert "" + a + (gap + b) == all;
    } else {
      OccursInside(a + gap, b, "", n);
      assert a + gap + b + "" == all;
    }
  }

  /** A friend is a root, whose name the first line shows, or one of the next level. */
  lemma {:induction false} FirstLine(ts: seq<Tree>, n: string)
    requires InfosShow(ts) && CountAll(ts, n) > 0
    ensures InfosShow(Kids(ts)) && (Occurs(Join(Infos(ts)), n) || CountAll(Kids(ts), n) > 0)
    decreases |ts|
  {
    CountAppend(ts[0].children, Kids(ts[1..]), n);
    KidsInfosShow(ts);
    if ts[0].name == n {
      assert OccursAt(ts[0].info, n, 0);
      LineShows(ts, n);
    } else if Count(ts[0], n) == 0 {
      FirstLine(ts[1..], n);
      if Occurs(Join(Infos(ts[1..])), n) {
        LineShows(ts, n);
      }
    }
  }

  lemma {:induction false} KidsInfosShow(ts: seq<Tree>)
    requires InfosShow(ts)
    ensures InfosShow(Kids(ts))
  {
    if ts != [] {
      KidsInfosShow(ts[1..]);
      InfosShowAppend(ts[0].children, Kids(ts[1..]));
    }
  }

  /** The listing shows the name of everybody in it. */
  lemma {:induction false} ListedNames(ts: seq<Tree>, n: string)
    requires InfosShow(ts) && CountAll(ts, n) > 0
    ensures Occurs(Listing(ts), n)
    decreases SizeAll(ts)
  {
    ListingByLevel(ts);
    KidsDepth(ts, 0);
    FirstLine(ts, n);
    var line := Join(Infos(ts));
    if Occurs(line, n) {
      OccursInside("", line, "\n" + Listing(Kids(ts)), n);
      assert "" + line + ("\n" + Listing(Kids(ts))) == Listing(ts);
    } else {
      ListedNames(Kids(ts), n);
      OccursInside(line + "\n", Listing(Kids(ts)), "", n);
      assert line + "\n" + Listing(Kids(ts)) + "" == Listing(ts);
    }
  }

  // ---- TreeAdopt

  /** The tree that TreeAdopt means, None if it refuses. It looks for the text p in the listing
      of the subtree, and so also refuses when p is only part of what an info shows. */
  function AdoptedTree(t: Tree, p: string, c: string): Option<Tree>
    requires Find(t, c).Some? && Find(t, p).Some? && Find(t, p).value.value > 0
  {
    var s := Find(t, c).value;
    if Occurs(Listing([s]), p) then None else Some(Attach(Remove(t, c), p, [Reduced(s, Find(t, p).value.value)]))
  }

  /** How TreeAdopt ends; Exited is the exit of FaInsert. */
  datatype Ending = Declined | Exited | Done

  /** The friends that the random driver names in an adoption. */
  ghost predicate Known(t: Tree, p: string, c: string) {
    && Unique(t) && InfosShow([t]) && c != t.name && Find(t, c).Some?
    && Find(t, p).Some? && Find(t, p).value.value > 0
  }

  lemma KnownNodes(nodes: NodeTree, p: string, c: string) returns (s: Tree, v: nat, q: string)
    requires nodes.Valid() && Known(nodes.tree, p, c)
    ensures s == Find(nodes.tree, c).value && v == Find(nodes.tree, p).value.value
    ensures Moves(nodes.tree, s, c) && Size(s) <= Size(nodes.tree) && s.name == c && Matches(nodes.rows, [s])
    ensures c in nodes.at && nodes.at[c].name == c && NodeOf(nodes.at, BreadthFirstFind([nodes.tree], c)) == nodes.at[c]
    ensures p in nodes.at && NodeOf(nodes.at, BreadthFirstFind([nodes.tree], p)) == nodes.at[p]
    ensures nodes.rows[p].value == v && Count(nodes.tree, p) == 1
    ensures q in nodes.rows && Times(nodes.rows[q].kids, c) == 1
    ensures Occurs(Listing([s]), p) <== Count(s, p) > 0
  {
    var t := nodes.tree;
    s, v := Find(t, c).value, Find(t, p).value.value;
    FindCounts(t, c);
    FindCounts(t, p);
    MovedParts(t, s, c);
    assert Count(t, c) <= 1 && Count(t, p) <= 1;
    SearchesAgree(t, c);
    SearchesAgree(t, p);
    assert FindAll([t], c) == Find(t, c) && FindAll([t], p) == Find(t, p);
    FoundMatches(nodes.rows, [t], c);
    FoundMatches(nodes.rows, [t], p);
    FoundInfosShow([t], c);
    q := ParentRow(nodes.rows, [t], c);
    if Count(s, p) > 0 {
      ListedNames([s], p);
    }
  }

  /** The tree after the move, with every name in it once. */
  lemma MovedTree(t: Tree, s: Tree, p: string, c: string, v: nat)
    requires v > 0 && Moves(t, s, c) && Count(t, p) == 1 && Count(s, p) == 0
    ensures Unique(Attach(Remove(t, c), p, [Reduced(s, v)])) && Attach(Remove(t, c), p, [Reduced(s, v)]).name == t.name
  {
    var u, x := Remove(t, c), Reduced(s, v);
    MovedParts(t, s, c);
    forall n ensures Count(Attach(u, p, [x]), n) <= 1 {
      AttachCounts(u, p, [x], n);
      ReducedCounts(s, v, n);
      assert CountAll([x], n) == Count(x, n);
    }
  }

  /** The ghost record of what the nodes show. */
  ghost method Record(nodes: NodeTree, rows: Rows, tree: Tree)
    requires nodes.Shows(rows) && nodes.root.name in nodes.at && nodes.at[nodes.root.name] == nodes.root
    requires tree.name == nodes.root.name && Unique(tree) && Matches(rows, [tree])
    modifies nodes`rows, nodes`tree
    ensures nodes.Valid() && nodes.tree == tree
  {
    nodes.rows, nodes.tree := rows, tree;
  }

  /** From the old parent to the new one. */
  method Relink(nodes: NodeTree, child: Node, newParent: Node, ghost rows: Rows, ghost q: string, ghost p: string)
      returns (ok: bool)
    requires nodes.Shows(rows) && p in rows && newParent == nodes.at[p]
    requires child.name in nodes.at && nodes.at[child.name] == child
    requires q in rows && Times(rows[q].kids, child.name) == 1
    modifies nodes.Nodes, nodes.Arrays, nodes.Slots
    ensures forall n :: n in rows && child.name in rows[n].kids ==> n == q
    ensures ok <==> old(newParent.friends.left) < MAX_CMD_NUM
    ensures ok ==> nodes.Shows(Joined(Dropped(rows, q, child.name), p, child.name))
  {
    Detach(nodes, child, rows, q);
    NobodysChild(rows, q, child.name);
    ok := JoinParent(nodes, newParent, child, Dropped(rows, q, child.name), p);
  }

  lemma KidsReduced(rows: Rows, now: Rows, s: Tree, v: nat)
    requires v > 0 && ReducedSoFar(rows, now, s, [], v)
    ensures now.Keys == rows.Keys && forall n :: n in rows ==> now[n].kids == rows[n].kids
  {
  }

  /** The values, the old parent and the new one. */
  method Move(nodes: NodeTree, child: Node, newParent: Node, ghost rows: Rows, ghost t: Tree, ghost s: Tree, ghost q: string,
              ghost p: string) returns (ok: bool, ghost moved: Rows)
    requires nodes.Shows(rows) && Matches(rows, [t]) && Moves(t, s, child.name)
    requires Matches(rows, [s]) && Size(s) <= MAX_FRIENDS && s.name == child.name
    requires child.name in nodes.at && child == nodes.at[child.name]
    requires p in nodes.at && newParent == nodes.at[p] && rows[p].value > 0
    requires Count(t, p) == 1 && Count(s, p) == 0
    requires q in rows && Times(rows[q].kids, child.name) == 1
    modifies nodes.Nodes, nodes.Arrays, nodes.Slots
    ensures ok <==> old(newParent.friends.left) < MAX_CMD_NUM
    ensures ok ==> nodes.Shows(moved) && Matches(moved, [Attach(Remove(t, child.name), p, [Reduced(s, rows[p].value)])])
  {
    MovedParts(t, s, child.name);
    ghost var now := Reduce(nodes, child, newParent, rows, s, p);
    KidsReduced(rows, now, s, rows[p].value);
    ok := Relink(nodes, child, newParent, now, q, p);
    moved := Joined(Dropped(now, q, child.name), p, child.name);
    AdoptedMatches(rows, now, t, s, p, child.name, q, rows[p].value);
  }

  /** TreeCheck of the child and the test of its listing. */
  method Lookup(nodes: NodeTree, p: string, c: string, ghost s: Tree) returns (child: Node, listed: bool)
    requires nodes.Valid() && Size(nodes.tree) <= MAX_FRIENDS && c in nodes.at
    requires NodeOf(nodes.at, BreadthFirstFind([nodes.tree], c)) == nodes.at[c]
    requires s.name == c && Matches(nodes.rows, [s]) && Size(s) <= MAX_FRIENDS
    ensures child == nodes.at[c] && (listed <==> Occurs(Listing([s]), p))
  {
    child := nodes.Search(c);
    nodes.StillShows(nodes.rows);
    var text := nodes.PrintListing(child, s);
    listed := Strstr(text, p);
  }

  /** The move, with the ghost record brought up to date. */
  method MoveAndRecord(nodes: NodeTree, child: Node, newParent: Node, ghost s: Tree, ghost v: nat, ghost q: string, ghost p: string)
      returns (ending: Ending)
    requires nodes.Valid() && Moves(nodes.tree, s, child.name) && Matches(nodes.rows, [s]) && Size(s) <= MAX_FRIENDS
    requires s.name == child.name && child.name in nodes.at && child == nodes.at[child.name]
    requires p in nodes.at && newParent == nodes.at[p] && nodes.rows[p].value == v > 0
    requires Count(nodes.tree, p) == 1 && Count(s, p) == 0
    requires q in nodes.rows && Times(nodes.rows[q].kids, child.name) == 1
    modifies nodes`rows, nodes`tree, nodes.Nodes, nodes.Arrays, nodes.Slots
    ensures ending == if old(newParent.friends.left) < MAX_CMD_NUM then Done else Exited
    ensures ending == Done ==> nodes.Valid() && nodes.tree == old(Attach(Remove(nodes.tree, child.name), p, [Reduced(s, v)]))
  {
    ghost var t := nodes.tree;
    MovedTree(t, s, p, child.name, v);
    var ok, rows := Move(nodes, child, newParent, nodes.rows, t, s, q, p);
    if !ok {
      return Exited;
    }
    Record(nodes, rows, Attach(Remove(t, child.name), p, [Reduced(s, v)]));
    ending := Done;
  }

  /** TreeAdopt for two friends of the tree. */
  method TreeAdopt(nodes: NodeTree, p: string, c: string) returns (ending: Ending)
    requires nodes.Valid() && Size(nodes.tree) <= MAX_FRIENDS && Known(nodes.tree, p, c)
    modifies nodes`rows, nodes`tree, nodes.Nodes, nodes.Arrays, nodes.Slots
    ensures AdoptedTree(old(nodes.tree), p, c).None? ==> ending == Declined && nodes.Valid() && nodes.tree == old(nodes.tree)
    ensures AdoptedTree(old(nodes.tree), p, c).Some? ==>
      && p in nodes.at
      && ending == (if old(nodes.at[p].friends.left) < MAX_CMD_NUM then Done else Exited)
      && (ending == Done ==> nodes.Valid() && nodes.tree == AdoptedTree(old(nodes.tree), p, c).value)
  {
    ghost var s, v, q := KnownNodes(nodes, p, c);
    var child, listed := Lookup(nodes, p, c, s);
    nodes.StillValid();
    if listed {
      return Declined;
    }
    ending := AdoptUnlisted(nodes, child, p, s, v, q);
  }

  /** The new parent is looked up, and the child moves. */
  method AdoptUnlisted(nodes: NodeTree, child: Node, p: string, ghost s: Tree, ghost v: nat, ghost q: string) returns (ending: Ending)
    requires nodes.Valid() && Size(nodes.tree) <= MAX_FRIENDS
    requires Moves(nodes.tree, s, child.name) && Matches(nodes.rows, [s]) && Size(s) <= MAX_FRIENDS
    requires s.name == child.name && child.name in nodes.at && child == nodes.at[child.name]
    requires p in nodes.at && NodeOf(nodes.at, BreadthFirstFind([nodes.tree], p)) == nodes.at[p] && nodes.rows[p].value == v > 0
    requires Count(nodes.tree, p) == 1 && Count(s, p) == 0
    requires q in nodes.rows && Times(nodes.rows[q].kids, child.name) == 1
    modifies nodes`rows, nodes`tree, nodes.Nodes, nodes.Arrays, nodes.Slots
    ensures ending == if old(nodes.at[p].friends.left) < MAX_CMD_NUM then Done else Exited
    ensures ending == Done ==> nodes.Valid() && nodes.tree == old(Attach(Remove(nodes.tree, child.name), p, [Reduced(s, v)]))
  {
    var newParent := nodes.Search(p);
    nodes.StillValid();
    ending := MoveAndRecord(nodes, child, newParent, s, v, q, p);
  }

  // ---- TreeMeet

  /** The footprint grows by a node and its array. */
  ghost method Enclose(nodes: NodeTree, node: Node)
    requires nodes.Wired()
    modifies nodes`Nodes, nodes`Arrays, nodes`Slots
    ensures nodes.Wired() && node in nodes.Nodes && node.friends in nodes.Arrays && node.friends.slots in nodes.Slots
    ensures forall n :: n in nodes.at ==> nodes.RowAt(n) == old(nodes.RowAt(n))
  {
    nodes.Nodes, nodes.Arrays, nodes.Slots := nodes.Nodes + {node}, nodes.Arrays + {node.friends}, nodes.Slots + {node.friends.slots};
    forall n | n in nodes.at ensures nodes.FriendsKnown(n) {
      assert old(nodes.FriendsKnown(n));
    }
  }

  /** A node without friends is known from now on. */
  ghost method Admit(nodes: NodeTree, node: Node)
    requires nodes.Wired() && node.name !in nodes.at && node.friends.Valid() && Live(node.friends.slots[..]) == []
    requires node in nodes.Nodes && node.friends in nodes.Arrays && node.friends.slots in nodes.Slots
    requires forall n :: n in nodes.at ==> nodes.at[n].friends != node.friends && nodes.at[n].friends.slots != node.friends.slots
    modifies nodes`at
    ensures nodes.at == old(nodes.at)[node.name := node] && nodes.Wired()
    ensures forall n :: n in old(nodes.at) ==> nodes.RowAt(n) == old(nodes.RowAt(n))
  {
    nodes.at := nodes.at[node.name := node];
    forall n | n in old(nodes.at) ensures nodes.FriendsKnown(n) {
      assert old(nodes.FriendsKnown(n)) && nodes.FriendsOf(n) == old(nodes.FriendsOf(n));
    }
  }

  lemma MoreRows(nodes: NodeTree, rows: Rows, name: string, row: Row)
    requires nodes.Wired() && nodes.at.Keys == rows.Keys + {name} && nodes.RowAt(name) == row
    requires forall n :: n in rows && n != name ==> nodes.RowAt(n) == rows[n]
    ensures nodes.Shows(rows[name := row])
  {
  }

  lemma StrangeArrays(nodes: NodeTree, rows: Rows, node: Node)
    requires nodes.Shows(rows) && node.friends !in nodes.Arrays && node.friends.slots !in nodes.Slots
    ensures forall n :: n in rows ==> nodes.RowAt(n) == rows[n]
    ensures forall n :: n in nodes.at ==> nodes.at[n].friends != node.friends && nodes.at[n].friends.slots != node.friends.slots
  {
  }

  ghost method Introduce(nodes: NodeTree, node: Node, rows: Rows)
    requires nodes.Shows(rows) && node.name !in nodes.at && node.friends.Valid() && Live(node.friends.slots[..]) == []
    requires node.friends !in nodes.Arrays && node.friends.slots !in nodes.Slots
    modifies nodes`at, nodes`Nodes, nodes`Arrays, nodes`Slots
    ensures nodes.at == old(nodes.at)[node.name := node] && nodes.Shows(rows[node.name := Row(node.info, node.value, [])])
  {
    StrangeArrays(nodes, rows, node);
    Enclose(nodes, node);
    Admit(nodes, node);
    assert nodes.RowAt(node.name) == Row(node.info, node.value, []);
    MoreRows(nodes, rows, node.name, Row(node.info, node.value, []));
  }

  /** NodeNew for a friend that is nobody's child yet. */
  method NewNode(nodes: NodeTree, name: string, info: string, value: nat, ghost rows: Rows) returns (node: Node)
    requires nodes.Shows(rows) && name !in nodes.at
    modifies nodes`at, nodes`Nodes, nodes`Arrays, nodes`Slots
    ensures fresh(node) && fresh(node.friends) && fresh(node.friends.slots) && node.name == name
    ensures nodes.at == old(nodes.at)[name := node] && nodes.Shows(rows[name := Row(info, value, [])])
  {
    node := new Node(name, info, value);
    nodes.StillShows(rows);
    Introduce(nodes, node, rows);
  }

  lemma LeafCounts(x: Tree, n: string)
    requires x.children == []
    ensures CountAll([x], n) == if n == x.name then 1 else 0
  {
    assert CountAll(x.children, n) == 0 && CountAll([x][1..], n) == 0;
  }

  /** The rows and the tree with a new friend under p. */
  lemma MeetMatches(rows: Rows, t: Tree, p: string, x: Tree)
    requires Matches(rows, [t]) && Unique(t) && x.name !in rows && x.children == [] && Count(t, p) > 0
    ensures p in rows && Count(t, x.name) == 0
    ensures Matches(Joined(rows[x.name := Row(x.info, x.value, [])], p, x.name), [Attach(t, p, [x])])
    ensures Unique(Attach(t, p, [x]))
  {
    var d := rows[x.name := Row(x.info, x.value, [])];
    assert [t][1..] == [] && CountAll([t], p) == Count(t, p) && CountAll([t], x.name) == Count(t, x.name);
    MatchesKnown(rows, [t], p);
    if Count(t, x.name) > 0 {
      MatchesKnown(rows, [t], x.name);
      assert false;
    }
    MatchesKeep(rows, d, [t]);
    assert [x][1..] == [] && Names(x.children) == [];
    JoinedMatches(d, t, x, p, x.name);
    forall n ensures Count(Attach(t, p, [x]), n) <= 1 {
      AttachCounts(t, p, [x], n);
      LeafCounts(x, n);
      assert Count(t, p) <= 1 && Count(t, n) <= 1;
    }
  }

  /** TreeMeet: the friend p, if the search finds it, gets the new one as its last friend. */
  method TreeMeet(nodes: NodeTree, p: string, name: string, info: string, value: nat) returns (ending: Ending)
    requires nodes.Valid() && Size(nodes.tree) <= MAX_FRIENDS && name !in nodes.at
    modifies nodes, nodes.Nodes, nodes.Arrays, nodes.Slots
    ensures Count(old(nodes.tree), p) == 0 ==> ending == Declined && nodes.Valid() && nodes.tree == old(nodes.tree)
    ensures Count(old(nodes.tree), p) > 0 ==>
      && p in old(nodes.at)
      && ending == (if old(nodes.at[p].friends.left) < MAX_CMD_NUM then Done else Exited)
      && (ending == Done ==> nodes.Valid() && nodes.tree == Attach(old(nodes.tree), p, [Leaf(name, info, value)]))
  {
    SearchedNode(nodes, p);
    var newParent := nodes.Search(p);
    nodes.StillValid();
    if newParent == null {
      return Declined;
    }
    ending := MeetUnder(nodes, newParent, p, name, info, value);
  }

  lemma SearchedNode(nodes: NodeTree, p: string)
    requires nodes.Valid()
    ensures Count(nodes.tree, p) == 0 ==> NodeOf(nodes.at, BreadthFirstFind([nodes.tree], p)) == null
    ensures Count(nodes.tree, p) > 0 ==> p in nodes.at && NodeOf(nodes.at, BreadthFirstFind([nodes.tree], p)) == nodes.at[p]
  {
    assert Count(nodes.tree, p) <= 1;
    SearchesAgree(nodes.tree, p);
    FindCounts(nodes.tree, p);
    assert CountAll([nodes.tree], p) == Count(nodes.tree, p);
    if Count(nodes.tree, p) > 0 {
      MatchesKnown(nodes.rows, [nodes.tree], p);
    }
  }

  method AddNode(nodes: NodeTree, newParent: Node, ghost p: string, name: string, info: string, value: nat, ghost rows: Rows)
      returns (ok: bool)
    requires nodes.Shows(rows) && name !in nodes.at && p in nodes.at && newParent == nodes.at[p]
    requires forall n :: n in rows ==> name !in rows[n].kids
    modifies nodes`at, nodes`Nodes, nodes`Arrays, nodes`Slots
    modifies newParent.friends`size, newParent.friends`left, newParent.friends.slots
    ensures ok <==> old(newParent.friends.left) < MAX_CMD_NUM
    ensures ok ==> nodes.Shows(Joined(rows[name := Row(info, value, [])], p, name))
    ensures name != p && forall n :: n in old(nodes.at) ==> n in nodes.at && nodes.at[n] == old(nodes.at)[n]
  {
    var node := NewNode(nodes, name, info, value, rows);
    ok := JoinParent(nodes, newParent, node, rows[name := Row(info, value, [])], p);
  }

  method MeetUnder(nodes: NodeTree, newParent: Node, ghost p: string, name: string, info: string, value: nat) returns (ending: Ending)
    requires nodes.Valid() && name !in nodes.at && Count(nodes.tree, p) > 0 && p in nodes.at && newParent == nodes.at[p]
    modifies nodes, nodes.Nodes, nodes.Arrays, nodes.Slots
    ensures ending == if old(newParent.friends.left) < MAX_CMD_NUM then Done else Exited
    ensures ending == Done ==> nodes.Valid() && nodes.tree == Attach(old(nodes.tree), p, [Leaf(name, info, value)])
  {
    ghost var t, rows := nodes.tree, nodes.rows;
    MeetMatches(rows, t, p, Leaf(name, info, value));
    NoStrangers(nodes, name);
    var ok := AddNode(nodes, newParent, p, name, info, value, rows);
    rows := rows[name := Row(info, value, [])];
    if !ok {
      return Exited;
    }
    Record(nodes, Joined(rows, p, name), Attach(t, p, [Leaf(name, info, value)]));
    ending := Done;
  }

  /** Only known names are among the friends. */
  lemma NoStrangers(nodes: NodeTree, name: string)
    requires nodes.Shows(nodes.rows) && name !in nodes.at
    ensures forall n :: n in nodes.rows ==> name !in nodes.rows[n].kids
  {
    forall n | n in nodes.rows ensures name !in nodes.rows[n].kids {
      if name in nodes.rows[n].kids {
        FriendCalled(nodes, nodes.rows, n, name);
        assert false;
      }
    }
  }

  // ---- The processes and the reference

  /** The Adopt command of the processes and TreeAdopt come to the same end if and only if the
      text p is listed below c exactly when p lies strictly below c. */
  lemma AdoptMatchesReference(t: Tree, p: string, c: string)
    requires Known(t, p, c)
    ensures AdoptCommand(t, p, c) == (match AdoptedTree(t, p, c) case None => Refused case Some(u) => Adopted(u))
      <==> (Occurs(Listing([Find(t, c).value]), p) <==> StrictlyBelow(t, p, c))
    ensures StrictlyBelow(t, p, c) ==> Occurs(Listing([Find(t, c).value]), p)
  {
    var s := Find(t, c).value;
    FindCounts(t, p);
    assert Count(t, p) <= 1;
    AdoptRefusal(t, p, c);
    if StrictlyBelow(t, p, c) {
      FoundInfosShow([t], c);
      assert CountAll([s], p) > 0;
      ListedNames([s], p);
    } else {
      AdoptMoves(t, p, c);
    }
  }
}
