/** The node objects of hw2/test.c, each with its array of friends and a pointer to its parent,
    and the breadth-first loops over them: the search and the listing of TreeCheck. */
module ReferenceNodes {
  import opened Options
  import opened FriendTree
  import opened FriendRouting
  import opened FriendListing
  import opened ReferenceLists
  import opened ReferenceRows

  const MAX_FRIENDS := 32

  class Node {
    const name: string
    var info: string
    var value: nat
    const friends: FriendArray<Node>
    var parent: Node?

    /** NodeNew */
    constructor (name: string, info: string, value: nat)
      ensures this.name == name && this.info == info && this.value == value && parent == null
      ensures fresh(friends) && fresh(friends.slots) && friends.Valid() && Live(friends.slots[..]) == [] && friends.left == 0
    {
      this.name, this.info, this.value, parent := name, info, value, null;
      friends := new FriendArray<Node>();
    }
  }

  function NamesOf(nodes: seq<Node>): seq<string> {
    seq(|nodes|, i requires 0 <= i < |nodes| => nodes[i].name)
  }

  class NodeTree {
    const root: Node
    ghost var at: map<string, Node>  // the node of each name
    ghost var rows: Rows             // what it holds
    ghost var tree: Tree             // what the nodes stand for
    ghost var Nodes: set<Node>
    ghost var Arrays: set<FriendArray<Node>>
    ghost var Slots: set<array<Option<Node>>>

    /** The footprint covers the nodes with their arrays. */
    ghost predicate Owned()
      reads this`at, this`Nodes, this`Arrays, this`Slots
    {
      forall n :: n in at ==> at[n] in Nodes && at[n].friends in Arrays && at[n].friends.slots in Slots
    }

    /** The friends of the node called n, in the order of their slots. */
    ghost function FriendsOf(n: string): seq<Node>
      requires n in at
      reads this`at, at[n].friends, at[n].friends.slots
    {
      Live(at[n].friends.slots[..])
    }

    ghost function RowAt(n: string): Row
      requires n in at
      reads this`at, (at[n] as Node)`info, (at[n] as Node)`value, at[n].friends, at[n].friends.slots
    {
      Row(at[n].info, at[n].value, NamesOf(FriendsOf(n)))
    }

    /** Each node has its own array, whose friends are known and point back to the node. */
    ghost predicate Wired()
      reads this`at, this`Nodes, this`Arrays, this`Slots, Nodes, Arrays, Slots
    {
      && Owned()
      && (forall n :: n in at ==> at[n].name == n && at[n].friends.Valid())
      && (forall m, n :: m in at && n in at && m != n ==>
            at[m].friends != at[n].friends && at[m].friends.slots != at[n].friends.slots)
      && (forall n :: n in at ==> FriendsKnown(n))
    }

    ghost predicate FriendsKnown(n: string)
      requires n in at
      reads this`at, this`Nodes, Nodes, at[n].friends, at[n].friends.slots
    {
      forall k :: k in FriendsOf(n) ==> k.name in at && at[k.name] == k && k in Nodes && k.parent == at[n]
    }

    /** The nodes are wired and hold these rows. */
    ghost predicate Shows(rows: Rows)
      reads this`at, this`Nodes, this`Arrays, this`Slots, Nodes, Arrays, Slots
    {
      && Wired() && rows.Keys == at.Keys
      && (forall n :: n in at ==> RowAt(n) == rows[n])
    }

    /** Work on queues does not touch the nodes. */
    twostate lemma StillShows(rows: Rows)
      requires old(Shows(rows)) && unchanged(this)
      requires forall o :: o in old(Nodes) ==> unchanged(o)
      requires forall o :: o in old(Arrays) ==> unchanged(o)
      requires forall o :: o in old(Slots) ==> unchanged(o)
      ensures Shows(rows)
    {
    }

    ghost predicate Valid()
      reads this, Nodes, Arrays, Slots
    {
      && Shows(rows) && root.name in at && at[root.name] == root && tree.name == root.name
      && Unique(tree) && Matches(rows, [tree])
    }

    twostate lemma StillValid()
      requires old(Valid()) && unchanged(this)
      requires forall o :: o in old(Nodes) ==> unchanged(o)
      requires forall o :: o in old(Arrays) ==> unchanged(o)
      requires forall o :: o in old(Slots) ==> unchanged(o)
      ensures Valid()
    {
      StillShows(rows);
    }

    /** TreeNew */
    constructor ()
      ensures Valid() && tree == Leaf("Not_Tako", "Not_Tako", 100)
    {
      var node := new Node("Not_Tako", "Not_Tako", 100);
      root := node;
      at := map["Not_Tako" := node];
      tree := Leaf("Not_Tako", "Not_Tako", 100);
      rows := map["Not_Tako" := Row("Not_Tako", 100, [])];
      Nodes, Arrays, Slots := {node}, {node.friends}, {node.friends.slots};
      new;
      assert NamesOf(FriendsOf("Not_Tako")) == [] == Names([]);
      assert Matches(rows, []) && [tree][1..] == [];
    }

    // ---- Queues of nodes

    /** A queue holds the nodes of the trees ts, which are no more than the queue can take. */
    ghost predicate Queued(queue: NodeQueue<Node?>, ts: seq<Tree>)
      reads this`at, queue, queue.elements
    {
      && queue.Valid() && SizeAll(ts) <= MAX_FRIENDS
      && queue.Contents() == NodesOf(at, ts)
    }

    lemma FriendsAreNodes(d: Tree)
      requires Wired() && d.name in at && NamesOf(FriendsOf(d.name)) == Names(d.children)
      ensures FriendsOf(d.name) == NodesOf(at, d.children)
    {
      var friends := FriendsOf(d.name);
      assert FriendsKnown(d.name);
      forall i | 0 <= i < |d.children| ensures friends[i] == NodesOf(at, d.children)[i] {
        NamesAt(d.children, i);
        assert NamesOf(friends)[i] == friends[i].name;
        assert friends[i] in friends;
      }
    }

    /** FqNew with a first node. */
    method NewQueue(node: Node, ghost d: Tree) returns (queue: NodeQueue<Node?>)
      requires d.name in at && node == at[d.name] && Size(d) <= MAX_FRIENDS
      ensures fresh(queue) && fresh(queue.elements) && Queued(queue, [d])
    {
      queue := new NodeQueue<Node?>();
      var ok := queue.Push(node);
      assert [d][1..] == [] && SizeAll([d]) == Size(d);
      assert queue.Contents() == [node] && NodesOf(at, [d]) == [node];
    }

    /** FqFront and FqPop. */
    method PopFront(queue: NodeQueue<Node?>, ghost ts: seq<Tree>) returns (cur: Node)
      requires Queued(queue, ts) && ts != [] && ts[0].name in at
      modifies queue
      ensures cur == at[ts[0].name] && Queued(queue, ts[1..])
    {
      CountNodes(ts);
      var front := queue.Front();
      cur := front;
      var ok := queue.Pop();
      assert NodesOf(at, ts)[1..] == NodesOf(at, ts[1..]);
    }

    /** FqPush for each friend of a node. */
    method PushFriends(queue: NodeQueue<Node?>, cur: Node, ghost ts: seq<Tree>, ghost d: Tree)
      requires Wired() && Queued(queue, ts) && d.name in at && cur == at[d.name]
      requires SizeAll(ts + d.children) <= MAX_FRIENDS
      requires NamesOf(FriendsOf(d.name)) == Names(d.children)
      modifies queue, queue.elements
      ensures Queued(queue, ts + d.children)
    {
      FriendsAreNodes(d);
      CountNodes(ts + d.children);
      var friends := cur.friends.Friends();
      PushAll(queue, friends);
      assert NodesOf(at, ts + d.children) == NodesOf(at, ts) + NodesOf(at, d.children);
    }

    // ---- The search

    /** The loop that TreeMeet and TreeCheck begin with: the first node called n, level by
        level, or null. */
    method Search(n: string) returns (found: Node?)
      requires Valid() && Size(tree) <= MAX_FRIENDS
      ensures found == NodeOf(at, BreadthFirstFind([tree], n))
    {
      var queue := NewQueue(root, tree);
      StillShows(rows);
      found := SearchFrom(queue, n, rows, [tree]);
    }

    method SearchFrom(queue: NodeQueue<Node?>, n: string, ghost rows: Rows, ghost first: seq<Tree>) returns (found: Node?)
      requires Shows(rows) && Queued(queue, first) && Matches(rows, first)
      modifies queue, queue.elements
      ensures found == NodeOf(at, BreadthFirstFind(first, n))
    {
      ghost var ts := first;
      while queue.size > 0
        invariant Queued(queue, ts) && Matches(rows, ts)
        invariant BreadthFirstFind(ts, n) == BreadthFirstFind(first, n)
        decreases SizeAll(ts)
      {
        StillShows(rows);
        OpenFirst(rows, ts);
        var cur := SearchStep(queue, n, rows, ts);
        if cur.name == n {
          return cur;
        }
        ts := ts[1..] + ts[0].children;
      }
      found := null;
    }

    /** The next node of the queue; if it is not the one, its friends are queued. */
    method SearchStep(queue: NodeQueue<Node?>, n: string, ghost rows: Rows, ghost ts: seq<Tree>) returns (cur: Node)
      requires Shows(rows) && Queued(queue, ts) && Matches(rows, ts) && ts != []
      modifies queue, queue.elements
      ensures ts[0].name in at && cur == at[ts[0].name] && cur.name == ts[0].name
      ensures cur.name != n ==> Queued(queue, ts[1..] + ts[0].children)
    {
      FirstRow(rows, ts);
      OpenFirst(rows, ts);
      cur := PopFront(queue, ts);
      StillShows(rows);
      if cur.name != n {
        PushFriends(queue, cur, ts[1..], ts[0]);
      }
    }

    lemma FirstRow(rows: Rows, ts: seq<Tree>)
      requires Shows(rows) && Matches(rows, ts) && ts != []
      ensures ts[0].name in at && RowAt(ts[0].name) == Row(ts[0].info, ts[0].value, Names(ts[0].children))
    {
      assert ts[0].name in rows;
    }

    // ---- The listing

    /** Prints the next node of a layer and collects its friends. */
    method PrintNext(now: NodeQueue<Node?>, next: NodeQueue<Node?>, done: string, ghost rows: Rows, ghost ts: seq<Tree>,
                     ghost collected: seq<Tree>, ghost before: string, ghost layer: seq<Tree>) returns (result: string)
      requires Shows(rows) && Matches(rows, ts) && now != next && now.elements != next.elements
      requires Queued(now, ts) && Queued(next, collected)
      requires ts != [] && |ts| <= |layer| && SizeAll(layer) <= MAX_FRIENDS
      requires LayerLeft(done, collected, ts, before, layer)
      modifies now, next, next.elements
      ensures Queued(now, ts[1..]) && Queued(next, collected + ts[0].children)
      ensures LayerLeft(result, collected + ts[0].children, ts[1..], before, layer)
    {
      FirstRow(rows, ts);
      LayerRoom(layer, collected, ts);
      PrintStep(done, collected, ts, before, layer);
      var cur := PopFront(now, ts);
      StillShows(rows);
      result := done + cur.info;
      if now.size > 0 {
        result := result + " ";
      }
      PushFriends(next, cur, collected, ts[0]);
    }

    /** The inner loop of the listing: prints one layer and collects the next. */
    method PrintLayer(now: NodeQueue<Node?>, next: NodeQueue<Node?>, before: string, ghost rows: Rows, ghost layer: seq<Tree>)
        returns (result: string, printed: nat)
      requires Shows(rows) && Matches(rows, layer) && now != next && now.elements != next.elements
      requires Queued(now, layer) && Queued(next, [])
      modifies now, next, next.elements
      ensures Queued(now, []) && Queued(next, Kids(layer))
      ensures result == before + Join(Infos(layer)) && printed == |layer|
    {
      result, printed := before, 0;
      ghost var ts, collected := layer, [];
      LayerStarts(before, layer);
      while now.size > 0
        invariant Matches(rows, ts) && Queued(now, ts) && Queued(next, collected)
        invariant printed + |ts| == |layer| && LayerLeft(result, collected, ts, before, layer)
        decreases |ts|
      {
        StillShows(rows);
        result := PrintNext(now, next, result, rows, ts, collected, before, layer);
        collected, ts := collected + ts[0].children, ts[1..];
        printed := printed + 1;
      }
      LayerDone(result, collected, before, layer);
    }

    /** The rest of TreeCheck: the two queues print exactly the level-order listing, and the
        depth never reaches the limit at which TreeCheck gives up. */
    method PrintListing(subtree: Node, ghost d: Tree) returns (result: string)
      requires Shows(rows) && Matches(rows, [d]) && Size(d) <= MAX_FRIENDS && d.name in at && subtree == at[d.name]
      ensures result == Listing([d])
    {
      LayersAreListing([d]);
      var now := NewQueue(subtree, d);
      StillShows(rows);
      result := PrintLayers(now, rows, [d]);
    }

    /** The loop over the layers. */
    method PrintLayers(first: NodeQueue<Node?>, ghost rows: Rows, ghost layer: seq<Tree>) returns (result: string)
      requires Shows(rows) && Matches(rows, layer) && Queued(first, layer)
      modifies first, first.elements
      ensures result == LayerByLayer(layer)
    {
      var now := first;
      ghost var ts := layer;
      result := "";
      assert Lists(result, ts, LayerByLayer(layer));
      var depth := 0;
      var going := true;
      while going
        invariant now == first || (fresh(now) && fresh(now.elements))
        invariant Matches(rows, ts) && Queued(now, ts)
        invariant depth + SizeAll(ts) <= MAX_FRIENDS && Lists(result, ts, LayerByLayer(layer))
        invariant !going ==> ts == []
        decreases going, SizeAll(ts)
      {
        assert depth <= MAX_FRIENDS;
        StillShows(rows);
        LayerStep(result, ts, LayerByLayer(layer));
        KidsMatch(rows, ts);
        var next, printed;
        next, result, printed := PrintOne(now, result, rows, ts);
        if printed == 0 {
          going := false;
        } else {
          result := result + "\n";
          now := next;
          ts := Kids(ts);
          depth := depth + 1;
        }
      }
    }

    /** One layer into a new queue. */
    method PrintOne(now: NodeQueue<Node?>, before: string, ghost rows: Rows, ghost layer: seq<Tree>)
        returns (next: NodeQueue<Node?>, result: string, printed: nat)
      requires Shows(rows) && Matches(rows, layer) && Queued(now, layer)
      modifies now, now.elements
      ensures fresh(next) && fresh(next.elements) && Queued(now, []) && Queued(next, Kids(layer))
      ensures result == before + Join(Infos(layer)) && printed == |layer|
    {
      next := new NodeQueue<Node?>();
      StillShows(rows);
      result, printed := PrintLayer(now, next, before, rows, layer);
    }
  }

  ghost function NodeOf(at: map<string, Node>, found: Option<Tree>): Node? {
    if found.Some? && found.value.name in at then at[found.value.name] else null
  }

  /** The first node of a queue makes way for its children. */
  lemma OpenFirst(rows: Rows, ts: seq<Tree>)
    requires Matches(rows, ts) && ts != []
    ensures Matches(rows, ts[1..] + ts[0].children)
    ensures SizeAll(ts[1..] + ts[0].children) == SizeAll(ts) - 1
  {
    MatchesAppend(rows, ts[1..], ts[0].children);
    SizeAppend(ts[1..], ts[0].children);
  }

  lemma {:induction false} KidsMatch(rows: Rows, ts: seq<Tree>)
    requires Matches(rows, ts)
    ensures Matches(rows, Kids(ts))
  {
    if ts != [] {
      KidsMatch(rows, ts[1..]);
      MatchesAppend(rows, ts[0].children, Kids(ts[1..]));
    }
  }

  /** The nodes of some trees. */
  ghost function NodesOf(at: map<string, Node>, ts: seq<Tree>): (r: seq<Node?>)
    ensures |r| == |ts|
  {
    seq(|ts|, i requires 0 <= i < |ts| => if ts[i].name in at then at[ts[i].name] else null)
  }

  /** Nodes go to the end of a queue that has room for them. */
  method PushAll(queue: NodeQueue<Node?>, nodes: seq<Node>)
    requires queue.Valid() && |queue.Contents()| + |nodes| <= CAPACITY
    modifies queue, queue.elements
    ensures queue.Valid() && queue.Contents() == old(queue.Contents()) + nodes
  {
    for i := 0 to |nodes|
      invariant queue.Valid() && queue.Contents() == old(queue.Contents()) + nodes[..i]
    {
      var ok := queue.Push(nodes[i]);
      assert nodes[..i + 1] == nodes[..i] + [nodes[i]];
    }
    assert nodes[..|nodes|] == nodes;
  }

  lemma {:induction false} CountNodes(ts: seq<Tree>)
    ensures |ts| <= SizeAll(ts)
  {
    if ts != [] {
      CountNodes(ts[1..]);
    }
  }

  /** What is printed and collected of a layer, together with the nodes still queued,
      makes up the whole layer. */
  ghost predicate LayerLeft(result: string, next: seq<Tree>, nodes: seq<Tree>, before: string, layer: seq<Tree>) {
    && next + Kids(nodes) == Kids(layer)
    && result + Join(Infos(nodes)) == before + Join(Infos(layer))
  }

  lemma LayerStarts(before: string, layer: seq<Tree>)
    ensures LayerLeft(before, [], layer, before, layer)
  {
    assert [] + Kids(layer) == Kids(layer);
  }

  lemma LayerDone(result: string, next: seq<Tree>, before: string, layer: seq<Tree>)
    requires LayerLeft(result, next, [], before, layer)
    ensures next == Kids(layer) && result == before + Join(Infos(layer))
  {
    assert Kids([]) == [] && next + [] == next;
    assert Join(Infos([])) == "" && result + "" == result;
  }

  /** The queues never hold more nodes than the tree has. */
  lemma LayerRoom(layer: seq<Tree>, next: seq<Tree>, nodes: seq<Tree>)
    requires SizeAll(layer) <= MAX_FRIENDS && nodes != [] && |nodes| <= |layer|
    requires next + Kids(nodes) == Kids(layer)
    ensures |nodes| <= MAX_FRIENDS && SizeAll(next + nodes[0].children) <= MAX_FRIENDS
  {
    CountNodes(layer);
    KidsDepth(layer, 0);
    Regroup(next, nodes[0].children, Kids(nodes[1..]));
    SizeAppend(next + nodes[0].children, Kids(nodes[1..]));
  }

  lemma PrintStep(result: string, next: seq<Tree>, nodes: seq<Tree>, before: string, layer: seq<Tree>)
    requires nodes != [] && LayerLeft(result, next, nodes, before, layer)
    ensures LayerLeft(if |nodes| > 1 then result + nodes[0].info + " " else result + nodes[0].info,
                      next + nodes[0].children, nodes[1..], before, layer)
  {
    var rest := nodes[1..];
    Regroup(next, nodes[0].children, Kids(rest));
    JoinHead(nodes);
    var head := if |nodes| > 1 then nodes[0].info + " " else nodes[0].info;
    Regroup(result, head, Join(Infos(rest)));
    Regroup(result, nodes[0].info, " ");
  }

  lemma Regroup<T>(a: seq<T>, b: seq<T>, c: seq<T>)
    ensures a + (b + c) == (a + b) + c
  {
  }

  lemma JoinHead(nodes: seq<Tree>)
    requires nodes != []
    ensures Join(Infos(nodes))
         == (if |nodes| > 1 then nodes[0].info + " " else nodes[0].info) + Join(Infos(nodes[1..]))
  {
    assert Infos(nodes)[1..] == Infos(nodes[1..]);
    if |nodes| > 1 {
      assert |Infos(nodes[1..])| == |nodes| - 1 by { InfosLength(nodes[1..]); }
    } else {
      assert nodes[0].info + "" == nodes[0].info;
    }
  }

  lemma {:induction false} InfosLength(ts: seq<Tree>)
    ensures |Infos(ts)| == |ts|
  {
    if ts != [] {
      InfosLength(ts[1..]);
    }
  }

  /** The printed lines and the layers still to come make up the goal. */
  ghost predicate Lists(result: string, nodes: seq<Tree>, goal: string) {
    result + LayerByLayer(nodes) == goal
  }

  lemma LayerStep(result: string, nodes: seq<Tree>, goal: string)
    requires Lists(result, nodes, goal)
    ensures nodes != [] ==> Lists(result + Join(Infos(nodes)) + "\n", Kids(nodes), goal)
    ensures nodes == [] ==> Lists(result + Join(Infos(nodes)), nodes, goal) && result == goal && result + Join(Infos(nodes)) == result
    ensures SizeAll(nodes) == |nodes| + SizeAll(Kids(nodes))
  {
    KidsDepth(nodes, 0);
    if nodes != [] {
      var line, others := Join(Infos(nodes)) + "\n", LayerByLayer(Kids(nodes));
      assert result + (line + others) == (result + line) + others;
      assert result + line == result + Join(Infos(nodes)) + "\n";
    }
  }
}
