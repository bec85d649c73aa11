/** The processes of hw2/friend.c as objects. Each keeps a linked list with one entry for each
    child, and a command is a call that goes down the tree and changes it in place. */
module FriendProcess {
  import opened Options
  import opened FriendTree
  import opened FriendText
  import opened FriendRouting
  import opened FriendAdopt
  import opened FriendBuffers
  import opened FriendListing
  import opened FriendWire

  /** struct friend: what a process knows of one child, and the child behind the pipes. */
  class Entry {
    ghost const owner: Process
    const process: Process
    const name: string
    var info: string
    var value: nat
    var next: Entry?

    constructor (ghost owner: Process, process: Process, name: string, info: string, value: nat)
      ensures this.owner == owner && this.process == process && next == null
      ensures this.name == name && this.info == info && this.value == value
    {
      this.owner, this.process, this.name, this.info, this.value := owner, process, name, info, value;
      next := null;
    }

    /** adopt and be_adopted, before the child is told: its value and info as the parent keeps
        them, and the line for the FIFO. */
    method Reduce(p: string, v: nat) returns (line: string)
      requires v > 0
      modifies this`value, this`info
      ensures value == old(value) % v && info == InfoText(name, value)
      ensures line == Wire([RecordOf(p, name, value)])
    {
      value := value % v;
      info := InfoText(name, value);
      line := "Meet " + (p + [' '] + (info + [' '] + "false")) + ['\n'];
      WireOne(RecordOf(p, name, value));
    }
  }

  class Process {
    const name: string
    var info: string
    var value: nat
    var head: Entry?
    const malloced: Bytes         // what malloc returns for the buffer of collect
    ghost var chain: seq<Entry>   // the entries from head on
    ghost var kids: seq<Process>  // the children they stand for
    ghost var Repr: set<Process>  // the processes of the subtree
    ghost var Links: set<Entry>   // and the entries in their lists

    /** The processes below this one, apart from each other, each with entries of its own. */
    ghost predicate Valid()
      reads this, Repr
      decreases Repr
    {
      && this in Repr && |malloced| == MAX_CHECK_LEN
      && (forall i :: 0 <= i < |kids| ==> kids[i] in Repr && kids[i].Repr <= Repr && this !in kids[i].Repr)
      && (forall i :: 0 <= i < |kids| ==> kids[i].Valid() && kids[i].Links <= Links)
      && (forall i, j :: 0 <= i < j < |kids| ==> kids[i].Repr !! kids[j].Repr)
      && (forall e :: e in Links ==> e.owner in Repr)
      && (forall i :: 0 <= i < |chain| ==> chain[i] in Links && chain[i].owner == this)
    }

    /** The subtree of this process as a value. */
    ghost function Tree(): Tree
      requires Valid()
      reads this, Repr
      decreases Repr, 1
    {
      Node(name, info, value, Forest())
    }

    ghost function Forest(): (r: seq<Tree>)
      requires Valid()
      reads this, Repr
      ensures |r| == |kids|
      decreases Repr, 0
    {
      seq(|kids|, i requires 0 <= i < |kids| && Valid() reads this, Repr => kids[i].Tree())
    }

    /** The list from head on is chain, and entry i tells what child i is. */
    ghost predicate Linked()
      reads this, chain, kids
    {
      && |chain| == |kids|
      && head == (if chain == [] then null else chain[0])
      && (forall i, j :: 0 <= i < j < |chain| ==> chain[i] != chain[j])
      && (forall i: nat :: i < |chain| ==> EntryAt(i))
    }

    ghost predicate EntryAt(i: nat)
      requires i < |chain| == |kids|
      reads this, chain, kids
    {
      var e := chain[i];
      && e.process == kids[i] && e.name == kids[i].name && e.info == kids[i].info && e.value == kids[i].value
      && e.next == if i + 1 < |chain| then chain[i + 1] else null
    }

    /** Every list of the subtree is linked. */
    ghost predicate Chained()
      requires Valid()
      reads this, Repr, Links
      decreases Repr
    {
      Linked() && forall i :: 0 <= i < |kids| ==> kids[i].Chained()
    }

    ghost predicate Good()
      reads this, Repr, Links
    {
      Valid() && Chained()
    }

    /** The footprint has only grown by what was allocated. */
    twostate predicate Grown()
      reads this, Repr
    {
      old(Repr) <= Repr && old(Links) <= Links && fresh(Repr - old(Repr)) && fresh(Links - old(Links))
    }

    /** The entry at position i of the list, or the end. */
    ghost predicate At(cur: Entry?, i: nat)
      reads this
    {
      cur == if i < |chain| then chain[i] else null
    }

    /** The walk through the list meets the children in order. */
    lemma Here(cur: Entry, i: nat)
      requires Linked() && i < |chain| && cur == chain[i]
      ensures cur.process == kids[i] && cur.name == kids[i].name && At(cur.next, i + 1)
    {
      assert EntryAt(i);
    }

    /** A process started with execl: no children yet. */
    constructor (name: string, info: string, value: nat, malloced: Bytes)
      requires |malloced| == MAX_CHECK_LEN
      ensures Good() && Repr == {this} && Links == {}
      ensures Tree() == Leaf(name, info, value)
    {
      this.name, this.info, this.value, this.malloced := name, info, value, malloced;
      head, chain, kids := null, [], [];
      Repr, Links := {this}, {};
    }

    /** find_parent_value: the reply, None for "fail". */
    method FindParentValue(p: string, c: string) returns (reply: Option<nat>)
      requires Good()
      ensures reply == ValueRoute(Tree(), p, c)
      decreases Repr
    {
      if name == p {
        return Some(value);
      }
      var cur := head;
      ghost var i := 0;
      while cur != null
        invariant i <= |chain| && At(cur, i)
        invariant ValueRouteAll(Forest(), p, c) == ValueRouteAll(Forest()[i..], p, c)
        decreases |chain| - i
      {
        Here(cur, i);
        assert kids[i].Good() && kids[i].Repr < Repr;
        reply := cur.process.FindParentValue(p, c);
        assert Forest()[i..][0] == kids[i].Tree();
        if reply.Some? {
          if name == c {
            return None;
          }
          return;
        }
        assert Forest()[i..][1..] == Forest()[i + 1..];
        cur, i := cur.next, i + 1;
      }
      reply := None;
    }

    // ---- Collect

    /** Where combine gets the own info first, malloc left a NUL behind it: combine steps over
        the terminator of a text without a newline. */
    ghost predicate Quiets()
      requires Valid()
      reads this, Repr
      decreases Repr
    {
      && (kids != [] && info != name ==> |info| + 1 < MAX_CHECK_LEN && malloced[|info| + 1] == '\0')
      && (forall i :: 0 <= i < |kids| ==> kids[i].Quiets())
    }

    /** The listing of the subtree is printable and fits the buffers. */
    ghost predicate Lists()
      requires Valid()
      reads this, Repr
    {
      Quiets() && Listed(Tree())
    }

    /** collect: asks the children in order and merges their answers into a buffer. */
    method Collect() returns (reply: string)
      requires Good() && Lists()
      ensures reply == FriendListing.Collect(Tree())
      decreases Repr, 0
    {
      ghost var t := Tree();
      BufferStarts(t);
      var buf := OwnInfo(malloced, info);
      OwnInfoReady(buf[..], malloced, t);
      var cur := head;
      ghost var i := 0;
      while cur != null
        invariant i <= |chain| && At(cur, i)
        invariant fresh(buf) && buf.Length == MAX_CHECK_LEN && Ready(buf[..], t, i)
        decreases |chain| - i
      {
        AskToCollect(cur, i, t, buf);
        cur, i := cur.next, i + 1;
      }
      reply := Finish(buf, info, t);
    }

    /** One child is asked, and its answer goes into the buffer. */
    method AskToCollect(cur: Entry, ghost i: nat, ghost t: Tree, buf: array<char>)
      requires Good() && Lists() && t == Tree() && i < |chain| && cur == chain[i]
      requires buf.Length == MAX_CHECK_LEN && Ready(buf[..], t, i)
      modifies buf
      ensures Ready(buf[..], t, i + 1) && At(cur.next, i + 1)
      decreases kids[i].Repr, 1
    {
      Here(cur, i);
      assert t.children[i] == kids[i].Tree();
      ChildListed(t, i);
      var reply := cur.process.Collect();
      MergeChild(buf, reply, t, i, name);
    }

    // ---- Framing

    /** After a command to child i, which may only have changed that child's subtree, the
        process is valid again once Repr covers the child's new footprint. */
    twostate lemma StillValid(i: nat)
      requires old(Valid()) && i < old(|kids|)
      requires forall o: Process :: o in old(Repr) && o !in old(kids[i].Repr) && o != this ==> unchanged(o)
      requires kids == old(kids) && chain == old(chain)
      requires kids[i].Valid() && fresh(kids[i].Repr - old(kids[i].Repr))
      requires old(kids[i].Repr) <= kids[i].Repr && Repr == old(Repr) + kids[i].Repr && Links == old(Links) + kids[i].Links
      ensures Valid() && Forest() == old(Forest())[i := kids[i].Tree()]
      ensures forall j :: 0 <= j < |kids| && j != i ==> kids[j].Repr == old(kids[j].Repr)
    {
      forall j | 0 <= j < |kids| && j != i
        ensures kids[j].Valid() && kids[j].Tree() == old(kids[j].Tree()) && kids[j].Repr == old(kids[j].Repr)
      {
        assert old(kids[j].Repr) !! old(kids[i].Repr);
        assert old(kids[j].Valid());
        assert forall o :: o in old(kids[j].Repr) ==> unchanged(o);
      }
    }

    /** The list is still linked if only the entry of child i was written. */
    twostate lemma StillLinked(i: nat)
      requires old(Good()) && i < old(|kids|) == old(|chain|)
      requires forall o: Process :: o in old(Repr) && o !in old(kids[i].Repr) && o != this ==> unchanged(o)
      requires kids == old(kids) && chain == old(chain)
      requires forall e: Entry :: e in old(Links) && e.owner !in old(kids[i].Repr) && e != old(chain[i]) ==> unchanged(e)
      requires head == old(head) && EntryAt(i)
      ensures Linked()
    {
      forall j | 0 <= j < |kids| && j != i ensures EntryAt(j) {
        assert old(kids[j].Repr) !! old(kids[i].Repr);
        assert old(kids[j].Valid()) && old(EntryAt(i)) && old(EntryAt(j));
      }
    }

    twostate lemma StillChained(i: nat)
      requires old(Good()) && Valid() && i < old(|kids|) == old(|chain|)
      requires forall o: Process :: o in old(Repr) && o !in old(kids[i].Repr) && o != this ==> unchanged(o)
      requires kids == old(kids) && chain == old(chain)
      requires forall e: Entry :: e in old(Links) && e.owner !in old(kids[i].Repr) && e != old(chain[i]) ==> unchanged(e)
      requires Linked() && kids[i].Good()
      ensures Chained()
    {
      forall j | 0 <= j < |kids| && j != i ensures kids[j].Chained() {
        assert old(kids[j].Repr) !! old(kids[i].Repr);
        assert old(kids[j].Good()) && old(EntryAt(i));
        forall e | e in old(kids[j].Links) ensures unchanged(e) {
          assert e.owner in old(kids[j].Repr) && e in old(Links);
        }
      }
    }

    twostate lemma ChildChanged(i: nat)
      requires old(Good()) && i < old(|kids|) == old(|chain|)
      requires forall o: Process :: o in old(Repr) && o !in old(kids[i].Repr) && o != this ==> unchanged(o)
      requires kids == old(kids) && chain == old(chain) && head == old(head)
      requires forall e: Entry :: e in old(Links) && e !in old(kids[i].Links) && e != old(chain[i]) ==> unchanged(e)
      requires kids[i].Good() && kids[i].Grown() && EntryAt(i)
      requires Repr == old(Repr) + kids[i].Repr && Links == old(Links) + kids[i].Links
      ensures Good() && Grown() && Forest() == old(Forest())[i := kids[i].Tree()]
      ensures forall j :: 0 <= j < |kids| && j != i ==> kids[j].Repr == old(kids[j].Repr)
    {
      EntriesElsewhere(i);
      StillValid(i);
      StillLinked(i);
      StillChained(i);
    }

    twostate lemma EntriesElsewhere(i: nat)
      requires old(Valid()) && i < old(|kids|)
      ensures forall e: Entry :: e in old(kids[i].Links) ==> e.owner in old(kids[i].Repr)
    {
      assert old(kids[i].Valid());
    }

    /** A command that was passed on to child i and left its info and value alone. */
    twostate lemma ChildAnswered(i: nat)
      requires old(Good()) && i < old(|kids|)
      requires forall o: Process :: o in old(Repr) && o !in old(kids[i].Repr) && o != this ==> unchanged(o)
      requires forall e: Entry :: e in old(Links) && e !in old(kids[i].Links) ==> unchanged(e)
      requires kids == old(kids) && chain == old(chain) && head == old(head)
      requires kids[i].Good() && kids[i].Grown() && Repr == old(Repr) + kids[i].Repr && Links == old(Links) + kids[i].Links
      requires kids[i].info == old(kids[i].info) && kids[i].value == old(kids[i].value)
      ensures Good() && Grown() && Forest() == old(Forest())[i := kids[i].Tree()]
      ensures forall j :: 0 <= j < |kids| && j != i ==> kids[j].Repr == old(kids[j].Repr)
    {
      EntryUntouched(i);
      ChildChanged(i);
    }

    twostate lemma EntryUntouched(i: nat)
      requires old(Good()) && i < old(|kids|)
      requires forall e: Entry :: e in old(Links) && e !in old(kids[i].Links) ==> unchanged(e)
      requires kids == old(kids) && chain == old(chain)
      requires kids[i].info == old(kids[i].info) && kids[i].value == old(kids[i].value)
      ensures i < |chain| == |kids| && EntryAt(i)
    {
      EntriesElsewhere(i);
      assert old(EntryAt(i));
    }

    /** The footprint of child i becomes part of this one's. */
    ghost method Cover(i: nat)
      requires i < |kids| && kids[i].Good() && this !in kids[i].Repr
      modifies this`Repr, this`Links
      ensures Repr == old(Repr) + kids[i].Repr && Links == old(Links) + kids[i].Links
      ensures kids[i].Good() && kids[i].Tree() == old(kids[i].Tree())
    {
      Repr, Links := Repr + kids[i].Repr, Links + kids[i].Links;
    }

    // ---- Meet

    /** fork and execl of a new friend, whose entry is linked behind the last one. */
    method AddChild(childName: string, childInfo: string, childValue: nat, childMalloced: Bytes)
      requires Good() && |childMalloced| == MAX_CHECK_LEN
      modifies this, chain
      ensures Good() && Grown()
      ensures info == old(info) && value == old(value)
      ensures Forest() == old(Forest()) + [Leaf(childName, childInfo, childValue)]
    {
      var child := new Process(childName, childInfo, childValue, childMalloced);
      var entry := new Entry(this, child, childName, childInfo, childValue);
      LinkLast(entry);
      Repr, Links := Repr + child.Repr, Links + {entry};
      assert child.Tree() == Leaf(childName, childInfo, childValue);
      Appended(entry);
    }

    method LinkLast(entry: Entry)
      requires Linked() && entry !in chain && entry.next == null
      modifies this`head, this`chain, this`kids, chain
      ensures chain == old(chain) + [entry] && kids == old(kids) + [entry.process]
      ensures head == if old(chain) == [] then entry else old(head)
      ensures forall j :: 0 <= j < old(|chain|) - 1 ==> unchanged(old(chain)[j])
      ensures old(chain) != [] ==> var last := old(chain)[|old(chain)| - 1];
        last.next == entry && last.info == old(last.info) && last.value == old(last.value)
    {
      if head == null {
        head := entry;
      } else {
        var last := Last();
        last.next := entry;
      }
      chain, kids := chain + [entry], kids + [entry.process];
    }

    /** The walk to the end of the list. */
    method Last() returns (last: Entry)
      requires Linked() && head != null
      ensures chain != [] && last == chain[|chain| - 1]
    {
      last := head;
      ghost var i := 0;
      while last.next != null
        invariant i < |chain| && last == chain[i]
        decreases |chain| - i
      {
        assert EntryAt(i);
        last, i := last.next, i + 1;
      }
      assert EntryAt(i);
    }

    twostate lemma AppendedValid(new entry: Entry)
      requires old(Valid()) && entry.owner == this
      requires fresh(entry.process) && entry.process.Good() && entry.process.Repr == {entry.process}
      requires chain == old(chain) + [entry] && kids == old(kids) + [entry.process] && Repr == old(Repr) + {entry.process}
      requires Links == old(Links) + {entry} && entry.process.Links == {}
      requires forall o: Process :: o in old(Repr) && o != this ==> unchanged(o)
      ensures Valid() && Forest() == old(Forest()) + [entry.process.Tree()]
    {
      forall j | 0 <= j < |old(kids)|
        ensures kids[j].Valid() && kids[j].Tree() == old(kids[j].Tree()) && kids[j].Repr == old(kids[j].Repr)
      {
        assert old(kids[j].Valid());
        assert forall o :: o in old(kids[j].Repr) ==> unchanged(o);
      }
    }

    twostate lemma AppendedChained(new entry: Entry)
      requires old(Good()) && Valid()
      requires fresh(entry.process) && entry.process.Good() && entry.process.Repr == {entry.process}
      requires chain == old(chain) + [entry] && kids == old(kids) + [entry.process] && Repr == old(Repr) + {entry.process}
      requires Links == old(Links) + {entry} && entry.process.Links == {}
      requires forall o: Process :: o in old(Repr) && o != this ==> unchanged(o)
      requires fresh(entry) && entry.next == null && entry.owner == this
      requires entry.name == entry.process.name && entry.info == entry.process.info && entry.value == entry.process.value
      requires head == if old(chain) == [] then entry else old(head)
      requires forall j :: 0 <= j < old(|chain|) - 1 ==> unchanged(old(chain)[j])
      requires old(chain) != [] ==> var last := old(chain)[|old(chain)| - 1];
        last.next == entry && last.info == old(last.info) && last.value == old(last.value)
      requires forall e: Entry :: e in old(Links) && e.owner != this ==> unchanged(e)
      ensures Chained() && fresh(Links - old(Links))
    {
      forall j | 0 <= j < |old(kids)| ensures kids[j].Chained() && EntryAt(j) {
        assert old(kids[j].Good()) && old(EntryAt(j));
        forall e | e in old(kids[j].Links) ensures unchanged(e) {
          assert e.owner in old(kids[j].Repr) && e in old(Links);
        }
      }
    }

    twostate lemma Appended(new entry: Entry)
      requires old(Good())
      requires fresh(entry.process) && entry.process.Good() && entry.process.Repr == {entry.process}
      requires chain == old(chain) + [entry] && kids == old(kids) + [entry.process] && Repr == old(Repr) + {entry.process}
      requires Links == old(Links) + {entry} && entry.process.Links == {}
      requires forall o: Process :: o in old(Repr) && o != this ==> unchanged(o)
      requires fresh(entry) && entry.next == null && entry.owner == this
      requires entry.name == entry.process.name && entry.info == entry.process.info && entry.value == entry.process.value
      requires head == if old(chain) == [] then entry else old(head)
      requires forall j :: 0 <= j < old(|chain|) - 1 ==> unchanged(old(chain)[j])
      requires old(chain) != [] ==> var last := old(chain)[|old(chain)| - 1];
        last.next == entry && last.info == old(last.info) && last.value == old(last.value)
      requires forall e: Entry :: e in old(Links) && e.owner != this ==> unchanged(e)
      ensures Good() && Grown() && Forest() == old(Forest()) + [entry.process.Tree()]
    {
      AppendedValid(entry);
      AppendedChained(entry);
    }

    /** meet: the process named p starts the new friend; the others ask their children. */
    method Meet(p: string, childName: string, childInfo: string, childValue: nat, childMalloced: Bytes) returns (ok: bool)
      requires Good() && |childMalloced| == MAX_CHECK_LEN
      modifies Repr, Links
      ensures Good() && Grown()
      ensures (ok, Tree()) == MeetRoute(old(Tree()), p, Leaf(childName, childInfo, childValue))
      decreases Repr, 1
    {
      if name == p {
        AddChild(childName, childInfo, childValue, childMalloced);
        ok := true;
      } else {
        ok := MeetBelow(p, childName, childInfo, childValue, childMalloced);
      }
    }

    /** The children are asked in order until one of them knows p. */
    method MeetBelow(p: string, childName: string, childInfo: string, childValue: nat, childMalloced: Bytes) returns (ok: bool)
      requires Good() && |childMalloced| == MAX_CHECK_LEN
      modifies Repr, Links
      ensures Good() && Grown() && info == old(info) && value == old(value)
      ensures (ok, Forest()) == MeetRouteAll(old(Forest()), p, Leaf(childName, childInfo, childValue))
      decreases Repr, 0
    {
      ghost var x := Leaf(childName, childInfo, childValue);
      ghost var forest := Forest();
      var cur := head;
      ghost var i := 0;
      while cur != null
        invariant i <= |chain| && chain == old(chain) && kids == old(kids) && At(cur, i)
        invariant Good() && Grown()
        invariant info == old(info) && value == old(value) && Forest() == forest
        invariant forall j :: i <= j < |kids| ==> kids[j].Repr == old(kids[j].Repr)
        invariant forall j :: 0 <= j < i ==> !MeetRoute(forest[j], p, x).0
        decreases |chain| - i
      {
        ok := ForwardMeet(cur, i, p, childName, childInfo, childValue, childMalloced);
        MeetAllAt(forest, p, x, i);
        if ok {
          return;
        }
        MeetFailKeeps(forest[i], p, x);
        Here(cur, i);
        cur, i := cur.next, i + 1;
      }
      MeetAllAt(forest, p, x, i);
      ok := false;
    }

    /** The command is passed on to one child, which answers. */
    method ForwardMeet(cur: Entry, ghost i: nat, p: string, childName: string, childInfo: string, childValue: nat,
                       childMalloced: Bytes) returns (ok: bool)
      requires Good() && i < |chain| && cur == chain[i] && |childMalloced| == MAX_CHECK_LEN
      modifies Repr, Links
      ensures Good() && Grown()
      ensures chain == old(chain) && kids == old(kids) && info == old(info) && value == old(value)
      ensures ok == MeetRoute(old(Forest()[i]), p, Leaf(childName, childInfo, childValue)).0
      ensures Forest() == old(Forest()[i := MeetRoute(Forest()[i], p, Leaf(childName, childInfo, childValue)).1])
      ensures forall j :: 0 <= j < |kids| && j != i ==> kids[j].Repr == old(kids[j].Repr)
      decreases kids[i].Repr, 2
    {
      ghost var x, d := Leaf(childName, childInfo, childValue), Forest()[i];
      Here(cur, i);
      assert d == kids[i].Tree();
      MeetKeepsNode(d, p, x);
      ok := cur.process.Meet(p, childName, childInfo, childValue, childMalloced);
      Cover(i);
      ChildAnswered(i);
      assert kids[i].Tree() == MeetRoute(d, p, x).1;
    }

    // ---- Graduate

    /** graduate: every child exits, and is waited for, before this process does. */
    method Exit() returns (order: seq<string>)
      requires Good()
      ensures order == ExitOrder(Tree())
      decreases Repr
    {
      ghost var forest := Forest();
      order := [];
      var cur := head;
      ghost var i := 0;
      while cur != null
        invariant i <= |chain| && At(cur, i)
        invariant order == ExitOrderAll(forest[..i])
        decreases |chain| - i
      {
        Here(cur, i);
        var below := cur.process.Exit();
        order := order + below;
        ExitStep(forest, i);
        cur, i := cur.next, i + 1;
      }
      assert forest[..|kids|] == forest;
      order := order + [name];
    }

    /** The entry cur, behind prev if that is not null, is taken out of the list. */
    method UnlinkChild(prev: Entry?, cur: Entry, ghost i: nat)
      requires Good() && i < |chain| && cur == chain[i]
      requires prev == if i == 0 then null else chain[i - 1]
      modifies this, chain
      ensures Good() && Grown() && info == old(info) && value == old(value)
      ensures Forest() == old(Forest()[..i] + Forest()[i + 1..])
    {
      if prev == null {
        head := cur.next;
      } else {
        prev.next := cur.next;
      }
      chain, kids := chain[..i] + chain[i + 1..], kids[..i] + kids[i + 1..];
      Unlinked(i);
    }

    twostate lemma UnlinkedValid(i: nat)
      requires old(Valid()) && i < |old(kids)| && |old(chain)| == |old(kids)|
      requires chain == old(chain[..i] + chain[i + 1..]) && kids == old(kids[..i] + kids[i + 1..])
      requires Repr == old(Repr) && Links == old(Links) && forall o: Process :: o in old(Repr) && o != this ==> unchanged(o)
      ensures Valid() && Forest() == old(Forest()[..i] + Forest()[i + 1..])
    {
      forall j | 0 <= j < |kids|
        ensures var k := if j < i then j else j + 1;
          kids[j] == old(kids[k]) && kids[j].Valid() && kids[j].Tree() == old(kids[k].Tree()) && kids[j].Repr == old(kids[k].Repr)
      {
        var k := if j < i then j else j + 1;
        assert old(kids[k].Valid());
        assert forall o :: o in old(kids[k].Repr) ==> unchanged(o);
      }
    }

    twostate lemma Unlinked(i: nat)
      requires old(Good()) && i < |old(kids)|
      requires chain == old(chain[..i] + chain[i + 1..]) && kids == old(kids[..i] + kids[i + 1..])
      requires Repr == old(Repr) && Links == old(Links) && forall o: Process :: o in old(Repr) && o != this ==> unchanged(o)
      requires forall e: Entry :: e in old(Links) && (i == 0 || e != old(chain[i - 1])) ==> unchanged(e)
      requires head == if i == 0 then old(chain[i].next) else old(head)
      requires i > 0 ==> var e := old(chain[i - 1]); e.next == old(chain[i].next) && e.info == old(e.info) && e.value == old(e.value)
      ensures Good() && Grown() && Forest() == old(Forest()[..i] + Forest()[i + 1..])
    {
      UnlinkedValid(i);
      assert old(EntryAt(i));
      forall j | 0 <= j < |kids| ensures kids[j].Chained() && EntryAt(j) {
        var k := if j < i then j else j + 1;
        assert old(kids[k].Good()) && old(EntryAt(k));
        forall e | e in old(kids[k].Links) ensures unchanged(e) {
          assert e.owner in old(kids[k].Repr) && e in old(Links);
        }
      }
    }

    /** checknode with task 2, at a process that is not the one to exit. */
    method Graduate(c: string) returns (ok: bool)
      requires Good()
      modifies Repr, Links
      ensures Good() && Grown() && info == old(info) && value == old(value)
      ensures (ok, Forest()) == GraduateRouteAll(old(Forest()), c)
      decreases Repr, 0
    {
      ghost var forest := Forest();
      var prev: Entry? := null;
      var cur := head;
      ghost var i := 0;
      while cur != null
        invariant i <= |chain| && chain == old(chain) && kids == old(kids) && At(cur, i)
        invariant prev == if i == 0 then null else chain[i - 1]
        invariant Good() && Grown()
        invariant info == old(info) && value == old(value) && Forest() == forest
        invariant forall j :: i <= j < |kids| ==> kids[j].Repr == old(kids[j].Repr)
        invariant i <= |forest| && AllStay(forest, c, i)
        decreases |chain| - i
      {
        ok := AskToGraduate(prev, cur, i, c, forest);
        if ok {
          return;
        }
        prev, cur, i := cur, cur.next, i + 1;
      }
      GraduateAllAt(forest, c, i);
      ok := false;
    }

    /** One child is asked: the one named c exits and is unlinked, another passes it on. */
    method AskToGraduate(prev: Entry?, cur: Entry, ghost i: nat, c: string, ghost forest: seq<Tree>) returns (ok: bool)
      requires Good() && i < |chain| && cur == chain[i]
      requires prev == if i == 0 then null else chain[i - 1]
      requires Forest() == forest && AllStay(forest, c, i)
      modifies Repr, Links
      ensures Good() && Grown() && info == old(info) && value == old(value)
      ensures ok ==> (true, Forest()) == GraduateRouteAll(forest, c)
      ensures !ok ==> Forest() == forest && AllStay(forest, c, i + 1)
      ensures !ok ==> chain == old(chain) && kids == old(kids) && At(cur.next, i + 1)
      ensures !ok ==> forall j :: 0 <= j < |kids| && j != i ==> kids[j].Repr == old(kids[j].Repr)
      decreases kids[i].Repr, 3
    {
      Here(cur, i);
      assert forest[i] == kids[i].Tree();
      GraduateAllAt(forest, c, i);
      if cur.name == c {
        var order := cur.process.Exit();
        UnlinkChild(prev, cur, i);
        ok := true;
      } else {
        ok := ForwardGraduate(cur, i, c);
        if !ok {
          GraduateFailKeeps(forest[i], c);
          Here(cur, i);
        }
      }
    }

    /** The command is passed on to one child, which answers. */
    method ForwardGraduate(cur: Entry, ghost i: nat, c: string) returns (ok: bool)
      requires Good() && i < |chain| && cur == chain[i]
      modifies Repr, Links
      ensures Good() && Grown()
      ensures chain == old(chain) && kids == old(kids) && info == old(info) && value == old(value)
      ensures ok == GraduateRoute(old(Forest()[i]), c).0
      ensures Forest() == old(Forest()[i := GraduateRoute(Forest()[i], c).1])
      ensures forall j :: 0 <= j < |kids| && j != i ==> kids[j].Repr == old(kids[j].Repr)
      decreases kids[i].Repr, 2
    {
      ghost var d := Forest()[i];
      Here(cur, i);
      assert d == kids[i].Tree();
      ok := cur.process.Graduate(c);
      Cover(i);
      ChildAnswered(i);
      assert kids[i].Tree() == GraduateRoute(d, c).1;
    }

    // ---- Adopt

    /** One child that moves: its line, with p as its parent, then what it writes itself. */
    method AdoptChild(cur: Entry, ghost i: nat, p: string, v: nat) returns (text: string)
      requires Good() && v > 0 && i < |chain| && cur == chain[i]
      modifies Repr, Links
      ensures Good() && Grown()
      ensures chain == old(chain) && kids == old(kids) && info == old(info) && value == old(value)
      ensures Forest() == old(Forest()[i := Reduced(Forest()[i], v)])
      ensures forall j :: 0 <= j < |kids| && j != i ==> kids[j].Repr == old(kids[j].Repr)
      ensures text == Wire(RecordsOf(p, old(Forest()[i]), v))
      decreases kids[i].Repr, 4
    {
      ghost var d := Forest()[i];
      assert d == kids[i].Tree();
      WireAppend([RecordOf(p, d.name, d.value % v)], RecordsAll(d.name, d.children, v));
      var line, below := ReduceChild(cur, i, p, v);
      ChildChanged(i);
      text := line + below;
    }

    /** The entry is reduced and its line written, then the child is told. */
    method ReduceChild(cur: Entry, ghost i: nat, p: string, v: nat) returns (line: string, below: string)
      requires Good() && v > 0 && i < |chain| && cur == chain[i]
      modifies this`Repr, this`Links, cur, kids[i].Repr, kids[i].Links
      ensures kids[i].Good() && kids[i].Grown() && EntryAt(i)
      ensures kids[i].Tree() == Reduced(old(kids[i].Tree()), v)
      ensures Repr == old(Repr) + kids[i].Repr && Links == old(Links) + kids[i].Links
      ensures line == Wire([RecordOf(p, kids[i].name, old(kids[i].value) % v)])
      ensures below == Wire(RecordsAll(kids[i].name, old(kids[i].Forest()), v))
      decreases kids[i].Repr, 3
    {
      assert EntryAt(i);
      line := cur.Reduce(p, v);
      EntryWritten(i);
      below := TellChild(cur, i, v);
    }

    /** Once its entry is reduced, the child reduces itself and what is below it. */
    method TellChild(cur: Entry, ghost i: nat, v: nat) returns (below: string)
      requires Valid() && v > 0 && i < |chain| == |kids| && cur == chain[i] && cur.process == kids[i] && kids[i].Good()
      requires cur.name == kids[i].name && cur.value == kids[i].value % v && cur.info == InfoText(cur.name, cur.value)
      requires cur.next == if i + 1 < |chain| then chain[i + 1] else null
      modifies this`Repr, this`Links, kids[i].Repr, kids[i].Links
      ensures kids[i].Good() && kids[i].Grown() && EntryAt(i)
      ensures kids[i].Tree() == Reduced(old(kids[i].Tree()), v)
      ensures Repr == old(Repr) + kids[i].Repr && Links == old(Links) + kids[i].Links
      ensures below == Wire(RecordsAll(kids[i].name, old(kids[i].Forest()), v))
      decreases kids[i].Repr, 2
    {
      below := cur.process.BeAdopted(v);
      Cover(i);
    }

    /** The child does not see what is written into its entry. */
    twostate lemma EntryWritten(i: nat)
      requires old(Good()) && i < |old(kids)|
      requires forall o: Process :: o in old(Repr) ==> unchanged(o)
      requires forall e: Entry :: e in old(Links) && e != old(chain[i]) ==> unchanged(e)
      ensures kids[i].Good() && kids[i].Tree() == old(kids[i].Tree()) && kids[i].Repr == old(kids[i].Repr)
    {
      assert old(kids[i].Good()) && old(EntryAt(i));
    }

    /** The loop of be_adopted over the children. */
    method AdoptChildren(v: nat) returns (text: string)
      requires Good() && v > 0
      modifies Repr, Links
      ensures Good() && Grown() && info == old(info) && value == old(value)
      ensures Forest() == ReducedAll(old(Forest()), v)
      ensures text == Wire(RecordsAll(name, old(Forest()), v))
      decreases Repr, 0
    {
      ghost var forest := Forest();
      text := "";
      var cur := head;
      ghost var i := 0;
      NoneReduced(forest, v);
      while cur != null
        invariant i <= |chain| && chain == old(chain) && kids == old(kids) && At(cur, i)
        invariant Good() && Grown() && info == old(info) && value == old(value)
        invariant forall j :: i <= j < |kids| ==> kids[j].Repr == old(kids[j].Repr)
        invariant Forest() == PartlyReduced(forest, v, i)
        invariant text == Wire(RecordsAll(name, forest[..i], v))
        decreases |chain| - i
      {
        text := AdoptNext(cur, i, v, text, forest);
        cur, i := cur.next, i + 1;
      }
      AllReduced(forest, v);
    }

    method AdoptNext(cur: Entry, ghost i: nat, v: nat, written: string, ghost forest: seq<Tree>) returns (text: string)
      requires Good() && v > 0 && i < |chain| && cur == chain[i]
      requires |forest| == |kids| && Forest() == PartlyReduced(forest, v, i)
      requires written == Wire(RecordsAll(name, forest[..i], v))
      modifies Repr, Links
      ensures Good() && Grown()
      ensures chain == old(chain) && kids == old(kids) && info == old(info) && value == old(value) && At(cur.next, i + 1)
      ensures Forest() == PartlyReduced(forest, v, i + 1)
      ensures forall j :: 0 <= j < |kids| && j != i ==> kids[j].Repr == old(kids[j].Repr)
      ensures text == Wire(RecordsAll(name, forest[..i + 1], v))
      decreases kids[i].Repr, 5
    {
      ReducedStep(forest, v, i);
      WireStep(name, forest, v, i);
      text := AdoptChild(cur, i, name, v);
      text := written + text;
      Here(cur, i);
    }

    /** be_adopted: reduces the values of the subtree and writes its lines in preorder. */
    method BeAdopted(v: nat) returns (text: string)
      requires Good() && v > 0
      modifies Repr, Links
      ensures Good() && Grown()
      ensures Tree() == Reduced(old(Tree()), v)
      ensures text == Wire(RecordsAll(name, old(Forest()), v))
      decreases Repr, 1
    {
      ghost var forest := Forest();
      value := value % v;
      info := InfoText(name, value);
      OwnChanged();
      text := AdoptChildren(v);
    }

    /** Only the own info and value were written. */
    twostate lemma OwnChanged()
      requires old(Good()) && chain == old(chain) && kids == old(kids) && head == old(head)
      requires Repr == old(Repr) && Links == old(Links)
      requires forall o: Process :: o in old(Repr) && o != this ==> unchanged(o)
      requires forall e: Entry :: e in old(Links) ==> unchanged(e)
      ensures Good() && Forest() == old(Forest())
    {
      forall j | 0 <= j < |kids| ensures kids[j].Good() && kids[j].Tree() == old(kids[j].Tree()) {
        assert old(kids[j].Good());
      }
      forall j | 0 <= j < |kids| ensures EntryAt(j) {
        assert old(EntryAt(j));
      }
    }

    /** adopt: the process that has the child named c writes its line and lets it write
        the others; the rest pass the command on, child by child. */
    method Adopt(p: string, c: string, v: nat) returns (text: Option<string>)
      requires Good() && v > 0
      modifies Repr, Links
      ensures Good() && Grown() && info == old(info) && value == old(value)
      ensures text == WireOf(AdoptRoute(old(Forest()), p, c, v))
      ensures Forest() == ReducedInPlace(old(Forest()), c, v)
      decreases Repr, 0
    {
      ghost var forest := Forest();
      var cur := head;
      ghost var i := 0;
      while cur != null
        invariant i <= |chain| && chain == old(chain) && kids == old(kids) && At(cur, i)
        invariant Good() && Grown()
        invariant info == old(info) && value == old(value) && Forest() == forest
        invariant forall j :: i <= j < |kids| ==> kids[j].Repr == old(kids[j].Repr)
        invariant i <= |forest| && AllSpared(forest, c, i)
        decreases |chain| - i
      {
        text := AskToAdopt(cur, i, p, c, v, forest);
        if text.Some? {
          return;
        }
        Here(cur, i);
        cur, i := cur.next, i + 1;
      }
      AdoptAt(forest, p, c, v, i);
      text := None;
    }

    /** One child is asked: the one named c is told to be adopted, another passes it on. */
    method AskToAdopt(cur: Entry, ghost i: nat, p: string, c: string, v: nat, ghost forest: seq<Tree>)
        returns (text: Option<string>)
      requires Good() && v > 0 && i < |chain| && cur == chain[i]
      requires Forest() == forest && AllSpared(forest, c, i)
      modifies Repr, Links
      ensures Good() && Grown() && info == old(info) && value == old(value)
      ensures chain == old(chain) && kids == old(kids)
      ensures text.Some? ==> text == WireOf(AdoptRoute(forest, p, c, v)) && Forest() == ReducedInPlace(forest, c, v)
      ensures text.None? ==> Forest() == forest && AllSpared(forest, c, i + 1)
      ensures forall j :: 0 <= j < |kids| && j != i ==> kids[j].Repr == old(kids[j].Repr)
      decreases kids[i].Repr, 5
    {
      ghost var d := forest[i];
      Here(cur, i);
      assert d == kids[i].Tree();
      AdoptAt(forest, p, c, v, i);
      AdoptRouteFinds(d.children, p, c, v);
      if cur.name == c {
        var below := AdoptChild(cur, i, p, v);
        text := Some(below);
      } else {
        text := ForwardAdopt(cur, i, p, c, v);
        if text.None? {
          ReducedAbsent(d.children, c, v);
        }
      }
    }

    /** The command is passed on to one child, which answers. */
    method ForwardAdopt(cur: Entry, ghost i: nat, p: string, c: string, v: nat) returns (text: Option<string>)
      requires Good() && v > 0 && i < |chain| && cur == chain[i]
      modifies Repr, Links
      ensures Good() && Grown()
      ensures chain == old(chain) && kids == old(kids) && info == old(info) && value == old(value)
      ensures text == WireOf(AdoptRoute(old(Forest()[i].children), p, c, v))
      ensures Forest() == old(Forest()[i := Forest()[i].(children := ReducedInPlace(Forest()[i].children, c, v))])
      ensures forall j :: 0 <= j < |kids| && j != i ==> kids[j].Repr == old(kids[j].Repr)
      decreases kids[i].Repr, 2
    {
      ghost var d := Forest()[i];
      Here(cur, i);
      assert d == kids[i].Tree();
      text := cur.process.Adopt(p, c, v);
      Cover(i);
      ChildAnswered(i);
      assert kids[i].Tree() == d.(children := ReducedInPlace(d.children, c, v));
    }

    /** The Adopt command at the root, as main runs it: value, FIFO, exit, replay. */
    method AdoptSubtree(p: string, c: string, malloced: Bytes) returns (done: Answer)
      requires Good() && |malloced| == MAX_CHECK_LEN
      modifies Repr, Links
      ensures Good() && Grown()
      ensures match AdoptOverFifo(old(Tree()), p, c)
              case Refused => done == Declined && Tree() == old(Tree())
              case Crashed => done == DividedByZero
              case Blocked => done == StuckOnFifo
              case Adopted(t) => done == Moved && Tree() == t
    {
      if c == name {
        return Declined;
      }
      var reply := FindParentValue(p, c);
      if reply.None? {
        return Declined;
      }
      var v := reply.value;
      if v == 0 {
        var found := Knows(c);
        return if found then DividedByZero else StuckOnFifo;
      }
      ghost var tree := Tree();
      var text := Adopt(p, c, v);
      if text.None? {
        return StuckOnFifo;
      }
      ReducedThenGraduated(tree.children, c, v);
      Resettle(c, text.value, malloced);
      done := Moved;
    }

    /** The old processes exit, and what one read takes from the FIFO is replayed. */
    method Resettle(c: string, text: string, malloced: Bytes)
      requires Good() && |malloced| == MAX_CHECK_LEN
      modifies Repr, Links
      ensures Good() && Grown()
      ensures Tree() == ReplayFifo(GraduateRoute(old(Tree()), c).1, text)
    {
      var gone := Graduate(c);
      ReplayText(if |text| < MAX_FIFO_CMD then text else text[..MAX_FIFO_CMD - 1], malloced);
    }

    /** The loop over the tokens of what was read from the FIFO. */
    method ReplayText(text: string, malloced: Bytes)
      requires Good() && |malloced| == MAX_CHECK_LEN
      modifies Repr, Links
      ensures Good() && Grown()
      ensures Tree() == Replay(old(Tree()), ReadAll(text))
    {
      var rest := text;
      while rest != ""
        invariant Good() && Grown()
        invariant Replay(Tree(), ReadAll(rest)) == Replay(old(Tree()), ReadAll(text))
        decreases |rest|
      {
        var token, more := SplitText(rest, '\n');
        ReplayToken(token, rest, malloced);
        rest := more;
      }
    }

    /** One token of strtok, unless it is empty, is a Meet command. */
    method ReplayToken(token: string, ghost rest: string, malloced: Bytes)
      requires Good() && |malloced| == MAX_CHECK_LEN
      requires rest != "" && token == UpTo(rest, '\n')
      modifies Repr, Links
      ensures Good() && Grown()
      ensures Replay(Tree(), ReadAll(After(rest, '\n'))) == Replay(old(Tree()), ReadAll(rest))
    {
      if token != "" {
        var r := ReadRecord(token);
        ReplayFirst(Tree(), r, ReadAll(After(rest, '\n')));
        var ok := Meet(r.parent, r.name, r.info, r.value, malloced);
      }
    }

    /** Whether a friend of that name lies below this process. */
    method Knows(c: string) returns (found: bool)
      requires Good()
      ensures found <==> FindAll(Forest(), c).Some?
      decreases Repr
    {
      found := false;
      var cur := head;
      ghost var i := 0;
      while cur != null
        invariant i <= |chain| && At(cur, i)
        invariant FindAll(Forest(), c).Some? <==> FindAll(Forest()[i..], c).Some?
        decreases |chain| - i
      {
        Here(cur, i);
        assert Forest()[i..][0] == kids[i].Tree();
        assert Forest()[i..][1..] == Forest()[i + 1..];
        if cur.name == c {
          return true;
        }
        found := cur.process.Knows(c);
        if found {
          return;
        }
        cur, i := cur.next, i + 1;
      }
    }
  }

  lemma ReplayFirst(t: Tree, r: Record, rs: seq<Record>)
    ensures Replay(t, [r] + rs) == Replay(MeetRoute(t, r.parent, FromRecord(r)).1, rs)
  {
    assert ([r] + rs)[1..] == rs;
  }

  // ---- Collect

  /** No newline and no NUL in infos and names, and the listing fits a buffer. */
  ghost predicate Listed(t: Tree) {
    OneLineAll([t]) && NulFree([t]) && InfoLength([t]) < MAX_CHECK_LEN
  }

  lemma BufferStarts(t: Tree)
    requires Listed(t)
    ensures |t.info| + 1 < MAX_CHECK_LEN && '\0' !in t.info && t.info == BufferAfter(t.info, t.children[..0])
  {
    assert t.children[..0] == [];
  }

  lemma ChildListed(t: Tree, i: nat)
    requires Listed(t) && i < |t.children|
    ensures Listed(t.children[i])
  {
    OneLineEach(t.children, i);
    NulFreePart(t.children, i);
    BufferFits(t, i);
  }

  /** What MergeReply asks for holds of every child's answer. */
  lemma MergeFits(t: Tree, i: nat)
    requires Listed(t) && i < |t.children|
    ensures var s, reply, s' := BufferAfter(t.info, t.children[..i]), Listing([t.children[i]]), BufferAfter(t.info, t.children[..i + 1]);
      && AddReply(t.name, s, reply) == s'
      && |s'| < MAX_CHECK_LEN && '\0' !in s' && '\0' !in t.name
      && |reply| < MAX_CHECK_LEN && '\0' !in reply && reply != "" && reply[|reply| - 1] == '\n'
  {
    BufferStep(t, i);
    BufferFits(t, i);
    BufferFits(t, i + 1);
    NulFreePart(t.children, i);
    NulFreePart(t.children, i + 1);
    ListingNulFree(t.children[..i + 1]);
    ListingNulFree([t.children[i]]);
    ListingEnds([t.children[i]]);
  }

  /** The buffer holds the text for the first i children, and combine may read it. */
  ghost predicate Ready(mem: Bytes, t: Tree, i: nat) {
    && i <= |t.children| && Holds(mem, BufferAfter(t.info, t.children[..i]))
    && (i < |t.children| && BufferAfter(t.info, t.children[..i]) != t.name ==> Quiet(mem, BufferAfter(t.info, t.children[..i])))
  }

  method MergeChild(buf: array<char>, reply: string, ghost t: Tree, ghost i: nat, name: string)
    requires Listed(t) && i < |t.children| && name == t.name && reply == FriendListing.Collect(t.children[i])
    requires buf.Length == MAX_CHECK_LEN && Ready(buf[..], t, i)
    modifies buf
    ensures Ready(buf[..], t, i + 1)
  {
    ChildListed(t, i);
    CollectIsListing(t.children[i]);
    MergeFits(t, i);
    MergeReply(buf, name, reply, BufferAfter(t.info, t.children[..i]));
    BufferEnds(t.info, t.children[..i + 1]);
  }

  lemma OwnInfoReady(mem: Bytes, malloced: Bytes, t: Tree)
    requires Holds(mem, t.info) && |mem| == |malloced| && forall k :: |t.info| < k < |mem| ==> mem[k] == malloced[k]
    requires t.children != [] && t.info != t.name ==> |t.info| + 1 < |mem| && malloced[|t.info| + 1] == '\0'
    ensures Ready(mem, t, 0)
  {
    assert t.children[..0] == [];
  }

  /** The end of collect: without children the own info gets its newline. */
  method Finish(buf: array<char>, info: string, ghost t: Tree) returns (reply: string)
    requires Listed(t) && info == t.info && buf.Length == MAX_CHECK_LEN && Ready(buf[..], t, |t.children|)
    modifies buf
    ensures reply == FriendListing.Collect(t)
  {
    ghost var s := BufferAfter(info, t.children);
    assert t.children[..|t.children|] == t.children;
    FinishText(t);
    var same := SameText(buf[..], info, s);
    if same {
      AppendReply(buf, "", s);
      s := s + "\n";
      assert s == BufferAfter(info, t.children) + "\n" + "";
    }
    EndOfText(buf[..], s, 0);
    var end := FindEnd(buf[..], 0);
    reply := buf[..end];
    assert reply == buf[..][..|s|] == s;
  }

  lemma FinishText(t: Tree)
    requires Listed(t)
    ensures var s := BufferAfter(t.info, t.children);
      && '\0' !in t.info && |s| < MAX_CHECK_LEN && (s == t.info ==> |s| + 1 < MAX_CHECK_LEN)
      && FriendListing.Collect(t) == if s == t.info then s + "\n" else s
  {
    BufferStarts(t);
    CollectIsListing(t);
    OwnLineFirst(t);
    BufferFits(t, |t.children|);
    assert t.children[..|t.children|] == t.children;
    if t.children != [] {
      ListingEnds(t.children);
    }
  }

  /** How the Adopt command ends, seen from the root process. */
  datatype Answer = Declined | DividedByZero | StuckOnFifo | Moved

  function WireOf(records: Option<seq<Record>>): Option<string> {
    if records.Some? then Some(Wire(records.value)) else None
  }

  lemma WireOne(r: Record)
    ensures Wire([r]) == Line(r) + ['\n']
  {
    assert Wire([r]) == Line(r) + ['\n'] + Wire([]);
  }

  /** The lines of one child that moves under p: its own and those of its subtree. */
  function RecordsOf(p: string, d: Tree, v: nat): seq<Record>
    requires v > 0
  {
    [RecordOf(p, d.name, d.value % v)] + RecordsAll(d.name, d.children, v)
  }

  lemma RecordsOfOne(p: string, d: Tree, v: nat)
    requires v > 0
    ensures RecordsAll(p, [d], v) == RecordsOf(p, d, v)
  {
    assert [d][1..] == [] && RecordsAll(p, [], v) == [];
  }

  /** They go behind those of the children before it. */
  lemma WireStep(p: string, forest: seq<Tree>, v: nat, i: nat)
    requires v > 0 && i < |forest|
    ensures Wire(RecordsAll(p, forest[..i + 1], v)) == Wire(RecordsAll(p, forest[..i], v)) + Wire(RecordsOf(p, forest[i], v))
  {
    var d := forest[i];
    assert forest[..i + 1] == forest[..i] + [d];
    RecordsAppend(p, forest[..i], [d], v);
    RecordsOfOne(p, d, v);
    WireAppend(RecordsAll(p, forest[..i], v), RecordsOf(p, d, v));
  }

  /** The children when the first i of them have moved. */
  function PartlyReduced(forest: seq<Tree>, v: nat, i: nat): (r: seq<Tree>)
    requires v > 0 && i <= |forest|
  {
    ReducedAll(forest[..i], v) + forest[i..]
  }

  lemma ReducedStep(forest: seq<Tree>, v: nat, i: nat)
    requires v > 0 && i < |forest|
    ensures var now := PartlyReduced(forest, v, i);
      |now| == |forest| && now[i] == forest[i] && now[i := Reduced(forest[i], v)] == PartlyReduced(forest, v, i + 1)
  {
    ReducedAllAt(forest[..i], v);
    ReducedAllAt(forest[..i + 1], v);
  }

  lemma NoneReduced(forest: seq<Tree>, v: nat)
    requires v > 0
    ensures PartlyReduced(forest, v, 0) == forest && forest[..0] == []
  {
  }

  lemma AllReduced(forest: seq<Tree>, v: nat)
    requires v > 0
    ensures PartlyReduced(forest, v, |forest|) == ReducedAll(forest, v) && forest[..|forest|] == forest
  {
    assert forest[..|forest|] == forest;
  }

  /** None of the first i children is c or has c below it. */
  ghost predicate AllStay(cs: seq<Tree>, c: string, i: nat)
    requires i <= |cs|
  {
    forall j :: 0 <= j < i ==> cs[j].name != c && !GraduateRoute(cs[j], c).0
  }

  ghost predicate AllSpared(cs: seq<Tree>, c: string, i: nat)
    requires i <= |cs|
  {
    forall j :: 0 <= j < i ==> cs[j].name != c && FindAll(cs[j].children, c).None?
  }

  lemma ExitStep(forest: seq<Tree>, i: nat)
    requires i < |forest|
    ensures ExitOrderAll(forest[..i + 1]) == ExitOrderAll(forest[..i]) + ExitOrder(forest[i])
  {
    assert forest[..i + 1] == forest[..i] + [forest[i]];
    ExitOrderAppend(forest[..i], [forest[i]]);
    assert ExitOrderAll([forest[i]]) == ExitOrder(forest[i]) + [];
  }

  lemma MeetKeepsNode(t: Tree, p: string, x: Tree)
    ensures var t' := MeetRoute(t, p, x).1; t'.name == t.name && t'.info == t.info && t'.value == t.value
  {
  }
}
