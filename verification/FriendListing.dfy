/** The level-order listing of Check: what hw2/friend.c builds by combining the replies of
    the children, string by string, and what hw2/test.c builds with two queues. */
module FriendListing {
  import opened Options
  import opened FriendText
  import opened FriendTree

  // ---- The listing itself

  /** The infos at depth k below the roots ts, left to right. */
  function AtDepth(ts: seq<Tree>, k: nat): seq<string>
    decreases ts
  {
    if ts == [] then []
    else (if k == 0 then [ts[0].info] else AtDepth(ts[0].children, k - 1)) + AtDepth(ts[1..], k)
  }

  function Height(ts: seq<Tree>): nat
    decreases ts
  {
    if ts == [] then 0
    else
      var a, b := 1 + Height(ts[0].children), Height(ts[1..]);
      if a >= b then a else b
  }

  function Join(words: seq<string>): string {
    if words == [] then "" else if |words| == 1 then words[0] else words[0] + " " + Join(words[1..])
  }

  /** One line per depth. */
  function Levels(ts: seq<Tree>): (r: seq<string>)
    ensures |r| == Height(ts)
  {
    seq(Height(ts), k requires 0 <= k => Join(AtDepth(ts, k)))
  }

  /** Lines as text: each is ended by a newline. */
  function Text(lines: seq<string>): string {
    if lines == [] then "" else lines[0] + "\n" + Text(lines[1..])
  }

  function Listing(ts: seq<Tree>): string {
    Text(Levels(ts))
  }

  predicate OneLine(s: string) {
    '\n' !in s
  }

  /** No info is empty, and no info and no name contains a newline. */
  predicate OneLineAll(ts: seq<Tree>)
    decreases ts
  {
    ts == [] || (ts[0].info != "" && OneLine(ts[0].info) && OneLine(ts[0].name) && OneLineAll(ts[0].children) && OneLineAll(ts[1..]))
  }

  // ---- combine and collect

  /** A line made of two, in front of more text. */
  function Joined(x: string, y: string, more: string): string {
    x + " " + y + "\n" + more
  }

  /** The loop of combine and the two copies behind it. */
  function ZipText(a: string, b: string): string
    decreases |a|
  {
    if a != "" && b != "" then
      Joined(UpTo(a, '\n'), UpTo(b, '\n'), ZipText(After(a, '\n'), After(b, '\n')))
    else a + b
  }

  /** combine(buf1, buf2, result) */
  function Combine(a: string, b: string): string {
    if a != "" then UpTo(a, '\n') + "\n" + ZipText(After(a, '\n'), b) else ZipText(a, b)
  }

  /** What collect does with the next child's reply. */
  function AddReply(name: string, buf: string, reply: string): string {
    if buf == name then buf + "\n" + reply else Combine(buf, reply)
  }

  function Collect(t: Tree): string
    decreases t, 1
  {
    var buf := CollectAll(t.name, t.info, t.children);
    if buf == t.info then buf + "\n" else buf
  }

  function CollectAll(name: string, buf: string, cs: seq<Tree>): string
    decreases cs, 0
  {
    if cs == [] then buf else CollectAll(name, AddReply(name, buf, Collect(cs[0])), cs[1..])
  }

  // ---- Text of lines

  /** Pairs lines while both lists last. */
  function ZipLines(a: seq<string>, b: seq<string>): seq<string> {
    if a == [] then b else if b == [] then a else [a[0] + " " + b[0]] + ZipLines(a[1..], b[1..])
  }

  lemma {:induction false} ZipTextOfLines(a: seq<string>, b: seq<string>)
    requires forall k :: 0 <= k < |a| ==> OneLine(a[k])
    requires forall k :: 0 <= k < |b| ==> OneLine(b[k])
    ensures ZipText(Text(a), Text(b)) == Text(ZipLines(a, b))
  {
    if a == [] {
      assert "" + Text(b) == Text(b);
    } else if b == [] {
      assert Text(a) + "" == Text(a);
    } else {
      SplitAt(a[0], '\n', Text(a[1..]));
      SplitAt(b[0], '\n', Text(b[1..]));
      ZipTextOfLines(a[1..], b[1..]);
    }
  }

  // ---- Levels

  lemma {:induction false} DepthAppend(a: seq<Tree>, b: seq<Tree>, k: nat)
    ensures AtDepth(a + b, k) == AtDepth(a, k) + AtDepth(b, k)
    ensures Height(a + b) == if Height(a) >= Height(b) then Height(a) else Height(b)
  {
    if a == [] {
      assert a + b == b;
    } else {
      assert (a + b)[1..] == a[1..] + b;
      DepthAppend(a[1..], b, k);
    }
  }

  /** A depth has nodes exactly when it is less than the height. */
  lemma {:induction false} DepthNonempty(ts: seq<Tree>, k: nat)
    ensures AtDepth(ts, k) != [] <==> k < Height(ts)
    decreases ts
  {
    if ts != [] {
      if k > 0 {
        DepthNonempty(ts[0].children, k - 1);
      }
      DepthNonempty(ts[1..], k);
    }
  }

  lemma {:induction false} JoinAppend(a: seq<string>, b: seq<string>)
    requires a != [] && b != []
    ensures Join(a + b) == Join(a) + " " + Join(b)
  {
    if |a| > 1 {
      assert (a + b)[1..] == a[1..] + b;
      JoinAppend(a[1..], b);
    } else {
      assert (a + b)[1..] == b;
    }
  }

  lemma {:induction false} ZipLinesAt(a: seq<string>, b: seq<string>, k: nat)
    ensures |ZipLines(a, b)| == if |a| >= |b| then |a| else |b|
    ensures k < |ZipLines(a, b)| ==>
      ZipLines(a, b)[k] == if k < |a| && k < |b| then a[k] + " " + b[k] else if k < |a| then a[k] else b[k]
  {
    if a != [] && b != [] {
      ZipLinesAt(a[1..], b[1..], if k > 0 then k - 1 else 0);
    }
  }

  lemma LevelsAppend(a: seq<Tree>, b: seq<Tree>)
    ensures Levels(a + b) == ZipLines(Levels(a), Levels(b))
  {
    var zipped := ZipLines(Levels(a), Levels(b));
    DepthAppend(a, b, 0);
    ZipLinesAt(Levels(a), Levels(b), 0);
    forall k | 0 <= k < |zipped| ensures Levels(a + b)[k] == zipped[k] {
      DepthAppend(a, b, k);
      DepthNonempty(a, k);
      DepthNonempty(b, k);
      ZipLinesAt(Levels(a), Levels(b), k);
      if AtDepth(a, k) != [] && AtDepth(b, k) != [] {
        JoinAppend(AtDepth(a, k), AtDepth(b, k));
      } else {
        assert AtDepth(a, k) + AtDepth(b, k) == if AtDepth(a, k) == [] then AtDepth(b, k) else AtDepth(a, k);
      }
    }
  }

  /** Infos without newlines give lines without newlines. */
  lemma {:induction false} DepthOneLine(ts: seq<Tree>, k: nat, i: nat)
    requires OneLineAll(ts) && i < |AtDepth(ts, k)|
    ensures OneLine(AtDepth(ts, k)[i])
    decreases ts
  {
    if k == 0 {
      if i > 0 {
        DepthOneLine(ts[1..], k, i - 1);
      }
    } else {
      var here := |AtDepth(ts[0].children, k - 1)|;
      if i < here {
        DepthOneLine(ts[0].children, k - 1, i);
      } else {
        DepthOneLine(ts[1..], k, i - here);
      }
    }
  }

  lemma {:induction false} JoinOneLine(words: seq<string>)
    requires forall i :: 0 <= i < |words| ==> OneLine(words[i])
    ensures OneLine(Join(words))
  {
    if |words| > 1 {
      JoinOneLine(words[1..]);
    }
  }

  lemma LevelsOneLine(ts: seq<Tree>)
    requires OneLineAll(ts)
    ensures forall k :: 0 <= k < |Levels(ts)| ==> OneLine(Levels(ts)[k])
  {
    forall k | 0 <= k < |Levels(ts)| ensures OneLine(Levels(ts)[k]) {
      forall i | 0 <= i < |AtDepth(ts, k)| ensures OneLine(AtDepth(ts, k)[i]) {
        DepthOneLine(ts, k, i);
      }
      JoinOneLine(AtDepth(ts, k));
    }
  }

  /** Zipping the listings of two groups of siblings lists both groups together. */
  lemma ListingAppend(a: seq<Tree>, b: seq<Tree>)
    requires OneLineAll(a) && OneLineAll(b)
    ensures ZipText(Listing(a), Listing(b)) == Listing(a + b)
  {
    LevelsOneLine(a);
    LevelsOneLine(b);
    ZipTextOfLines(Levels(a), Levels(b));
    LevelsAppend(a, b);
  }

  // ---- Breadth first

  /** All children of ts, left to right. */
  function Kids(ts: seq<Tree>): seq<Tree> {
    if ts == [] then [] else ts[0].children + Kids(ts[1..])
  }

  function Infos(ts: seq<Tree>): seq<string> {
    if ts == [] then [] else [ts[0].info] + Infos(ts[1..])
  }

  lemma {:induction false} KidsDepth(ts: seq<Tree>, k: nat)
    ensures AtDepth(ts, k + 1) == AtDepth(Kids(ts), k)
    ensures AtDepth(ts, 0) == Infos(ts)
    ensures ts != [] ==> Height(ts) == 1 + Height(Kids(ts))
    ensures SizeAll(ts) == |ts| + SizeAll(Kids(ts))
  {
    if ts != [] {
      KidsDepth(ts[1..], k);
      DepthAppend(ts[0].children, Kids(ts[1..]), k);
      SizeAppend(ts[0].children, Kids(ts[1..]));
    }
  }

  lemma LevelBelow(ts: seq<Tree>, k: nat)
    requires ts != [] && k < Height(Kids(ts))
    ensures k + 1 < Height(ts) && Join(AtDepth(ts, k + 1)) == Join(AtDepth(Kids(ts), k))
  {
    KidsDepth(ts, k);
  }

  lemma LevelsByLevel(ts: seq<Tree>)
    requires ts != []
    ensures Levels(ts) == [Join(Infos(ts))] + Levels(Kids(ts))
  {
    var all, below := Levels(ts), Levels(Kids(ts));
    KidsDepth(ts, 0);
    assert all[0] == Join(Infos(ts));
    forall k | 0 <= k < |below| ensures all[k + 1] == below[k] {
      LevelBelow(ts, k);
    }
    SplitFirst(all, below);
  }

  lemma SplitFirst(all: seq<string>, below: seq<string>)
    requires |all| == 1 + |below| && forall k :: 0 <= k < |below| ==> all[k + 1] == below[k]
    ensures all == [all[0]] + below
  {
  }

  /** The first line of a listing is the roots; the rest is the listing of their children. */
  lemma ListingByLevel(ts: seq<Tree>)
    requires ts != []
    ensures Listing(ts) == Join(Infos(ts)) + "\n" + Listing(Kids(ts))
  {
    LevelsByLevel(ts);
    assert Levels(ts)[1..] == Levels(Kids(ts));
  }

  /** The outer loop of TreeCheck: print the nodes of a layer, go on with their children. */
  function LayerByLayer(now: seq<Tree>): string
    decreases SizeAll(now)
  {
    if now == [] then ""
    else
      KidsDepth(now, 0);
      Join(Infos(now)) + "\n" + LayerByLayer(Kids(now))
  }

  lemma {:induction false} LayersAreListing(now: seq<Tree>)
    ensures LayerByLayer(now) == Listing(now)
    decreases SizeAll(now)
  {
    if now != [] {
      KidsDepth(now, 0);
      ListingByLevel(now);
      LayersAreListing(Kids(now));
    }
  }

  // ---- collect

  /** A later child's reply is zipped into the lines below the own one. */
  lemma AddLaterReply(name: string, info: string, done: seq<Tree>, c: Tree)
    requires OneLine(info) && OneLine(name) && OneLineAll(done) && OneLineAll([c])
    ensures AddReply(name, info + "\n" + Listing(done), Listing([c])) == info + "\n" + Listing(done + [c])
  {
    var buf := info + "\n" + Listing(done);
    assert buf[|info|] == '\n';
    SplitAt(info, '\n', Listing(done));
    ListingAppend(done, [c]);
  }

  /** The first child's reply goes below the own line, whichever branch is taken. */
  lemma AddFirstReply(name: string, info: string, reply: string)
    requires OneLine(info) && info != ""
    ensures AddReply(name, info, reply) == info + "\n" + reply
  {
    NothingToSplit(info, '\n');
    assert "" + reply == reply;
  }

  /** The buffer of collect when the children done have answered, at least one of them. */
  function OwnAndListing(info: string, done: seq<Tree>): string {
    info + "\n" + Listing(done)
  }

  lemma CollectAllStep(name: string, info: string, done: seq<Tree>, cs: seq<Tree>)
    requires OneLine(info) && OneLine(name) && OneLineAll(done) && OneLineAll(cs)
    requires cs != [] && Collect(cs[0]) == Listing([cs[0]])
    ensures CollectAll(name, OwnAndListing(info, done), cs)
         == CollectAll(name, OwnAndListing(info, done + [cs[0]]), cs[1..])
  {
    OneLineEach(cs, 0);
    AddLaterReply(name, info, done, cs[0]);
  }

  /** Each of the children answers with its own listing. */
  predicate AnswersListing(cs: seq<Tree>) {
    cs == [] || (Collect(cs[0]) == Listing([cs[0]]) && AnswersListing(cs[1..]))
  }

  lemma {:induction false} CollectAllIsListing(name: string, info: string, done: seq<Tree>, cs: seq<Tree>)
    requires OneLine(info) && OneLine(name) && OneLineAll(done) && OneLineAll(cs) && AnswersListing(cs)
    ensures CollectAll(name, OwnAndListing(info, done), cs) == OwnAndListing(info, done + cs)
    decreases |cs|
  {
    if cs == [] {
      assert done + cs == done;
    } else {
      var more := done + [cs[0]];
      assert more + cs[1..] == done + cs;
      assert OneLineAll(more) by {
        OneLineEach(cs, 0);
        OneLineAppend(done, [cs[0]]);
      }
      CollectAllStep(name, info, done, cs);
      CollectAllIsListing(name, info, more, cs[1..]);
    }
  }

  lemma {:induction false} OneLineAppend(a: seq<Tree>, b: seq<Tree>)
    requires OneLineAll(a) && OneLineAll(b)
    ensures OneLineAll(a + b)
  {
    if a == [] {
      assert a + b == b;
    } else {
      assert (a + b)[1..] == a[1..] + b;
      OneLineAppend(a[1..], b);
    }
  }

  lemma {:induction false} OneLineEach(ts: seq<Tree>, i: nat)
    requires OneLineAll(ts) && i < |ts|
    ensures OneLineAll([ts[i]])
  {
    if i > 0 {
      OneLineEach(ts[1..], i - 1);
    }
  }

  /** collect, which only ever combines two strings, returns the level-order listing of
      the subtree, and so the same text as the two queues of the reference. */
  lemma {:induction false} CollectIsListing(t: Tree)
    requires OneLineAll([t])
    ensures Collect(t) == Listing([t])
    ensures Collect(t) == LayerByLayer([t])
    decreases t, 1
  {
    LayersAreListing([t]);
    OwnLineFirst(t);
    var cs := t.children;
    ChildrenAnswerListing(cs);
    if cs != [] {
      OneLineEach(cs, 0);
      AddFirstReply(t.name, t.info, Listing([cs[0]]));
      CollectAllIsListing(t.name, t.info, [cs[0]], cs[1..]);
      assert [cs[0]] + cs[1..] == cs;
      assert OwnAndListing(t.info, cs)[|t.info|] == '\n';
    }
  }

  lemma {:induction false} ChildrenAnswerListing(cs: seq<Tree>)
    requires OneLineAll(cs)
    ensures AnswersListing(cs)
    decreases cs, 0
  {
    if cs != [] {
      OneLineEach(cs, 0);
      CollectIsListing(cs[0]);
      ChildrenAnswerListing(cs[1..]);
    }
  }

  lemma OwnLineFirst(t: Tree)
    ensures Listing([t]) == t.info + "\n" + Listing(t.children)
    ensures t.children == [] ==> Listing([t]) == t.info + "\n"
  {
    ListingByLevel([t]);
    assert [t][1..] == [];
    assert Infos([t]) == [t.info];
    assert Kids([t]) == t.children + [] == t.children;
  }

  // ---- Check

  /** checknode with task 1: the reply of the first friend called n that is reached. */
  function CheckRoute(t: Tree, n: string): Option<string>
    decreases t, 1
  {
    if t.name == n then Some(Collect(t)) else CheckRouteAll(t.children, n)
  }

  function CheckRouteAll(cs: seq<Tree>, n: string): Option<string>
    decreases cs, 0
  {
    if cs == [] then None
    else if cs[0].name == n then Some(Collect(cs[0]))
    else if CheckRoute(cs[0], n).Some? then CheckRoute(cs[0], n)
    else CheckRouteAll(cs[1..], n)
  }

  lemma {:induction false} CheckRouteFinds(t: Tree, n: string)
    ensures CheckRoute(t, n) == if Find(t, n).Some? then Some(Collect(Find(t, n).value)) else None
    decreases t, 1
  {
    CheckRouteAllFinds(t.children, n);
  }

  lemma {:induction false} CheckRouteAllFinds(cs: seq<Tree>, n: string)
    ensures CheckRouteAll(cs, n) == if FindAll(cs, n).Some? then Some(Collect(FindAll(cs, n).value)) else None
    decreases cs, 0
  {
    if cs != [] {
      CheckRouteFinds(cs[0], n);
      CheckRouteAllFinds(cs[1..], n);
    }
  }

  lemma {:induction false} FoundOneLine(ts: seq<Tree>, n: string)
    requires OneLineAll(ts) && FindAll(ts, n).Some?
    ensures OneLineAll([FindAll(ts, n).value])
    decreases ts
  {
    if ts[0].name == n {
      OneLineEach(ts, 0);
    } else if Find(ts[0], n).Some? {
      FoundOneLine(ts[0].children, n);
    } else {
      FoundOneLine(ts[1..], n);
    }
  }

  /** Check prints, for every tree and every name, what the reference prints for the node
      it finds, and fails exactly when the name is unknown. */
  lemma CheckMatchesReference(t: Tree, n: string)
    requires OneLineAll([t])
    ensures CheckRoute(t, n).None? <==> Count(t, n) == 0
    ensures Find(t, n).Some? ==> CheckRoute(t, n) == Some(LayerByLayer([Find(t, n).value]))
  {
    CheckRouteFinds(t, n);
    FindCounts(t, n);
    if Find(t, n).Some? {
      assert FindAll([t], n) == Find(t, n);
      FoundOneLine([t], n);
      CollectIsListing(Find(t, n).value);
    }
  }

  // ---- Lengths

  /** Every info with the space or newline behind it. */
  function InfoLength(ts: seq<Tree>): nat
    decreases ts
  {
    if ts == [] then 0 else |ts[0].info| + 1 + InfoLength(ts[0].children) + InfoLength(ts[1..])
  }

  function RootsLength(ts: seq<Tree>): nat {
    if ts == [] then 0 else |ts[0].info| + 1 + RootsLength(ts[1..])
  }

  lemma {:induction false} InfoLengthAppend(a: seq<Tree>, b: seq<Tree>)
    ensures InfoLength(a + b) == InfoLength(a) + InfoLength(b)
  {
    if a == [] {
      assert a + b == b;
    } else {
      assert (a + b)[1..] == a[1..] + b;
      InfoLengthAppend(a[1..], b);
    }
  }

  lemma {:induction false} InfoLengthByLevel(ts: seq<Tree>)
    ensures InfoLength(ts) == RootsLength(ts) + InfoLength(Kids(ts))
    ensures ts != [] ==> |Join(Infos(ts))| + 1 == RootsLength(ts)
  {
    if ts != [] {
      InfoLengthByLevel(ts[1..]);
      InfoLengthAppend(ts[0].children, Kids(ts[1..]));
      assert Infos(ts)[1..] == Infos(ts[1..]);
    }
  }

  lemma {:induction false} LayersLength(now: seq<Tree>)
    ensures |LayerByLayer(now)| == InfoLength(now)
    decreases SizeAll(now)
  {
    if now != [] {
      KidsDepth(now, 0);
      InfoLengthByLevel(now);
      LayersLength(Kids(now));
    }
  }

  predicate ShortInfos(ts: seq<Tree>, bound: nat)
    decreases ts
  {
    ts == [] || (|ts[0].info| <= bound && ShortInfos(ts[0].children, bound) && ShortInfos(ts[1..], bound))
  }

  lemma {:induction false} InfoLengthBound(ts: seq<Tree>, bound: nat)
    requires ShortInfos(ts, bound)
    ensures InfoLength(ts) <= SizeAll(ts) * (bound + 1)
    decreases ts
  {
    if ts != [] {
      InfoLengthBound(ts[0].children, bound);
      InfoLengthBound(ts[1..], bound);
      Distribute(1 + SizeAll(ts[0].children), SizeAll(ts[1..]), bound + 1);
      Distribute(1, SizeAll(ts[0].children), bound + 1);
    }
  }

  /** A reply of collect is as long as its infos with one separator each, so the listing
      of 32 friends with infos of at most 11 characters fits the 400 bytes of a buffer. */
  lemma CollectFits(t: Tree)
    requires OneLineAll([t])
    ensures |Collect(t)| == InfoLength([t])
    ensures Size(t) <= 32 && ShortInfos([t], 11) ==> |Collect(t)| <= 384
  {
    CollectIsListing(t);
    LayersLength([t]);
    if ShortInfos([t], 11) {
      InfoLengthBound([t], 11);
      assert SizeAll([t]) == Size(t);
    }
  }

  // ---- The buffer of collect, child by child

  /** The text in the buffer when the children done have answered. */
  function BufferAfter(info: string, done: seq<Tree>): string {
    if done == [] then info else OwnAndListing(info, done)
  }

  /** The reply of the next child takes the buffer one child further. */
  lemma BufferStep(t: Tree, i: nat)
    requires OneLineAll([t]) && i < |t.children|
    ensures AddReply(t.name, BufferAfter(t.info, t.children[..i]), Listing([t.children[i]]))
         == BufferAfter(t.info, t.children[..i + 1])
  {
    var done, c := t.children[..i], t.children[i];
    assert t.children[..i + 1] == done + [c];
    OneLineEach(t.children, i);
    if i == 0 {
      assert done + [c] == [c];
      AddFirstReply(t.name, t.info, Listing([c]));
    } else {
      OneLinePrefix(t.children, i);
      AddLaterReply(t.name, t.info, done, c);
    }
  }

  lemma {:induction false} OneLinePrefix(ts: seq<Tree>, i: nat)
    requires OneLineAll(ts) && i <= |ts|
    ensures OneLineAll(ts[..i])
  {
    if i > 0 {
      OneLinePrefix(ts[1..], i - 1);
      assert ts[..i][1..] == ts[1..][..i - 1];
    }
  }

  lemma ListingLength(ts: seq<Tree>)
    ensures |Listing(ts)| == InfoLength(ts)
  {
    LayersAreListing(ts);
    LayersLength(ts);
  }

  /** The buffer is never longer than the final answer, nor is any child's reply. */
  lemma BufferFits(t: Tree, i: nat)
    requires i <= |t.children|
    ensures |BufferAfter(t.info, t.children[..i])| <= InfoLength([t])
    ensures i < |t.children| ==> |Listing([t.children[i]])| == InfoLength([t.children[i]]) <= InfoLength([t])
  {
    var cs := t.children;
    assert [t][1..] == [];
    assert cs == cs[..i] + cs[i..];
    InfoLengthAppend(cs[..i], cs[i..]);
    ListingLength(cs[..i]);
    if i < |cs| {
      ListingLength([cs[i]]);
      assert cs[i..] == [cs[i]] + cs[i + 1..];
      InfoLengthAppend([cs[i]], cs[i + 1..]);
    }
  }

  /** A listing of somebody ends with a newline. */
  lemma {:induction false} ListingEnds(ts: seq<Tree>)
    requires ts != []
    ensures Listing(ts) != "" && Listing(ts)[|Listing(ts)| - 1] == '\n'
    decreases SizeAll(ts)
  {
    KidsDepth(ts, 0);
    ListingByLevel(ts);
    if Kids(ts) != [] {
      ListingEnds(Kids(ts));
    }
  }

  lemma BufferEnds(info: string, done: seq<Tree>)
    requires done != []
    ensures var b := BufferAfter(info, done); b != "" && b[|b| - 1] == '\n'
  {
    ListingEnds(done);
  }

  // ---- Texts without NUL

  predicate NulFree(ts: seq<Tree>)
    decreases ts
  {
    ts == [] || ('\0' !in ts[0].info && '\0' !in ts[0].name && NulFree(ts[0].children) && NulFree(ts[1..]))
  }

  lemma {:induction false} NulFreeAppend(a: seq<Tree>, b: seq<Tree>)
    ensures NulFree(a + b) <==> NulFree(a) && NulFree(b)
  {
    if a == [] {
      assert a + b == b;
    } else {
      assert (a + b)[1..] == a[1..] + b;
      NulFreeAppend(a[1..], b);
    }
  }

  lemma {:induction false} NulFreeLevel(ts: seq<Tree>)
    requires NulFree(ts)
    ensures NulFree(Kids(ts)) && '\0' !in Join(Infos(ts))
  {
    if ts != [] {
      NulFreeLevel(ts[1..]);
      NulFreeAppend(ts[0].children, Kids(ts[1..]));
      assert Infos(ts)[1..] == Infos(ts[1..]);
    }
  }

  lemma {:induction false} ListingNulFree(ts: seq<Tree>)
    requires NulFree(ts)
    ensures '\0' !in Listing(ts)
    decreases SizeAll(ts)
  {
    LayersAreListing(ts);
    if ts != [] {
      KidsDepth(ts, 0);
      NulFreeLevel(ts);
      ListingByLevel(ts);
      ListingNulFree(Kids(ts));
    }
  }

  lemma {:induction false} NulFreePart(ts: seq<Tree>, i: nat)
    requires NulFree(ts) && i <= |ts|
    ensures NulFree(ts[..i])
    ensures i < |ts| ==> NulFree([ts[i]])
  {
    assert ts == ts[..i] + ts[i..];
    NulFreeAppend(ts[..i], ts[i..]);
    if i < |ts| {
      assert ts[i..] == [ts[i]] + ts[i + 1..];
      NulFreeAppend([ts[i]], ts[i + 1..]);
    }
  }
}
