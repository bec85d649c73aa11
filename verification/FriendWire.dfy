/** The records of an adoption as the bytes of the FIFO, and the loop in main of
    hw2/friend.c that reads them back. */
module FriendWire {
  import opened Decimals
  import opened Options
  import opened FriendTree
  import opened FriendText
  import opened FriendRouting
  import opened FriendAdopt

  const MAX_FIFO_CMD := 1024

  function Fields(parent: string, info: string): string {
    parent + [' '] + (info + [' '] + "false")
  }

  /** "Meet %s %s false", without its newline */
  function Line(r: Record): string {
    "Meet " + Fields(r.parent, r.info)
  }

  function Wire(rs: seq<Record>): string {
    if rs == [] then "" else Line(rs[0]) + ['\n'] + Wire(rs[1..])
  }

  /** sscanf(token + 5, "%s %s", ...) and then the name and value of the info. */
  function ReadLine(token: string): Record {
    ReadFields(if |token| >= 5 then token[5..] else "")
  }

  function ReadFields(fields: string): Record {
    var info := UpTo(After(fields, ' '), ' ');
    Record(UpTo(fields, ' '), InfoName(info), info, InfoValue(info))
  }

  /** The strtok loop: tokens between newlines, empty ones skipped. */
  function ReadAll(text: string): seq<Record>
    decreases |text|
  {
    if text == "" then []
    else if UpTo(text, '\n') == "" then ReadAll(After(text, '\n'))
    else [ReadLine(UpTo(text, '\n'))] + ReadAll(After(text, '\n'))
  }

  /** A token of a command: not empty, no blank, no newline, at most 8 characters. */
  predicate Word(s: string) {
    s != "" && |s| <= 8 && ' ' !in s && '\n' !in s
  }

  /** The name of a friend other than the root. */
  predicate FriendName(s: string) {
    Word(s) && '_' !in s
  }

  predicate GoodRecord(r: Record) {
    Word(r.parent) && FriendName(r.name) && r.info == InfoText(r.name, r.value)
  }

  lemma InfoIsWord(name: string, value: nat)
    requires FriendName(name)
    ensures ' ' !in InfoText(name, value) && '\n' !in InfoText(name, value)
  {
    TwoDigitsChars(value);
  }

  lemma FieldsRoundTrip(parent: string, info: string)
    requires ' ' !in parent && ' ' !in info
    ensures UpTo(Fields(parent, info), ' ') == parent
    ensures UpTo(After(Fields(parent, info), ' '), ' ') == info
  {
    SplitAt(parent, ' ', info + [' '] + "false");
    SplitAt(info, ' ', "false");
  }

  lemma LineReadBack(r: Record)
    requires GoodRecord(r)
    ensures ReadLine(Line(r)) == r
  {
    var info := InfoText(r.name, r.value);
    InfoIsWord(r.name, r.value);
    InfoRoundTrip(r.name, r.value);
    FieldsRoundTrip(r.parent, info);
    DropPrefix("Meet ", Fields(r.parent, info));
  }

  lemma LineIsOneLine(r: Record)
    requires GoodRecord(r)
    ensures '\n' !in Line(r) && Line(r) != ""
  {
    var info := InfoText(r.name, r.value);
    InfoIsWord(r.name, r.value);
    NoNewline(info, [' ']);
    NoNewline(info + [' '], "false");
    NoNewline(r.parent, [' ']);
    NoNewline(r.parent + [' '], info + [' '] + "false");
    NoNewline("Meet ", Fields(r.parent, info));
  }

  lemma NoNewline(a: string, b: string)
    requires '\n' !in a && '\n' !in b
    ensures '\n' !in a + b
  {
  }

  lemma DropPrefix(a: string, b: string)
    ensures (a + b)[|a|..] == b
  {
  }

  lemma ReadAllLine(token: string, rest: string)
    requires '\n' !in token && token != ""
    ensures ReadAll(token + ['\n'] + rest) == [ReadLine(token)] + ReadAll(rest)
  {
    SplitAt(token, '\n', rest);
  }

  predicate GoodRecords(rs: seq<Record>) {
    rs == [] || (GoodRecord(rs[0]) && GoodRecords(rs[1..]))
  }

  lemma {:induction false} GoodRecordsAppend(a: seq<Record>, b: seq<Record>)
    requires GoodRecords(a) && GoodRecords(b)
    ensures GoodRecords(a + b)
  {
    if a == [] {
      assert a + b == b;
    } else {
      assert (a + b)[1..] == a[1..] + b;
      GoodRecordsAppend(a[1..], b);
    }
  }

  lemma FirstReadBack(rs: seq<Record>)
    requires rs != [] && GoodRecords(rs)
    ensures ReadAll(Wire(rs)) == [rs[0]] + ReadAll(Wire(rs[1..]))
  {
    LineReadBack(rs[0]);
    LineIsOneLine(rs[0]);
    ReadAllLine(Line(rs[0]), Wire(rs[1..]));
  }

  /** What was written to the FIFO is read back record by record. */
  lemma {:induction false} WireRoundTrip(rs: seq<Record>)
    requires GoodRecords(rs)
    ensures ReadAll(Wire(rs)) == rs
  {
    if rs != [] {
      FirstReadBack(rs);
      WireRoundTrip(rs[1..]);
    }
  }

  lemma {:induction false} WireAppend(a: seq<Record>, b: seq<Record>)
    ensures Wire(a + b) == Wire(a) + Wire(b)
  {
    if a == [] {
      assert a + b == b;
    } else {
      assert (a + b)[1..] == a[1..] + b;
      WireAppend(a[1..], b);
    }
  }

  // ---- The loops of strtok, sscanf and atoi

  /** The scan for a delimiter: the token before it and what lies behind it. */
  method SplitText(text: string, c: char) returns (token: string, rest: string)
    ensures token == UpTo(text, c) && rest == After(text, c)
  {
    var i := 0;
    while i < |text| && text[i] != c
      invariant i <= |text| && UpTo(text, c) == text[..i] + UpTo(text[i..], c)
    {
      assert text[i..][1..] == text[i + 1..];
      i := i + 1;
    }
    token := text[..i];
    rest := if i < |text| then text[i + 1..] else "";
  }

  method ParseDigits(digits: string) returns (n: nat)
    ensures n == Parse(digits)
  {
    n := 0;
    for i := 0 to |digits|
      invariant n == Parse(digits[..i])
    {
      assert digits[..i + 1][..i] == digits[..i];
      n := 10 * n + DigitValue(digits[i]);
    }
    assert digits[..|digits|] == digits;
  }

  /** sscanf of a token of the FIFO, and of the info in it. */
  method ReadRecord(token: string) returns (r: Record)
    ensures r == ReadLine(token)
  {
    var parent, fields := SplitText(if |token| >= 5 then token[5..] else "", ' ');
    var info, flag := SplitText(fields, ' ');
    var name, digits := SplitText(info, '_');
    var value := ParseDigits(digits);
    r := Record(parent, name, info, value);
  }

  /** A record takes at most 32 bytes of the FIFO. */
  lemma {:induction false} WireLength(rs: seq<Record>)
    requires GoodRecords(rs) && forall i :: 0 <= i < |rs| ==> rs[i].value < 100
    ensures |Wire(rs)| <= 32 * |rs|
  {
    if rs != [] {
      ParseTwoDigits(rs[0].value);
      WireLength(rs[1..]);
    }
  }

  // ---- Adopt through the FIFO

  predicate FriendNames(ts: seq<Tree>)
    decreases ts
  {
    ts == [] || (FriendName(ts[0].name) && FriendNames(ts[0].children) && FriendNames(ts[1..]))
  }

  lemma {:induction false} FoundFriendNames(ts: seq<Tree>, n: string)
    requires FriendNames(ts) && FindAll(ts, n).Some?
    ensures FriendNames([FindAll(ts, n).value])
    decreases ts
  {
    if ts[0].name == n {
      assert [ts[0]][1..] == [];
    } else if Find(ts[0], n).Some? {
      FoundFriendNames(ts[0].children, n);
    } else {
      FoundFriendNames(ts[1..], n);
    }
  }

  /** The records of an adoption are well formed, one per friend of the subtree, and carry
      values below the modulus. */
  lemma {:induction false} RecordsAreGood(p: string, cs: seq<Tree>, v: nat)
    requires v > 0 && Word(p) && FriendNames(cs)
    ensures |RecordsAll(p, cs, v)| == SizeAll(cs)
    ensures GoodRecords(RecordsAll(p, cs, v))
    ensures forall i :: 0 <= i < |RecordsAll(p, cs, v)| ==> RecordsAll(p, cs, v)[i].value < v
    decreases cs
  {
    if cs != [] {
      RecordsAreGood(cs[0].name, cs[0].children, v);
      RecordsAreGood(p, cs[1..], v);
      var first, below := RecordOf(p, cs[0].name, cs[0].value % v), RecordsAll(cs[0].name, cs[0].children, v);
      assert GoodRecord(first) && [first][1..] == [];
      GoodRecordsAppend([first], below);
      GoodRecordsAppend([first] + below, RecordsAll(p, cs[1..], v));
    }
  }

  /** What main replays: at most 1023 bytes are read from the FIFO in one go. */
  function ReplayFifo(t: Tree, text: string): Tree {
    Replay(t, ReadAll(if |text| < MAX_FIFO_CMD then text else text[..MAX_FIFO_CMD - 1]))
  }

  /** With at most 31 friends in the moved subtree, names of at most 8 characters and a
      modulus of at most 100, the whole batch fits the one read, so the replay of the bytes
      is the replay of the records. */
  lemma FifoReplay(u: Tree, t: Tree, p: string, c: string, v: nat)
    requires 0 < v <= 100 && Word(p) && FriendNames(t.children)
    requires FindAll(t.children, c).Some? && Size(FindAll(t.children, c).value) <= 31
    ensures AdoptRoute(t.children, p, c, v).Some?
    ensures |Wire(AdoptRoute(t.children, p, c, v).value)| <= 992
    ensures ReplayFifo(u, Wire(AdoptRoute(t.children, p, c, v).value))
         == Replay(u, AdoptRoute(t.children, p, c, v).value)
  {
    AdoptRouteFinds(t.children, p, c, v);
    var s := FindAll(t.children, c).value;
    var rs := RecordsAll(p, [s], v);
    FoundFriendNames(t.children, c);
    RecordsAreGood(p, [s], v);
    assert SizeAll([s]) == Size(s);
    WireLength(rs);
    WireRoundTrip(rs);
  }

  /** The Adopt branch of main with the FIFO between writing and replaying. */
  function AdoptOverFifo(t: Tree, p: string, c: string): AdoptOutcome {
    if c == t.name || ValueRoute(t, p, c).None? then Refused
    else
      var v := ValueRoute(t, p, c).value;
      if v == 0 then (if FindAll(t.children, c).Some? then Crashed else Blocked)
      else if AdoptRoute(t.children, p, c, v).None? then Blocked
      else Adopted(ReplayFifo(GraduateRoute(t, c).1, Wire(AdoptRoute(t.children, p, c, v).value)))
  }

  /** Within the limits of the assignment, names of at most 8 characters, values of at most
      100 and 31 friends below the root, the FIFO changes nothing. */
  lemma FifoIsTransparent(t: Tree, p: string, c: string)
    requires Word(p) && FriendNames(t.children) && Size(t) <= 32
    requires ValueRoute(t, p, c).Some? ==> ValueRoute(t, p, c).value <= 100
    ensures AdoptOverFifo(t, p, c) == AdoptCommand(t, p, c)
  {
    if ValueRoute(t, p, c).Some? && FindAll(t.children, c).Some? {
      var v := ValueRoute(t, p, c).value;
      FoundIsPartAll(t.children, c, c);
      if v > 0 {
        FifoReplay(GraduateRoute(t, c).1, t, p, c, v);
      }
    } else if ValueRoute(t, p, c).Some? && ValueRoute(t, p, c).value > 0 {
      AdoptRouteFinds(t.children, p, c, ValueRoute(t, p, c).value);
    }
  }
}
