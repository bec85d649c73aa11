/** combine of hw2/friend.c as it works: pointers that walk through two buffers up to a
    newline or a NUL while a third is written. A buffer that is only read is given by its bytes. */
module FriendBuffers {
  import opened FriendText
  import opened FriendListing

  const MAX_CHECK_LEN := 400

  type Bytes = seq<char>

  // ---- What combine reads

  /** strchr for a newline, or else the terminator; |mem| if there is neither. */
  function Break(mem: Bytes, i: nat): (e: nat)
    requires i <= |mem|
    ensures i <= e <= |mem|
    decreases |mem| - i
  {
    if i == |mem| || mem[i] == '\n' || mem[i] == '\0' then i else Break(mem, i + 1)
  }

  /** Where the string at i ends; |mem| if it does not. */
  function End(mem: Bytes, i: nat): (e: nat)
    requires i <= |mem|
    ensures i <= e <= |mem|
    decreases |mem| - i
  {
    if i == |mem| || mem[i] == '\0' then i else End(mem, i + 1)
  }

  function LineAt(mem: Bytes, i: nat): string
    requires i <= |mem|
  {
    mem[i..Break(mem, i)]
  }

  /** The two strings from i and j on: the loop goes on with their next lines. */
  predicate BothGoOn(m1: Bytes, i: nat, m2: Bytes, j: nat)
    requires i < |m1| && j < |m2|
  {
    m1[i] != '\0' && m2[j] != '\0'
  }

  /** The loop and the two copies behind it read nothing outside the buffers. */
  predicate InBounds(m1: Bytes, i: nat, m2: Bytes, j: nat)
    decreases |m1| - i
  {
    && i < |m1| && j < |m2|
    && if BothGoOn(m1, i, m2, j) then
         Break(m1, i) < |m1| && Break(m2, j) < |m2| && InBounds(m1, Break(m1, i) + 1, m2, Break(m2, j) + 1)
       else End(m1, i) < |m1| && End(m2, j) < |m2|
  }

  /** What they write. When the last line of a string has no newline, the pointer steps over
      the terminator and the loop goes on with whatever lies behind it. */
  function ZipBytes(m1: Bytes, i: nat, m2: Bytes, j: nat): string
    requires InBounds(m1, i, m2, j)
    decreases |m1| - i
  {
    if BothGoOn(m1, i, m2, j) then
      Joined(LineAt(m1, i), LineAt(m2, j), ZipBytes(m1, Break(m1, i) + 1, m2, Break(m2, j) + 1))
    else m1[i..End(m1, i)] + m2[j..End(m2, j)]
  }

  /** The same for all of combine, which first copies the own line of the first string. */
  predicate CombineInBounds(m1: Bytes, m2: Bytes) {
    && 0 < |m1|
    && if m1[0] != '\0' then Break(m1, 0) < |m1| && InBounds(m1, Break(m1, 0) + 1, m2, 0) else InBounds(m1, 0, m2, 0)
  }

  function CombineBytes(m1: Bytes, m2: Bytes): string
    requires CombineInBounds(m1, m2)
  {
    if m1[0] != '\0' then m1[..Break(m1, 0)] + "\n" + ZipBytes(m1, Break(m1, 0) + 1, m2, 0)
    else ZipBytes(m1, 0, m2, 0)
  }

  // ---- Buffers that hold strings

  /** The buffer holds the string s: its characters, then a NUL. */
  ghost predicate Holds(mem: Bytes, s: string) {
    |s| < |mem| && mem[..|s|] == s && mem[|s|] == '\0' && '\0' !in s
  }

  /** If the last line of s has no newline, the byte behind the terminator is NUL as well. */
  ghost predicate Quiet(mem: Bytes, s: string) {
    s != "" && s[|s| - 1] != '\n' ==> |s| + 1 < |mem| && mem[|s| + 1] == '\0'
  }

  /** What a pointer at index start still has in front of it. */
  function Rest(s: string, start: nat): string {
    if start <= |s| then s[start..] else ""
  }

  /** A pointer into a string: at a character, at the terminator, or one behind it. */
  ghost predicate Pointer(mem: Bytes, s: string, start: nat) {
    && Holds(mem, s)
    && (start <= |s| || (start == |s| + 1 < |mem| && mem[start] == '\0'))
  }

  lemma {:induction false} EndOfText(mem: Bytes, s: string, i: nat)
    requires Holds(mem, s) && i <= |s|
    ensures End(mem, i) == |s|
    decreases |s| - i
  {
    if i < |s| {
      assert mem[i] == mem[..|s|][i] == s[i];
      EndOfText(mem, s, i + 1);
    }
  }

  lemma {:induction false} BreakLength(mem: Bytes, s: string, i: nat)
    requires Holds(mem, s) && i <= |s|
    ensures Break(mem, i) == i + |UpTo(s[i..], '\n')|
    decreases |s| - i
  {
    if i < |s| {
      assert mem[i] == mem[..|s|][i] == s[i];
      assert s[i..][1..] == s[i + 1..] && s[i..][0] == s[i];
      if s[i] != '\n' {
        BreakLength(mem, s, i + 1);
      }
    }
  }

  lemma SliceOfText(mem: Bytes, s: string, i: nat, n: nat)
    requires Holds(mem, s) && i + n <= |s|
    ensures mem[i..i + n] == s[i..][..n]
  {
    forall k | 0 <= k < n ensures mem[i..i + n][k] == s[i..][..n][k] {
      assert mem[i + k] == mem[..|s|][i + k];
    }
  }

  /** The line of a string at i ends where the buffer has its next break. */
  lemma BreakInText(mem: Bytes, s: string, i: nat)
    requires Holds(mem, s) && i <= |s|
    ensures i <= Break(mem, i) <= |s| && mem[i..Break(mem, i)] == UpTo(s[i..], '\n')
    ensures After(s[i..], '\n') == if Break(mem, i) < |s| then s[Break(mem, i) + 1..] else ""
    ensures Break(mem, i) == |s| && i < |s| ==> s[|s| - 1] != '\n'
  {
    var rest, line := s[i..], UpTo(s[i..], '\n');
    BreakLength(mem, s, i);
    UpToIsPrefix(rest, '\n');
    SliceOfText(mem, s, i, |line|);
    if |line| < |rest| {
      assert rest[|line| + 1..] == s[i + |line| + 1..];
    } else if i < |s| {
      assert s[|s| - 1] == rest[|rest| - 1];
    }
  }

  /** The pointer behind a line; a is what the pointer at i has in front of it. */
  lemma NextLine(mem: Bytes, s: string, i: nat, a: string)
    requires Pointer(mem, s, i) && Quiet(mem, s) && a == Rest(s, i) != ""
    ensures i < Break(mem, i) + 1 <= |mem| && Pointer(mem, s, Break(mem, i) + 1)
    ensures LineAt(mem, i) == UpTo(a, '\n') && Rest(s, Break(mem, i) + 1) == After(a, '\n')
  {
    BreakInText(mem, s, i);
  }

  lemma LastText(mem: Bytes, s: string, i: nat, a: string)
    requires Pointer(mem, s, i) && a == Rest(s, i)
    ensures i < |mem| && End(mem, i) < |mem| && mem[i..End(mem, i)] == a
    ensures mem[i] == '\0' <==> a == ""
  {
    if i <= |s| {
      EndOfText(mem, s, i);
      assert mem[i..|s|] == mem[..|s|][i..];
      assert i < |s| ==> mem[i] == mem[..|s|][i] == s[i];
    }
  }

  lemma UnfoldZipBytes(m1: Bytes, i: nat, m2: Bytes, j: nat)
    requires i < |m1| && j < |m2| && BothGoOn(m1, i, m2, j) && Break(m1, i) < |m1| && Break(m2, j) < |m2|
    requires InBounds(m1, Break(m1, i) + 1, m2, Break(m2, j) + 1)
    ensures InBounds(m1, i, m2, j)
    ensures ZipBytes(m1, i, m2, j)
         == Joined(LineAt(m1, i), LineAt(m2, j), ZipBytes(m1, Break(m1, i) + 1, m2, Break(m2, j) + 1))
  {
  }

  lemma UnfoldZipText(a: string, b: string)
    requires a != "" && b != ""
    ensures ZipText(a, b) == Joined(UpTo(a, '\n'), UpTo(b, '\n'), ZipText(After(a, '\n'), After(b, '\n')))
  {
  }

  lemma JoinedAlike(z: string, t: string, x: string, y: string, more: string)
    requires z == Joined(x, y, more) && t == Joined(x, y, more)
    ensures z == t
  {
  }

  /** One unfolding of both functions, with equal parts. */
  lemma ZipStep(m1: Bytes, i: nat, m2: Bytes, j: nat, a: string, b: string)
    requires i < |m1| && j < |m2| && BothGoOn(m1, i, m2, j) && a != "" && b != ""
    requires Break(m1, i) < |m1| && Break(m2, j) < |m2| && InBounds(m1, Break(m1, i) + 1, m2, Break(m2, j) + 1)
    requires LineAt(m1, i) == UpTo(a, '\n') && LineAt(m2, j) == UpTo(b, '\n')
    requires ZipBytes(m1, Break(m1, i) + 1, m2, Break(m2, j) + 1) == ZipText(After(a, '\n'), After(b, '\n'))
    ensures InBounds(m1, i, m2, j) && ZipBytes(m1, i, m2, j) == ZipText(a, b)
  {
    UnfoldZipBytes(m1, i, m2, j);
    UnfoldZipText(a, b);
    JoinedAlike(ZipBytes(m1, i, m2, j), ZipText(a, b), LineAt(m1, i), LineAt(m2, j),
                ZipBytes(m1, Break(m1, i) + 1, m2, Break(m2, j) + 1));
  }

  /** Over strings that are quietly terminated the loop zips their lines. */
  lemma {:induction false} ZipBytesIsZipText(m1: Bytes, s1: string, i: nat, a: string, m2: Bytes, s2: string, j: nat, b: string)
    requires Pointer(m1, s1, i) && Quiet(m1, s1) && a == Rest(s1, i)
    requires Pointer(m2, s2, j) && Quiet(m2, s2) && b == Rest(s2, j)
    ensures InBounds(m1, i, m2, j) && ZipBytes(m1, i, m2, j) == ZipText(a, b)
    decreases |m1| - i, 2
  {
    LastText(m1, s1, i, a);
    LastText(m2, s2, j, b);
    if BothGoOn(m1, i, m2, j) {
      ZipNext(m1, s1, i, a, m2, s2, j, b);
    } else {
      ZipLast(m1, i, m2, j, a, b);
    }
  }

  lemma {:induction false} ZipNext(m1: Bytes, s1: string, i: nat, a: string, m2: Bytes, s2: string, j: nat, b: string)
    requires Pointer(m1, s1, i) && Quiet(m1, s1) && a == Rest(s1, i) != "" && i < |m1|
    requires Pointer(m2, s2, j) && Quiet(m2, s2) && b == Rest(s2, j) != "" && j < |m2| && BothGoOn(m1, i, m2, j)
    ensures InBounds(m1, i, m2, j) && ZipBytes(m1, i, m2, j) == ZipText(a, b)
    decreases |m1| - i, 1
  {
    NextLine(m1, s1, i, a);
    NextLine(m2, s2, j, b);
    ZipBehind(m1, s1, i, a, m2, s2, j, b);
  }

  lemma {:induction false} ZipBehind(m1: Bytes, s1: string, i: nat, a: string, m2: Bytes, s2: string, j: nat, b: string)
    requires i < |m1| && j < |m2| && BothGoOn(m1, i, m2, j) && a != "" && b != "" && Quiet(m1, s1) && Quiet(m2, s2)
    requires i < Break(m1, i) + 1 <= |m1| && Pointer(m1, s1, Break(m1, i) + 1)
    requires LineAt(m1, i) == UpTo(a, '\n') && Rest(s1, Break(m1, i) + 1) == After(a, '\n')
    requires j < Break(m2, j) + 1 <= |m2| && Pointer(m2, s2, Break(m2, j) + 1)
    requires LineAt(m2, j) == UpTo(b, '\n') && Rest(s2, Break(m2, j) + 1) == After(b, '\n')
    ensures InBounds(m1, i, m2, j) && ZipBytes(m1, i, m2, j) == ZipText(a, b)
    decreases |m1| - i, 0
  {
    ZipBytesIsZipText(m1, s1, Break(m1, i) + 1, After(a, '\n'), m2, s2, Break(m2, j) + 1, After(b, '\n'));
    ZipStep(m1, i, m2, j, a, b);
  }

  lemma ZipLast(m1: Bytes, i: nat, m2: Bytes, j: nat, a: string, b: string)
    requires i < |m1| && j < |m2| && !BothGoOn(m1, i, m2, j) && (a == "" || b == "")
    requires End(m1, i) < |m1| && End(m2, j) < |m2| && m1[i..End(m1, i)] == a && m2[j..End(m2, j)] == b
    ensures InBounds(m1, i, m2, j) && ZipBytes(m1, i, m2, j) == ZipText(a, b)
  {
  }

  /** So combine computes Combine of the two strings. */
  lemma CombineBytesIsCombine(m1: Bytes, s1: string, m2: Bytes, s2: string)
    requires Holds(m1, s1) && Quiet(m1, s1) && Holds(m2, s2) && Quiet(m2, s2)
    ensures CombineInBounds(m1, m2) && CombineBytes(m1, m2) == Combine(s1, s2)
  {
    assert Rest(s1, 0) == s1 && Rest(s2, 0) == s2;
    LastText(m1, s1, 0, s1);
    if m1[0] != '\0' {
      NextLine(m1, s1, 0, s1);
      ZipBytesIsZipText(m1, s1, Break(m1, 0) + 1, After(s1, '\n'), m2, s2, 0, s2);
      assert m1[0..Break(m1, 0)] == m1[..Break(m1, 0)];
    } else {
      ZipBytesIsZipText(m1, s1, 0, s1, m2, s2, 0, s2);
    }
  }

  /** For a first string that is one line without a newline, as the own info is when the first
      child answers, combine is right if and only if the byte behind the terminator is NUL. */
  lemma OwnLineNeedsQuiet(m1: Bytes, s1: string, m2: Bytes, s2: string)
    requires Holds(m1, s1) && s1 != "" && OneLine(s1) && |s1| + 1 < |m1|
    requires Holds(m2, s2) && Quiet(m2, s2) && CombineInBounds(m1, m2)
    ensures CombineBytes(m1, m2) == Combine(s1, s2) <==> m1[|s1| + 1] == '\0'
  {
    if m1[|s1| + 1] == '\0' {
      CombineBytesIsCombine(m1, s1, m2, s2);
    } else {
      OwnLineUnfolds(m1, s1, m2, s2);
      GarbageShows(m1, |s1| + 1, m2, s2);
      PrefixCancels(s1 + "\n", ZipBytes(m1, |s1| + 1, m2, 0), s2);
    }
  }

  lemma OwnLineUnfolds(m1: Bytes, s1: string, m2: Bytes, s2: string)
    requires Holds(m1, s1) && s1 != "" && OneLine(s1) && CombineInBounds(m1, m2)
    ensures InBounds(m1, |s1| + 1, m2, 0)
    ensures CombineBytes(m1, m2) == s1 + "\n" + ZipBytes(m1, |s1| + 1, m2, 0)
    ensures Combine(s1, s2) == s1 + "\n" + s2
  {
    OwnLineBreak(m1, s1);
    assert "" + s2 == s2;
  }

  lemma PrefixCancels(own: string, a: string, b: string)
    requires a != b
    ensures own + a != own + b
  {
    assert (own + a)[|own|..] == a && (own + b)[|own|..] == b;
  }

  lemma OwnLineBreak(m1: Bytes, s1: string)
    requires Holds(m1, s1) && s1 != "" && OneLine(s1)
    ensures m1[0] != '\0' && Break(m1, 0) == |s1| && m1[..|s1|] == s1
    ensures UpTo(s1, '\n') == s1 && After(s1, '\n') == ""
  {
    assert m1[0] == m1[..|s1|][0] == s1[0];
    assert s1[0..] == s1;
    BreakInText(m1, s1, 0);
    NothingToSplit(s1, '\n');
  }

  /** A byte that is not NUL in front of the first pointer ends up in the text. */
  lemma GarbageShows(m1: Bytes, i: nat, m2: Bytes, s2: string)
    requires Holds(m2, s2) && Quiet(m2, s2) && InBounds(m1, i, m2, 0) && m1[i] != '\0'
    ensures ZipBytes(m1, i, m2, 0) != s2
  {
    assert Rest(s2, 0) == s2;
    LastText(m2, s2, 0, s2);
    if s2 != "" {
      NextLine(m2, s2, 0, s2);
      var garbage, first := m1[i..Break(m1, i)], UpTo(s2, '\n');
      var line, others := garbage + " " + first, ZipBytes(m1, Break(m1, i) + 1, m2, Break(m2, 0) + 1);
      NoBreakInside(m1, i);
      NoNewlineUpTo(s2);
      SplitAt(line, '\n', others);
      assert ZipBytes(m1, i, m2, 0) == line + ['\n'] + others;
      assert |line| > |first|;
    }
  }

  lemma {:induction false} NoBreakInside(mem: Bytes, i: nat)
    requires i <= |mem|
    ensures '\n' !in mem[i..Break(mem, i)]
    decreases |mem| - i
  {
    if i < |mem| && mem[i] != '\n' && mem[i] != '\0' {
      NoBreakInside(mem, i + 1);
      assert mem[i..Break(mem, i)] == [mem[i]] + mem[i + 1..Break(mem, i)];
    }
  }

  lemma {:induction false} NoNewlineUpTo(s: string)
    ensures '\n' !in UpTo(s, '\n')
  {
    if s != "" && s[0] != '\n' {
      NoNewlineUpTo(s[1..]);
    }
  }

  // ---- The loops

  method FindBreak(mem: Bytes, start: nat) returns (end: nat)
    requires start < |mem| && Break(mem, start) < |mem|
    ensures end == Break(mem, start)
  {
    end := start;
    while mem[end] != '\n' && mem[end] != '\0'
      invariant start <= end < |mem| && Break(mem, end) == Break(mem, start)
      decreases |mem| - end
    {
      end := end + 1;
    }
  }

  /** strlen from a pointer on. */
  method FindEnd(mem: Bytes, start: nat) returns (end: nat)
    requires start < |mem| && End(mem, start) < |mem|
    ensures end == End(mem, start)
  {
    end := start;
    while mem[end] != '\0'
      invariant start <= end < |mem| && End(mem, end) == End(mem, start)
      decreases |mem| - end
    {
      end := end + 1;
    }
  }

  /** strncpy to the write position, which then moves on. */
  method CopyTo(result: array<char>, pos: nat, text: Bytes) returns (next: nat)
    requires pos + |text| <= result.Length
    modifies result
    ensures next == pos + |text| && result[..next] == old(result[..pos]) + text
    ensures forall k :: next <= k < result.Length ==> result[k] == old(result[k])
  {
    for i := 0 to |text|
      invariant result[..pos + i] == old(result[..pos]) + text[..i]
      invariant forall k :: pos + i <= k < result.Length ==> result[k] == old(result[k])
    {
      result[pos + i] := text[i];
    }
    next := pos + |text|;
    assert text[..|text|] == text;
  }

  /** One pass of combine's loop: the next line of each string, joined by a blank. */
  method WriteLine(text1: Bytes, text2: Bytes, result: array<char>, pos: nat, ghost line: string) returns (next: nat)
    requires line == text1 + " " + text2 + "\n" && pos + |line| <= result.Length
    modifies result
    ensures next == pos + |line| && result[..next] == old(result[..pos]) + line
    ensures forall k :: next <= k < result.Length ==> result[k] == old(result[k])
  {
    next := CopyTo(result, pos, text1);
    next := CopyTo(result, next, " ");
    next := CopyTo(result, next, text2);
    next := CopyTo(result, next, "\n");
  }

  /** With written already in the result, the loop and the copies complete the goal. */
  ghost predicate Completes(written: string, m1: Bytes, i: nat, m2: Bytes, j: nat, goal: string) {
    InBounds(m1, i, m2, j) && written + ZipBytes(m1, i, m2, j) == goal
  }

  lemma CompletesLine(written: string, m1: Bytes, i: nat, m2: Bytes, j: nat, goal: string, line: string)
    requires Completes(written, m1, i, m2, j, goal) && BothGoOn(m1, i, m2, j)
    requires line == m1[i..Break(m1, i)] + " " + m2[j..Break(m2, j)] + "\n"
    ensures |written| + |line| <= |goal|
    ensures Completes(written + line, m1, Break(m1, i) + 1, m2, Break(m2, j) + 1, goal)
  {
    var others := ZipBytes(m1, Break(m1, i) + 1, m2, Break(m2, j) + 1);
    assert written + (line + others) == (written + line) + others;
  }

  /** The rest of a buffer from n on is zero. */
  ghost predicate ZeroFrom(a: Bytes, n: nat) {
    forall k :: n <= k < |a| ==> a[k] == '\0'
  }

  /** One pass of the loop. */
  method PairLine(mem1: Bytes, i: nat, mem2: Bytes, j: nat, result: array<char>, first: nat, ghost goal: string)
      returns (i': nat, j': nat, pos: nat)
    requires first <= |goal| < result.Length && Completes(result[..first], mem1, i, mem2, j, goal)
    requires ZeroFrom(result[..], first) && BothGoOn(mem1, i, mem2, j)
    modifies result
    ensures pos <= |goal| && i < i' && Completes(result[..pos], mem1, i', mem2, j', goal) && ZeroFrom(result[..], pos)
  {
    var end1 := FindBreak(mem1, i);
    var end2 := FindBreak(mem2, j);
    ghost var line := mem1[i..end1] + " " + mem2[j..end2] + "\n";
    CompletesLine(result[..first], mem1, i, mem2, j, goal, line);
    pos := WriteLine(mem1[i..end1], mem2[j..end2], result, first, line);
    i', j' := end1 + 1, end2 + 1;
  }

  /** The loop that pairs lines while both strings last. */
  method PairLines(mem1: Bytes, first1: nat, mem2: Bytes, result: array<char>, first: nat, ghost goal: string)
      returns (i: nat, j: nat, pos: nat)
    requires first <= |goal| < result.Length && Completes(result[..first], mem1, first1, mem2, 0, goal)
    requires ZeroFrom(result[..], first)
    modifies result
    ensures pos <= |goal| && Completes(result[..pos], mem1, i, mem2, j, goal) && ZeroFrom(result[..], pos)
    ensures !BothGoOn(mem1, i, mem2, j)
  {
    i, j, pos := first1, 0, first;
    while mem1[i] != '\0' && mem2[j] != '\0'
      invariant pos <= |goal| && Completes(result[..pos], mem1, i, mem2, j, goal) && ZeroFrom(result[..], pos)
      decreases |mem1| - i
    {
      i, j, pos := PairLine(mem1, i, mem2, j, result, pos, goal);
    }
  }

  /** The copies of what is left of both strings. */
  method CopyRests(mem1: Bytes, i: nat, mem2: Bytes, j: nat, result: array<char>, first: nat, ghost goal: string)
      returns (pos: nat)
    requires first <= |goal| < result.Length && Completes(result[..first], mem1, i, mem2, j, goal)
    requires ZeroFrom(result[..], first) && !BothGoOn(mem1, i, mem2, j)
    modifies result
    ensures pos == |goal| && result[..pos] == goal && ZeroFrom(result[..], pos)
  {
    var end1 := FindEnd(mem1, i);
    var end2 := FindEnd(mem2, j);
    ghost var written := result[..first];
    assert written + (mem1[i..end1] + mem2[j..end2]) == (written + mem1[i..end1]) + mem2[j..end2];
    pos := CopyTo(result, first, mem1[i..end1]);
    pos := CopyTo(result, pos, mem2[j..end2]);
  }

  method Clear(result: array<char>)
    modifies result
    ensures ZeroFrom(result[..], 0)
  {
    forall k | 0 <= k < result.Length {
      result[k] := '\0';
    }
  }

  /** The line of the first buffer that is copied before the loop. */
  method CopyOwnLine(mem1: Bytes, mem2: Bytes, result: array<char>, ghost goal: string) returns (i: nat, pos: nat)
    requires CombineInBounds(mem1, mem2) && goal == CombineBytes(mem1, mem2) && |goal| < result.Length
    requires ZeroFrom(result[..], 0)
    modifies result
    ensures pos <= |goal| && Completes(result[..pos], mem1, i, mem2, 0, goal) && ZeroFrom(result[..], pos)
  {
    i, pos := 0, 0;
    if mem1[0] != '\0' {
      var end := FindBreak(mem1, 0);
      pos := CopyTo(result, 0, mem1[..end]);
      pos := CopyTo(result, pos, "\n");
      i := end + 1;
    }
  }

  /** combine, for any two buffers: afterwards the result holds the text, and zeros behind it. */
  method CombineBuffers(mem1: Bytes, mem2: Bytes, result: array<char>)
    requires CombineInBounds(mem1, mem2)
    requires result.Length == MAX_CHECK_LEN && |CombineBytes(mem1, mem2)| < MAX_CHECK_LEN
    modifies result
    ensures var text := CombineBytes(mem1, mem2); result[..|text|] == text && ZeroFrom(result[..], |text|)
  {
    ghost var goal := CombineBytes(mem1, mem2);
    Clear(result);
    var own, first := CopyOwnLine(mem1, mem2, result, goal);
    var i, j, pos := PairLines(mem1, own, mem2, result, first, goal);
    pos := CopyRests(mem1, i, mem2, j, result, pos, goal);
    result[pos] := '\0';
    assert result[..pos] == goal;
  }

  // ---- What collect does with a reply

  /** strcmp of the text in a buffer with a string. */
  method SameText(mem: Bytes, text: string, ghost s: string) returns (same: bool)
    requires Holds(mem, s) && '\0' !in text
    ensures same <==> s == text
  {
    var i := 0;
    while i < |text| && mem[i] == text[i]
      invariant i <= |text| && i <= |s| && s[..i] == text[..i]
    {
      ByteOfText(mem, s, i);
      assert text[i] in text;
      i := i + 1;
    }
    ByteOfText(mem, s, i);
    same := i == |text| && mem[i] == '\0';
    if i == |text| && i == |s| {
      assert s == s[..i] && text == text[..i];
    }
  }

  lemma ByteOfText(mem: Bytes, s: string, i: nat)
    requires Holds(mem, s) && i <= |s|
    ensures mem[i] == if i == |s| then '\0' else s[i]
    ensures i < |s| ==> mem[i] != '\0'
  {
    if i < |s| {
      assert mem[i] == mem[..|s|][i];
      assert s[i] in s;
    }
  }

  /** The bytes of a child's reply in a buffer that was cleared. */
  method Received(reply: string) returns (fromChild: array<char>)
    requires |reply| < MAX_CHECK_LEN && '\0' !in reply && reply != "" && reply[|reply| - 1] == '\n'
    ensures fresh(fromChild) && Holds(fromChild[..], reply) && Quiet(fromChild[..], reply)
  {
    fromChild := new char[MAX_CHECK_LEN](_ => '\0');
    var end := CopyTo(fromChild, 0, reply);
    assert fromChild[..][..|reply|] == fromChild[..|reply|] == reply;
  }

  /** snprintf of "\n%s" behind the text. */
  method AppendReply(buf: array<char>, reply: string, ghost s: string)
    requires Holds(buf[..], s) && '\0' !in reply && |s| + 1 + |reply| < buf.Length
    modifies buf
    ensures Holds(buf[..], s + "\n" + reply)
  {
    LastText(buf[..], s, 0, s);
    EndOfText(buf[..], s, 0);
    var end := FindEnd(buf[..], 0);
    assert buf[..end] == buf[..][..end] == s;
    var pos := CopyTo(buf, end, "\n");
    pos := CopyTo(buf, pos, reply);
    buf[pos] := '\0';
    assert buf[..][..pos] == buf[..pos] == s + "\n" + reply;
  }

  /** combine into a result buffer, which is copied back. */
  method CombineReply(buf: array<char>, fromChild: array<char>, ghost s: string, ghost reply: string)
    requires buf != fromChild && buf.Length == MAX_CHECK_LEN && |Combine(s, reply)| < MAX_CHECK_LEN
    requires Holds(buf[..], s) && Quiet(buf[..], s) && Holds(fromChild[..], reply) && Quiet(fromChild[..], reply)
    requires '\0' !in Combine(s, reply)
    modifies buf
    ensures Holds(buf[..], Combine(s, reply))
  {
    CombineBytesIsCombine(buf[..], s, fromChild[..], reply);
    var result := new char[MAX_CHECK_LEN];
    CombineBuffers(buf[..], fromChild[..], result);
    HoldsResult(result[..], Combine(s, reply));
    forall k | 0 <= k < MAX_CHECK_LEN {
      buf[k] := result[k];
    }
    assert buf[..] == result[..];
  }

  lemma HoldsResult(mem: Bytes, text: string)
    requires |text| < |mem| && mem[..|text|] == text && ZeroFrom(mem, |text|) && '\0' !in text
    ensures Holds(mem, text)
  {
  }

  /** A buffer from malloc, with strcat of the own info onto the empty string in it. */
  method OwnInfo(malloced: Bytes, info: string) returns (buf: array<char>)
    requires |info| < |malloced| == MAX_CHECK_LEN && '\0' !in info
    ensures fresh(buf) && buf.Length == MAX_CHECK_LEN && Holds(buf[..], info)
    ensures forall k :: |info| < k < MAX_CHECK_LEN ==> buf[k] == malloced[k]
  {
    buf := new char[MAX_CHECK_LEN](k requires 0 <= k < |malloced| => malloced[k]);
    var end := CopyTo(buf, 0, info);
    buf[end] := '\0';
    assert buf[..][..end] == buf[..end] == info;
  }

  /** The body of collect's loop. */
  method MergeReply(buf: array<char>, name: string, reply: string, ghost s: string)
    requires buf.Length == MAX_CHECK_LEN && Holds(buf[..], s) && (s != name ==> Quiet(buf[..], s)) && '\0' !in name
    requires |reply| < MAX_CHECK_LEN && '\0' !in reply && reply != "" && reply[|reply| - 1] == '\n'
    requires |AddReply(name, s, reply)| < MAX_CHECK_LEN && '\0' !in AddReply(name, s, reply)
    modifies buf
    ensures Holds(buf[..], AddReply(name, s, reply))
  {
    var fromChild := Received(reply);
    var same := SameText(buf[..], name, s);
    if same {
      AppendReply(buf, reply, s);
    } else {
      CombineReply(buf, fromChild, s, reply);
    }
  }
}
