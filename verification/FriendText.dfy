/** Info strings, a name, an underscore and the value printed with %02d, and how sscanf
    and atoi take them apart again. */
module FriendText {
  import opened Decimals

  /** printf's %02d for a value that is not negative. */
  function TwoDigits(n: nat): string {
    if n < 10 then "0" + Decimal(n) else Decimal(n)
  }

  /** snprintf(info, ..., "%s_%02d", name, value) */
  function InfoText(name: string, value: nat): string {
    name + "_" + TwoDigits(value)
  }

  lemma ParseTwoDigits(n: nat)
    ensures Parse(TwoDigits(n)) == n
    ensures n < 100 ==> |TwoDigits(n)| == 2
  {
    ParseDecimal(n);
    if n < 10 {
      var s := TwoDigits(n);
      assert s[..1] == "0" && s[1] == Digit(n);
      assert Parse("0") == 10 * Parse("") + 0 by { assert "0"[..0] == ""; }
    } else if n < 100 {
      assert Decimal(n / 10) == [Digit(n / 10)];
    }
  }

  lemma TwoDigitsChars(n: nat)
    ensures forall i :: 0 <= i < |TwoDigits(n)| ==> '0' <= TwoDigits(n)[i] <= '9'
  {
    forall i | 0 <= i < |TwoDigits(n)| ensures '0' <= TwoDigits(n)[i] <= '9' {
      if n >= 10 {
        DecimalChars(n, i);
      } else if i > 0 {
        DecimalChars(n, i - 1);
      }
    }
  }

  // ---- Taking a string apart at the first occurrence of a character

  function UpTo(s: string, c: char): (r: string)
    ensures |r| <= |s|
  {
    if s == "" || s[0] == c then "" else [s[0]] + UpTo(s[1..], c)
  }

  function After(s: string, c: char): (r: string)
    ensures s != "" ==> |r| < |s|
  {
    var k := |UpTo(s, c)|;
    if k < |s| then s[k + 1..] else ""
  }

  lemma {:induction false} SplitAt(a: string, c: char, b: string)
    requires c !in a
    ensures UpTo(a + [c] + b, c) == a && After(a + [c] + b, c) == b
  {
    var s := a + [c] + b;
    if a != "" {
      assert s[1..] == a[1..] + [c] + b;
      SplitAt(a[1..], c, b);
    }
    assert UpTo(s, c) == a;
    assert s[|a| + 1..] == b;
  }

  lemma {:induction false} NothingToSplit(a: string, c: char)
    requires c !in a
    ensures UpTo(a, c) == a && After(a, c) == ""
  {
    if a != "" {
      NothingToSplit(a[1..], c);
    }
  }

  lemma {:induction false} UpToIsPrefix(s: string, c: char)
    ensures s[..|UpTo(s, c)|] == UpTo(s, c)
    ensures |UpTo(s, c)| == |s| ==> c !in s
    ensures |UpTo(s, c)| < |s| ==> s[|UpTo(s, c)|] == c
  {
    if s != "" && s[0] != c {
      UpToIsPrefix(s[1..], c);
    }
  }

  /** The name sscanf reads from an info with %[^_], and the value it reads behind it. */
  function InfoName(info: string): string { UpTo(info, '_') }

  function InfoValue(info: string): nat { Parse(After(info, '_')) }

  /** Reading an info gives back the name and the value it was printed from. */
  lemma InfoRoundTrip(name: string, value: nat)
    requires '_' !in name
    ensures InfoName(InfoText(name, value)) == name && InfoValue(InfoText(name, value)) == value
  {
    SplitAt(name, '_', TwoDigits(value));
    ParseTwoDigits(value);
  }
}
