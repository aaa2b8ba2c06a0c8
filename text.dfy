/**
 * The few Python string operations the FEN reader and writer and the move
 * notation rely on: `str.split()` on whitespace, `str.split(sep)`,
 * `sep.join`, `str.isdigit` on ASCII digits, `int(ch)` and `str(n)`.
 */
module Text {

  /** The characters Python's `str.isspace` accepts. */
  predicate IsSpace(ch: char)
  {
    var n := ch as int;
    (9 <= n <= 13) || (28 <= n <= 32) || n == 0x85 || n == 0xA0 || n == 0x1680
    || (0x2000 <= n <= 0x200A) || n == 0x2028 || n == 0x2029 || n == 0x202F
    || n == 0x205F || n == 0x3000
  }

  predicate NoSpace(s: string)
  {
    forall i :: 0 <= i < |s| ==> !IsSpace(s[i])
  }

  predicate IsDigit(ch: char)
  {
    '0' <= ch <= '9'
  }

  function DigitValue(ch: char): (n: nat)
    requires IsDigit(ch)
    ensures n <= 9
  {
    ch as int - '0' as int
  }

  function DigitChar(n: nat): (ch: char)
    requires n <= 9
    ensures IsDigit(ch) && DigitValue(ch) == n
  {
    ('0' as int + n) as char
  }

  /** `str(n)` for a natural number: its decimal digits, most significant first. */
  function NatToString(n: nat): (s: string)
    ensures |s| >= 1
    ensures forall i :: 0 <= i < |s| ==> IsDigit(s[i])
    ensures n < 10 ==> s == [DigitChar(n)]
  {
    if n < 10 then [DigitChar(n)] else NatToString(n / 10) + [DigitChar(n % 10)]
  }

  /** The value of a string of decimal digits, as `int(s)` reads it. */
  function DigitsValue(s: string): nat
    requires forall i :: 0 <= i < |s| ==> IsDigit(s[i])
  {
    if s == [] then 0 else DigitsValue(s[..|s| - 1]) * 10 + DigitValue(s[|s| - 1])
  }

  /** Reading back the digits of `str(n)` gives n. */
  lemma {:induction false} NatToStringRoundTrip(n: nat)
    ensures DigitsValue(NatToString(n)) == n
  {
    if n >= 10 {
      NatToStringRoundTrip(n / 10);
      var s := NatToString(n);
      assert s[..|s| - 1] == NatToString(n / 10);
    }
  }

  /** The longest prefix of s free of whitespace. */
  function Word(s: string): (w: string)
    ensures |w| <= |s| && w == s[..|w|] && NoSpace(w)
    ensures |s| > 0 && !IsSpace(s[0]) ==> |w| >= 1
  {
    if s == [] || IsSpace(s[0]) then [] else [s[0]] + Word(s[1..])
  }

  /** `s.split()`: the maximal runs of non-whitespace characters, in order. */
  function SplitWs(s: string): (parts: seq<string>)
    ensures forall i :: 0 <= i < |parts| ==> |parts[i]| >= 1 && NoSpace(parts[i])
    decreases |s|
  {
    if s == [] then []
    else if IsSpace(s[0]) then SplitWs(s[1..])
    else
      var w := Word(s);
      [w] + SplitWs(s[|w|..])
  }

  lemma {:induction false} WordOfJoined(a: string, b: string)
    requires NoSpace(a) && |b| > 0 && IsSpace(b[0])
    ensures Word(a + b) == a
  {
    if a != [] {
      assert (a + b)[1..] == a[1..] + b;
      WordOfJoined(a[1..], b);
    }
  }

  lemma WordOfWhole(a: string)
    requires NoSpace(a)
    ensures Word(a) == a
  {
    if a != [] {
      WordOfWhole(a[1..]);
    }
  }

  /** Splitting "a b" on whitespace gives back the two words. */
  lemma SplitTwoWords(a: string, b: string)
    requires |a| >= 1 && |b| >= 1 && NoSpace(a) && NoSpace(b)
    ensures SplitWs(a + " " + b) == [a, b]
  {
    var t := " " + b;
    var s := a + t;
    assert a + " " + b == s;
    WordOfJoined(a, t);
    assert s[|a|..] == t;
    assert SplitWs(s) == [a] + SplitWs(t);
    assert t[1..] == b;
    assert SplitWs(t) == SplitWs(b);
    WordOfWhole(b);
    assert b[|b|..] == [];
    assert SplitWs(b) == [b];
  }

  predicate Excludes(s: string, sep: char)
  {
    forall i :: 0 <= i < |s| ==> s[i] != sep
  }

  /** `s.split(sep)`: the pieces between separators, empty pieces kept; never an empty list. */
  function SplitOn(s: string, sep: char): (parts: seq<string>)
    ensures |parts| >= 1
    ensures forall i :: 0 <= i < |parts| ==> Excludes(parts[i], sep)
  {
    if s == [] then [""]
    else if s[0] == sep then [""] + SplitOn(s[1..], sep)
    else
      var rest := SplitOn(s[1..], sep);
      [[s[0]] + rest[0]] + rest[1..]
  }

  /** `sep.join(parts)`. */
  function Join(parts: seq<string>, sep: char): string
  {
    if parts == [] then ""
    else if |parts| == 1 then parts[0]
    else parts[0] + [sep] + Join(parts[1..], sep)
  }

  lemma {:induction false} SplitPrefix(a: string, t: string, sep: char)
    requires Excludes(a, sep)
    ensures SplitOn(a + t, sep) == [a + SplitOn(t, sep)[0]] + SplitOn(t, sep)[1..]
  {
    if a != [] {
      assert (a + t)[0] == a[0];
      assert (a + t)[1..] == a[1..] + t;
      SplitPrefix(a[1..], t, sep);
      assert [a[0]] + (a[1..] + SplitOn(t, sep)[0]) == a + SplitOn(t, sep)[0];
    } else {
      assert a + t == t;
      var p := SplitOn(t, sep);
      assert a + p[0] == p[0];
      assert p == [p[0]] + p[1..];
    }
  }

  /** Splitting a joined list on the joining separator gives the list back. */
  lemma {:induction false} SplitJoin(parts: seq<string>, sep: char)
    requires |parts| >= 1
    requires forall i :: 0 <= i < |parts| ==> Excludes(parts[i], sep)
    ensures SplitOn(Join(parts, sep), sep) == parts
  {
    if |parts| == 1 {
      SplitPrefix(parts[0], "", sep);
      assert parts[0] + "" == parts[0];
    } else {
      var t := [sep] + Join(parts[1..], sep);
      assert Join(parts, sep) == parts[0] + t;
      SplitPrefix(parts[0], t, sep);
      assert t[1..] == Join(parts[1..], sep);
      SplitJoin(parts[1..], sep);
      assert SplitOn(t, sep) == [""] + parts[1..];
      assert parts[0] + "" == parts[0];
      assert parts == [parts[0]] + parts[1..];
    }
  }

  lemma {:induction false} JoinFree(parts: seq<string>, sep: char, ch: char)
    requires ch != sep
    requires forall i :: 0 <= i < |parts| ==> Excludes(parts[i], ch)
    ensures Excludes(Join(parts, sep), ch)
  {
    if |parts| > 1 {
      JoinFree(parts[1..], sep, ch);
    }
  }

  lemma {:induction false} JoinNonEmpty(parts: seq<string>, sep: char)
    requires |parts| >= 2
    ensures |Join(parts, sep)| >= 1
  {
  }

  lemma {:induction false} JoinNoSpace(parts: seq<string>, sep: char)
    requires !IsSpace(sep)
    requires forall i :: 0 <= i < |parts| ==> NoSpace(parts[i])
    ensures NoSpace(Join(parts, sep))
  {
    if |parts| > 1 {
      JoinNoSpace(parts[1..], sep);
    }
  }
}
