/**
 * String helpers shared by the Python pipeline and the JavaScript front end:
 * whitespace trimming (Python's and JavaScript's whitespace sets differ),
 * substring tests, single-character split and join, and the conversions
 * between integers and their decimal text.
 */
module Text {
  import opened Wrappers

  /** The characters Python's `str.isspace()` accepts, i.e. what `str.strip()` removes. */
  predicate IsPySpace(c: char) {
    ('\t' <= c <= '\r') || ('\U{1c}' <= c <= ' ') || c == '\U{85}' || c == '\U{a0}'
    || c == '\U{1680}' || ('\U{2000}' <= c <= '\U{200a}') || c == '\U{2028}' || c == '\U{2029}'
    || c == '\U{202f}' || c == '\U{205f}' || c == '\U{3000}'
  }

  /** The characters JavaScript's `String.prototype.trim()` removes (WhiteSpace and LineTerminator). */
  predicate IsJsSpace(c: char) {
    ('\t' <= c <= '\r') || c == ' ' || c == '\U{a0}' || c == '\U{1680}'
    || ('\U{2000}' <= c <= '\U{200a}') || c == '\U{2028}' || c == '\U{2029}'
    || c == '\U{202f}' || c == '\U{205f}' || c == '\U{3000}' || c == '\U{feff}'
  }

  /** Whose notion of whitespace a trim uses. */
  datatype Spaces = PythonSpaces | JavaScriptSpaces

  predicate IsSpace(ws: Spaces, c: char) {
    if ws == PythonSpaces then IsPySpace(c) else IsJsSpace(c)
  }

  predicate AllSpace(s: string, ws: Spaces) {
    forall i :: 0 <= i < |s| ==> IsSpace(ws, s[i])
  }

  /** `s` without its leading whitespace: empty only when all of `s` is, led by a character of `s` that is not a space. */
  function TrimLeft(s: string, ws: Spaces): (r: string)
    ensures |r| <= |s|
    ensures r == [] ==> AllSpace(s, ws)
    ensures r != [] ==> r[0] == s[|s| - |r|] && !IsSpace(ws, r[0]) && r[|r| - 1] == s[|s| - 1]
    decreases |s|
  {
    if |s| > 0 && IsSpace(ws, s[0]) then
      var r := TrimLeft(s[1..], ws);
      assert r == [] ==> AllSpace(s, ws) by {
        if r == [] {
          forall i | 1 <= i < |s| ensures IsSpace(ws, s[i]) {
            assert s[i] == s[1..][i - 1];
          }
        }
      }
      r
    else s
  }

  /** `s` without its trailing whitespace: empty only when all of `s` is, ended by a character of `s` that is not a space. */
  function TrimRight(s: string, ws: Spaces): (r: string)
    ensures |r| <= |s|
    ensures r == [] ==> AllSpace(s, ws)
    ensures r != [] ==> r[0] == s[0] && r[|r| - 1] == s[|r| - 1] && !IsSpace(ws, r[|r| - 1])
    decreases |s|
  {
    if |s| > 0 && IsSpace(ws, s[|s| - 1]) then
      var r := TrimRight(s[..|s| - 1], ws);
      assert r == [] ==> AllSpace(s, ws) by {
        if r == [] {
          forall i | 0 <= i < |s| - 1 ensures IsSpace(ws, s[i]) {
            assert s[i] == s[..|s| - 1][i];
          }
        }
      }
      r
    else s
  }

  /** Both ends trimmed; the result is empty exactly when the input is all whitespace. */
  function TrimBy(s: string, ws: Spaces): (r: string)
    ensures r == [] <==> AllSpace(s, ws)
    ensures r != [] ==> !IsSpace(ws, r[0]) && !IsSpace(ws, r[|r| - 1])
  {
    var l := TrimLeft(s, ws);
    TrimRight(l, ws)
  }

  lemma AllSpaceCons(c: char, t: string, ws: Spaces)
    requires IsSpace(ws, c) && AllSpace(t, ws)
    ensures AllSpace([c] + t, ws)
  {
    forall i | 1 <= i < |t| + 1 ensures IsSpace(ws, ([c] + t)[i]) {
      assert ([c] + t)[i] == t[i - 1];
    }
  }

  lemma AllSpaceSnoc(t: string, c: char, ws: Spaces)
    requires AllSpace(t, ws) && IsSpace(ws, c)
    ensures AllSpace(t + [c], ws)
  {
    forall i | 0 <= i < |t| ensures IsSpace(ws, (t + [c])[i]) {
      assert (t + [c])[i] == t[i];
    }
  }

  lemma SplitAfterFirst(s: string, n: nat)
    requires 1 <= n <= |s|
    ensures s[1..][n - 1..] == s[n..] && s[..n] == [s[0]] + s[1..][..n - 1]
  {
  }

  lemma SplitBeforeLast(s: string, m: nat)
    requires m <= |s| - 1
    ensures s[..|s| - 1][..m] == s[..m] && s[m..] == s[..|s| - 1][m..] + [s[|s| - 1]]
  {
  }

  lemma SplitSuffix(s: string, a: nat, b: nat)
    requires a <= b <= |s|
    ensures s[a..][..b - a] == s[a..b] && s[a..][b - a..] == s[b..]
  {
  }

  /** `TrimLeft` removes a leading run of whitespace and nothing else. */
  lemma {:induction false} TrimLeftInfix(s: string, ws: Spaces)
    ensures var n := |s| - |TrimLeft(s, ws)|;
      TrimLeft(s, ws) == s[n..] && AllSpace(s[..n], ws)
    decreases |s|
  {
    if |s| > 0 && IsSpace(ws, s[0]) {
      var t := s[1..];
      TrimLeftInfix(t, ws);
      var n := |s| - |TrimLeft(s, ws)|;
      SplitAfterFirst(s, n);
      AllSpaceCons(s[0], t[..n - 1], ws);
    } else {
      assert s[..0] == [];
    }
  }

  /** `TrimRight` removes a trailing run of whitespace and nothing else. */
  lemma {:induction false} TrimRightInfix(s: string, ws: Spaces)
    ensures var m := |TrimRight(s, ws)|;
      TrimRight(s, ws) == s[..m] && AllSpace(s[m..], ws)
    decreases |s|
  {
    if |s| > 0 && IsSpace(ws, s[|s| - 1]) {
      var front := s[..|s| - 1];
      TrimRightInfix(front, ws);
      var m := |TrimRight(s, ws)|;
      SplitBeforeLast(s, m);
      AllSpaceSnoc(front[m..], s[|s| - 1], ws);
    } else {
      assert s[|s|..] == [];
    }
  }

  /** Trimming the tail of a suffix `s[a..]` keeps `s[a..a + m]` and cuts only whitespace after it. */
  lemma TrimRightOfSuffix(s: string, a: nat, ws: Spaces)
    requires a <= |s|
    ensures var m := |TrimRight(s[a..], ws)|;
      a + m <= |s| && TrimRight(s[a..], ws) == s[a..a + m] && AllSpace(s[a + m..], ws)
  {
    var t := s[a..];
    TrimRightInfix(t, ws);
    SplitSuffix(s, a, a + |TrimRight(t, ws)|);
  }

  /**
   * Trimming keeps a contiguous piece of the input, `s[a..b]`, with only whitespace cut
   * on either side: `a` leading and `|s| - b` trailing characters.
   */
  lemma {:induction false} TrimInfix(s: string, ws: Spaces)
    ensures var a := |s| - |TrimLeft(s, ws)|;
            var b := a + |TrimBy(s, ws)|;
      a <= b <= |s| && TrimBy(s, ws) == s[a..b] && AllSpace(s[..a], ws) && AllSpace(s[b..], ws)
  {
    var a := |s| - |TrimLeft(s, ws)|;
    TrimLeftInfix(s, ws);
    assert TrimBy(s, ws) == TrimRight(s[a..], ws);
    TrimRightOfSuffix(s, a, ws);
  }

  lemma TrimNoSpaceEnds(s: string, ws: Spaces)
    requires |s| >= 1 && !IsSpace(ws, s[0]) && !IsSpace(ws, s[|s| - 1])
    ensures TrimBy(s, ws) == s
  {
    assert TrimLeft(s, ws) == s;
    assert TrimRight(s, ws) == s;
  }

  /** Python's `str.strip()`. */
  function Strip(s: string): string { TrimBy(s, PythonSpaces) }

  /** JavaScript's `String.prototype.trim()`. */
  function Trim(s: string): string { TrimBy(s, JavaScriptSpaces) }

  predicate StartsWith(s: string, prefix: string) {
    |prefix| <= |s| && s[..|prefix|] == prefix
  }

  predicate EndsWith(s: string, suffix: string) {
    |suffix| <= |s| && s[|s| - |suffix|..] == suffix
  }

  /** Python's `t in s` and JavaScript's `s.includes(t)`. */
  predicate Contains(s: string, t: string)
    decreases |s|
  {
    StartsWith(s, t) || (|s| > 0 && Contains(s[1..], t))
  }

  lemma {:induction false} ContainsChar(s: string, c: char)
    ensures Contains(s, [c]) <==> c in s
    decreases |s|
  {
    if |s| > 0 {
      ContainsChar(s[1..], c);
      assert c in s <==> s[0] == c || c in s[1..];
    }
  }

  /** Python's `s.replace(c, "")` for a one-character pattern. */
  function RemoveAll(s: string, c: char): (r: string)
    ensures c !in r
    ensures forall x :: x in r <==> x in s && x != c
  {
    if |s| == 0 then ""
    else if s[0] == c then RemoveAll(s[1..], c)
    else [s[0]] + RemoveAll(s[1..], c)
  }

  /** Python's `s.split(c)` and JavaScript's `s.split(c)` for a one-character separator. */
  function Split(s: string, c: char): (r: seq<string>)
    ensures |r| >= 1
    decreases |s|
  {
    if |s| == 0 then [""]
    else
      var rest := Split(s[1..], c);
      if s[0] == c then [""] + rest else [[s[0]] + rest[0]] + rest[1..]
  }

  /** Python's `c.join(parts)` and JavaScript's `parts.join(c)` for a one-character separator. */
  function Join(parts: seq<string>, c: char): string
  {
    if |parts| == 0 then ""
    else if |parts| == 1 then parts[0]
    else parts[0] + [c] + Join(parts[1..], c)
  }

  lemma {:induction false} SplitNoSeparator(a: string, c: char)
    requires c !in a
    ensures Split(a, c) == [a]
    decreases |a|
  {
    if |a| > 0 {
      SplitNoSeparator(a[1..], c);
      assert [a[0]] + a[1..] == a;
    }
  }

  /** Splitting at the first separator: the part before it comes out whole. */
  lemma {:induction false} SplitAtFirst(a: string, c: char, b: string)
    requires c !in a
    ensures Split(a + [c] + b, c) == [a] + Split(b, c)
    decreases |a|
  {
    if |a| == 0 {
      assert a + [c] + b == [c] + b;
      assert ([c] + b)[1..] == b;
    } else {
      SplitAtFirst(a[1..], c, b);
      assert (a + [c] + b)[1..] == a[1..] + [c] + b;
      assert [a[0]] + a[1..] == a;
    }
  }

  /** Joining parts that do not contain the separator and splitting again gives the parts back. */
  lemma {:induction false} SplitJoin(parts: seq<string>, c: char)
    requires |parts| >= 1
    requires forall i :: 0 <= i < |parts| ==> c !in parts[i]
    ensures Split(Join(parts, c), c) == parts
    decreases |parts|
  {
    if |parts| == 1 {
      SplitNoSeparator(parts[0], c);
    } else {
      SplitJoin(parts[1..], c);
      SplitAtFirst(parts[0], c, Join(parts[1..], c));
      assert [parts[0]] + parts[1..] == parts;
    }
  }

  // ---------------------------------------------------------------------
  // Integers and their decimal text
  // ---------------------------------------------------------------------

  function DigitChar(d: nat): (c: char)
    requires d < 10
    ensures '0' <= c <= '9'
  {
    (48 + d) as char
  }

  /** Python's `str(n)` for a natural number: no sign, no leading zero. */
  function NatToString(n: nat): (s: string)
    ensures |s| >= 1
    ensures forall i :: 0 <= i < |s| ==> '0' <= s[i] <= '9'
    ensures |s| > 1 ==> s[0] != '0'
    ensures n < 10 <==> |s| == 1
    ensures n < 100 <==> |s| <= 2
  {
    if n < 10 then [DigitChar(n)] else NatToString(n / 10) + [DigitChar(n % 10)]
  }

  lemma NatToStringTwoDigits(n: nat)
    requires 10 <= n < 100
    ensures NatToString(n) == [DigitChar(n / 10), DigitChar(n % 10)]
  {
  }

  lemma NatToStringFourDigits(n: nat)
    requires 1000 <= n < 10000
    ensures NatToString(n) == [DigitChar(n / 1000), DigitChar(n / 100 % 10), DigitChar(n / 10 % 10), DigitChar(n % 10)]
  {
    NatToStringTwoDigits(n / 100);
    assert NatToString(n / 10) == NatToString(n / 100) + [DigitChar(n / 10 % 10)];
  }

  /** Python's `str(i)` (and `f"{i}"`) for any integer. */
  function IntToString(i: int): string
  {
    if i < 0 then "-" + NatToString(-i) else NatToString(i)
  }

  /** Python's `f"{i:02d}"`: zero-padded to two characters; wider numbers and negatives are not padded further. */
  function Pad2(i: int): string
  {
    if 0 <= i < 10 then ['0', DigitChar(i)] else IntToString(i)
  }

  /** A padded natural number is all digits, and two of them below 100. */
  lemma Pad2Digits(i: nat)
    ensures forall k :: 0 <= k < |Pad2(i)| ==> '0' <= Pad2(i)[k] <= '9'
    ensures i < 100 ==> |Pad2(i)| == 2
  {
  }

  /** A decimal digit as Python's `int()` reads it: ASCII or full-width. */
  predicate IsDigit(c: char) {
    ('0' <= c <= '9') || ('\U{ff10}' <= c <= '\U{ff19}')
  }

  function DigitValue(c: char): (d: nat)
    requires IsDigit(c)
    ensures d < 10
  {
    if '0' <= c <= '9' then c as int - 48 else c as int - 0xff10
  }

  predicate AllDigits(s: string) {
    forall i :: 0 <= i < |s| ==> IsDigit(s[i])
  }

  /** The value of a run of digits, most significant first. */
  function DigitsValue(s: string): (v: nat)
    requires AllDigits(s)
    decreases |s|
  {
    if |s| == 0 then 0 else 10 * DigitsValue(s[..|s| - 1]) + DigitValue(s[|s| - 1])
  }

  /**
   * Python's `int(s)` on text: surrounding whitespace is ignored, then what is left is
   * read by `SignedDigits`; anything else raises ValueError, here `None`.
   */
  function PyInt(s: string): (r: Option<int>)
    ensures r.Some? ==> Strip(s) != ""
  {
    SignedDigits(Strip(s))
  }

  /** One optional sign, then at least one digit, and nothing else. */
  function SignedDigits(t: string): (r: Option<int>)
    ensures r.Some? ==> t != ""
  {
    if |t| >= 2 && (t[0] == '+' || t[0] == '-') && AllDigits(t[1..]) then
      var v: int := DigitsValue(t[1..]);
      Some(if t[0] == '-' then -v else v)
    else if |t| >= 1 && AllDigits(t) then Some(DigitsValue(t))
    else None
  }

  lemma {:induction false} DigitsValueOfNatToString(n: nat)
    ensures AllDigits(NatToString(n)) && DigitsValue(NatToString(n)) == n
  {
    var s := NatToString(n);
    if n >= 10 {
      DigitsValueOfNatToString(n / 10);
      assert s[..|s| - 1] == NatToString(n / 10);
    }
  }

  /** `int()` of a run of ASCII digits is the value of those digits. */
  lemma PyIntOfDigits(s: string)
    requires |s| >= 1 && forall i :: 0 <= i < |s| ==> '0' <= s[i] <= '9'
    ensures AllDigits(s) && PyInt(s) == Some(DigitsValue(s))
  {
    assert '0' <= s[0] <= '9' && '0' <= s[|s| - 1] <= '9';
    TrimNoSpaceEnds(s, PythonSpaces);
    assert AllDigits(s);
    UnsignedDigits(s);
  }

  /** Digits with no sign are read as their value. */
  lemma UnsignedDigits(t: string)
    requires |t| >= 1 && AllDigits(t) && t[0] != '+' && t[0] != '-'
    ensures SignedDigits(t) == Some(DigitsValue(t))
  {
  }

  /** What merge reads back with `int()` is what was written with `str()`. */
  lemma PyIntOfNatToString(n: nat)
    ensures PyInt(NatToString(n)) == Some(n)
  {
    PyIntOfDigits(NatToString(n));
    DigitsValueOfNatToString(n);
  }

  /** `int(f"{w:02d}")` gives `w` back for every non-negative `w`, leading zero or not. */
  lemma PyIntOfPad2(w: nat)
    ensures PyInt(Pad2(w)) == Some(w)
  {
    if w < 10 {
      PyIntOfPadded(w);
    } else {
      PyIntOfUnpadded(w);
    }
  }

  lemma PyIntOfPadded(w: nat)
    requires w < 10
    ensures PyInt(Pad2(w)) == Some(w)
  {
    PaddedDigit(Pad2(w));
  }

  lemma PyIntOfUnpadded(w: nat)
    requires 10 <= w
    ensures PyInt(Pad2(w)) == Some(w)
  {
    assert Pad2(w) == NatToString(w);
    PyIntOfNatToString(w);
  }

  /** `int()` of a zero and an ASCII digit is that digit. */
  lemma PaddedDigit(s: string)
    requires |s| == 2 && s[0] == '0' && '0' <= s[1] <= '9'
    ensures PyInt(s) == Some(s[1] as int - 48)
  {
    PyIntOfDigits(s);
    LeadingZeroValue(s);
  }

  /** Two ASCII digits led by a zero are worth the second one. */
  lemma LeadingZeroValue(s: string)
    requires |s| == 2 && s[0] == '0' && '0' <= s[1] <= '9'
    ensures AllDigits(s) && DigitsValue(s) == s[1] as int - 48
  {
    assert IsDigit(s[0]) && IsDigit(s[1]);
    assert AllDigits(s);
    assert s[..1] == ['0'] && ['0'][..0] == [];
    assert DigitsValue(['0']) == 0;
    assert DigitsValue(s) == 10 * DigitsValue(s[..1]) + DigitValue(s[1]);
  }
}
