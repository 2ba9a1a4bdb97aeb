/** The byte-string operations both core files lean on: whitespace
    stripping, splitting on a separator character, the digit test and the
    decimal value of a digit string, with the behaviour of the Python 2
    `str` methods `rstrip()`, `strip()`, `split(c)`, `isdigit()` and
    `int(..)` on ASCII text. */
module Text {

  /** The characters `str.strip()` removes: space, tab, line feed,
      carriage return, vertical tab and form feed. */
  predicate IsSpace(c: char) {
    c == ' ' || c == '\t' || c == '\n' || c == '\r' || c == '\U{B}' || c == '\U{C}'
  }

  predicate AllSpace(s: string) {
    forall i :: 0 <= i < |s| ==> IsSpace(s[i])
  }

  predicate IsDigit(c: char) {
    '0' <= c <= '9'
  }

  /** `s.isdigit()`: false for the empty string. */
  predicate IsDigits(s: string) {
    |s| > 0 && forall i :: 0 <= i < |s| ==> IsDigit(s[i])
  }

  /** `s.rstrip()`: trailing whitespace removed. */
  function RStrip(s: string): string
    decreases |s|
  {
    if |s| > 0 && IsSpace(s[|s| - 1]) then RStrip(s[..|s| - 1]) else s
  }

  /** `rstrip()` keeps the longest prefix after which only whitespace follows. */
  lemma {:induction false} RStripSpec(s: string)
    ensures |RStrip(s)| <= |s| && RStrip(s) == s[..|RStrip(s)|]
    ensures AllSpace(s[|RStrip(s)|..])
    ensures RStrip(s) == [] || !IsSpace(RStrip(s)[|RStrip(s)| - 1])
    decreases |s|
  {
    if |s| > 0 && IsSpace(s[|s| - 1]) {
      var t := s[..|s| - 1];
      RStripSpec(t);
      var r := RStrip(t);
      assert t[..|r|] == s[..|r|];
      assert s[|r|..] == t[|r|..] + [s[|s| - 1]];
    }
  }

  /** `s.lstrip()`: leading whitespace removed. */
  function LStrip(s: string): string
    decreases |s|
  {
    if |s| > 0 && IsSpace(s[0]) then LStrip(s[1..]) else s
  }

  /** `lstrip()` keeps the longest suffix before which only whitespace stands. */
  lemma {:induction false} LStripSpec(s: string)
    ensures |LStrip(s)| <= |s| && LStrip(s) == s[|s| - |LStrip(s)|..]
    ensures AllSpace(s[..|s| - |LStrip(s)|])
    ensures LStrip(s) == [] || !IsSpace(LStrip(s)[0])
    decreases |s|
  {
    if |s| > 0 && IsSpace(s[0]) {
      var t := s[1..];
      LStripSpec(t);
      var r := LStrip(t);
      assert t[|t| - |r|..] == s[|s| - |r|..];
      assert s[..|s| - |r|] == [s[0]] + t[..|t| - |r|];
    }
  }

  /** `s.strip()`: whitespace removed at both ends. */
  function Strip(s: string): string {
    LStrip(RStrip(s))
  }

  /** A line passes a separator check `line.strip() != ''` exactly when it is
      made of whitespace only (the empty line included). */
  lemma BlankIffAllSpace(s: string)
    ensures Strip(s) == "" <==> AllSpace(s)
  {
    var r := RStrip(s);
    RStripSpec(s);
    LStripSpec(r);
    if Strip(s) == "" {
      assert AllSpace(r[..|r| - 0]);
      forall i | 0 <= i < |s| ensures IsSpace(s[i]) {
        if i < |r| {
          assert s[i] == r[..|r|][i];
        } else {
          assert s[i] == s[|r|..][i - |r|];
        }
      }
    }
  }

  /** A line passes a literal check `line.rstrip() != lit` (for a literal that
      does not end in whitespace) exactly when it is the literal followed by
      whitespace only. In particular leading whitespace makes it fail. */
  lemma RStripMatchesLiteral(s: string, lit: string)
    requires lit == [] || !IsSpace(lit[|lit| - 1])
    ensures RStrip(s) == lit <==> |lit| <= |s| && s[..|lit|] == lit && AllSpace(s[|lit|..])
  {
    var r := RStrip(s);
    RStripSpec(s);
    if |lit| <= |s| && s[..|lit|] == lit && AllSpace(s[|lit|..]) {
      assert |r| == |lit|;
      assert r == s[..|lit|];
    }
  }

  /** Whitespace on both sides of a text that starts and ends with a
      non-whitespace character is exactly what `strip()` removes. */
  lemma StripPadded(w1: string, t: string, w2: string)
    requires AllSpace(w1) && AllSpace(w2)
    requires |t| > 0 && !IsSpace(t[0]) && !IsSpace(t[|t| - 1])
    ensures Strip(w1 + t + w2) == t
  {
    var s := w1 + t + w2;
    assert s[..|w1 + t|] == w1 + t;
    assert s[|w1 + t|..] == w2;
    RStripMatchesLiteral(s, w1 + t);
    var u := w1 + t;
    LStripSpec(u);
    assert u[|w1|..] == t;
    assert AllSpace(u[..|w1|]);
  }

  /** Number of occurrences of `c` in `s`. */
  function Count(s: string, c: char): nat {
    if |s| == 0 then 0 else (if s[0] == c then 1 else 0) + Count(s[1..], c)
  }

  lemma {:induction false} CountZero(s: string, c: char)
    ensures Count(s, c) == 0 <==> c !in s
  {
    if |s| > 0 {
      CountZero(s[1..], c);
      assert s == [s[0]] + s[1..];
    }
  }

  /** The inverse of `Split`: the parts glued back with the separator. */
  function Join(parts: seq<string>, sep: char): string
    requires |parts| >= 1
  {
    if |parts| == 1 then parts[0] else parts[0] + [sep] + Join(parts[1..], sep)
  }

  /** `s.split(sep)`: the pieces between occurrences of `sep`. */
  function Split(s: string, sep: char): (parts: seq<string>)
    ensures |parts| >= 1
  {
    if |s| == 0 then [""]
    else
      var rest := Split(s[1..], sep);
      if s[0] == sep then [""] + rest
      else [[s[0]] + rest[0]] + rest[1..]
  }

  /** `Split` gives one more piece than there are separators, no piece holds
      the separator, and gluing the pieces back gives the input. */
  lemma {:induction false} SplitSpec(s: string, sep: char)
    ensures |Split(s, sep)| == 1 + Count(s, sep)
    ensures forall i :: 0 <= i < |Split(s, sep)| ==> sep !in Split(s, sep)[i]
    ensures Join(Split(s, sep), sep) == s
  {
    if |s| > 0 {
      SplitSpec(s[1..], sep);
      var rest := Split(s[1..], sep);
      assert s == [s[0]] + s[1..];
      if s[0] != sep {
        var parts := Split(s, sep);
        assert parts[1..] == rest[1..];
      }
    }
  }

  /** A string without the separator splits into itself. */
  lemma SplitWithoutSeparator(s: string, sep: char)
    requires sep !in s
    ensures Split(s, sep) == [s]
  {
    SplitSpec(s, sep);
    CountZero(s, sep);
  }

  /** A string splits into a single piece exactly when it has no separator. */
  lemma SplitOnePieceIff(s: string, sep: char)
    ensures |Split(s, sep)| == 1 <==> sep !in s
  {
    SplitSpec(s, sep);
    CountZero(s, sep);
  }

  /** Splitting at one occurrence of the separator splits each side on its own. */
  lemma {:induction false} SplitConcat(a: string, b: string, sep: char)
    ensures Split(a + [sep] + b, sep) == Split(a, sep) + Split(b, sep)
  {
    var s := a + [sep] + b;
    if |a| == 0 {
      assert s[1..] == b;
    } else {
      assert s[1..] == a[1..] + [sep] + b;
      SplitConcat(a[1..], b, sep);
    }
  }

  function DigitValue(c: char): nat
    requires IsDigit(c)
  {
    c as int - '0' as int
  }

  /** `int(s)` for a string of decimal digits (leading zeros allowed). */
  function DecimalValue(s: string): nat
    requires forall i :: 0 <= i < |s| ==> IsDigit(s[i])
  {
    if |s| == 0 then 0 else DecimalValue(s[..|s| - 1]) * 10 + DigitValue(s[|s| - 1])
  }

  /** `str(n)`: the decimal numeral of `n`, without leading zeros. */
  function DecimalString(n: nat): (r: string)
    ensures IsDigits(r)
  {
    var d := ['0' + (n % 10) as char];
    if n < 10 then d else DecimalString(n / 10) + d
  }

  lemma {:induction false} DecimalRoundTrip(n: nat)
    ensures DecimalValue(DecimalString(n)) == n
  {
    var s := DecimalString(n);
    if n >= 10 {
      DecimalRoundTrip(n / 10);
      assert s[..|s| - 1] == DecimalString(n / 10);
    }
  }
}
