/**
 * The Kotlin string operations the settings encodings are built from: decimal
 * printing of integers, `toInt()` / `toLong()` parsing, `split` on one
 * delimiter, `joinToString`, and `padStart`. Only ASCII digits are modelled.
 */
module Text {
  import opened Wrappers

  const IntMin: int := -0x8000_0000
  const IntMax: int := 0x7fff_ffff
  const LongMin: int := -0x8000_0000_0000_0000
  const LongMax: int := 0x7fff_ffff_ffff_ffff

  predicate IsDigit(c: char) {
    '0' <= c <= '9'
  }

  predicate AllDigits(s: string) {
    forall i :: 0 <= i < |s| ==> IsDigit(s[i])
  }

  function DigitValue(c: char): int
    requires IsDigit(c)
  {
    (c as int) - ('0' as int)
  }

  function DigitChar(d: int): (c: char)
    requires 0 <= d <= 9
    ensures IsDigit(c) && DigitValue(c) == d
  {
    (('0' as int) + d) as char
  }

  /** The number a string of decimal digits denotes (most significant digit first). */
  function DigitsValue(s: string): nat
    requires AllDigits(s)
    decreases |s|
  {
    if |s| == 0 then 0 else DigitsValue(s[..|s| - 1]) * 10 + DigitValue(s[|s| - 1])
  }

  /** `n.toString()` for n >= 0: decimal digits without leading zeros. */
  function NatToString(n: nat): (s: string)
    ensures 1 <= |s| && AllDigits(s)
    ensures |s| > 1 ==> s[0] != '0'
    ensures DigitsValue(s) == n
    ensures n < 10 <==> |s| == 1
    decreases n
  {
    if n < 10 then [DigitChar(n)]
    else
      var prefix := NatToString(n / 10);
      var s := prefix + [DigitChar(n % 10)];
      assert s[..|s| - 1] == prefix;
      s
  }

  /** `Long.toString()`: a minus sign before the digits of a negative number. */
  function IntToString(i: int): (s: string)
    ensures 1 <= |s|
    ensures forall k :: 0 <= k < |s| ==> IsDigit(s[k]) || (k == 0 && s[k] == '-')
    ensures s[0] == '-' <==> i < 0
  {
    if i < 0 then "-" + NatToString(-i) else NatToString(i)
  }

  /**
   * `String.toInt()` / `String.toLong()` for the range [lo, hi]: an optional `+`
   * or `-`, then at least one digit, and a value in range. Every other input
   * throws NumberFormatException in the source; here it is None.
   */
  function ParseInteger(s: string, lo: int, hi: int): (r: Option<int>)
    ensures r.Some? ==> lo <= r.value <= hi
    ensures r.Some? ==> 1 <= |s| && (IsDigit(s[0]) || s[0] == '-' || s[0] == '+')
  {
    if |s| == 0 then None
    else
      var digits := if s[0] == '-' || s[0] == '+' then s[1..] else s;
      if |digits| == 0 || !AllDigits(digits) then None
      else
        var v: int := if s[0] == '-' then 0 - (DigitsValue(digits) as int) else DigitsValue(digits);
        if lo <= v <= hi then Some(v) else None
  }

  /** Printing an in-range integer and parsing it back gives the integer. */
  lemma ParsePrinted(i: int, lo: int, hi: int)
    requires lo <= i <= hi
    ensures ParseInteger(IntToString(i), lo, hi) == Some(i)
  {
    var s := IntToString(i);
    if i < 0 {
      assert s[1..] == NatToString(-i);
    }
  }

  /** Text holding a character that is neither a digit nor a leading sign never parses. */
  lemma ParseRejectsNonDigit(s: string, k: int, lo: int, hi: int)
    requires 0 <= k < |s| && !IsDigit(s[k])
    requires k > 0 || (s[0] != '-' && s[0] != '+')
    ensures ParseInteger(s, lo, hi) == None
  {
    if s[0] == '-' || s[0] == '+' {
      assert s[1..][k - 1] == s[k];
    }
  }

  /** `padStart(length, pad)`: `pad` repeated in front until the string is `length` long. */
  function PadStart(s: string, length: nat, pad: char): (r: string)
    ensures |r| == if |s| >= length then |s| else length
    ensures r[|r| - |s|..] == s
    ensures forall k :: 0 <= k < |r| - |s| ==> r[k] == pad
  {
    if |s| >= length then s else seq(length - |s|, _ => pad) + s
  }

  /** `split(sep)` on a one-character delimiter: the pieces between delimiters, keeping empty ones. */
  function Split(s: string, sep: char): (r: seq<string>)
    ensures |r| >= 1
    ensures forall k :: 0 <= k < |r| ==> sep !in r[k]
    decreases |s|
  {
    if |s| == 0 then [""]
    else if s[0] == sep then [""] + Split(s[1..], sep)
    else
      var rest := Split(s[1..], sep);
      [[s[0]] + rest[0]] + rest[1..]
  }

  /** `joinToString(sep)`: the pieces with `sep` between consecutive ones. */
  function Join(xs: seq<string>, sep: char): (r: string)
    ensures |xs| >= 1 ==> |xs[0]| <= |r| && r[..|xs[0]|] == xs[0]
    ensures (forall k :: 0 <= k < |xs| ==> sep !in xs[k]) ==> (sep in r <==> |xs| >= 2)
    decreases |xs|
  {
    if |xs| == 0 then ""
    else if |xs| == 1 then xs[0]
    else xs[0] + [sep] + Join(xs[1..], sep)
  }

  /** Joining the pieces of a split restores the text: Split loses nothing. */
  lemma {:induction false} JoinSplit(s: string, sep: char)
    ensures Join(Split(s, sep), sep) == s
    decreases |s|
  {
    if |s| == 0 {
    } else if s[0] == sep {
      JoinSplit(s[1..], sep);
      var rest := Split(s[1..], sep);
      assert Split(s, sep) == [""] + rest;
      assert ([""] + rest)[1..] == rest;
    } else {
      JoinSplit(s[1..], sep);
      var rest := Split(s[1..], sep);
      var r := [[s[0]] + rest[0]] + rest[1..];
      if |rest| == 1 {
        assert Join(r, sep) == [s[0]] + rest[0];
      } else {
        assert r[1..] == rest[1..];
        assert Join(rest, sep) == rest[0] + [sep] + Join(rest[1..], sep);
      }
    }
  }

  /** A piece free of the delimiter, followed by the delimiter, splits off as one element. */
  lemma {:induction false} SplitPiece(t: string, sep: char, rest: string)
    requires sep !in t
    ensures Split(t + [sep] + rest, sep) == [t] + Split(rest, sep)
    decreases |t|
  {
    var s := t + [sep] + rest;
    if |t| == 0 {
      assert s[0] == sep && s[1..] == rest;
    } else {
      assert s[0] == t[0] && s[1..] == t[1..] + [sep] + rest;
      SplitPiece(t[1..], sep, rest);
      assert [t[0]] + t[1..] == t;
    }
  }

  /** A piece free of the delimiter is not split at all. */
  lemma {:induction false} SplitWhole(t: string, sep: char)
    requires sep !in t
    ensures Split(t, sep) == [t]
    decreases |t|
  {
    if |t| > 0 {
      SplitWhole(t[1..], sep);
      assert [t[0]] + t[1..] == t;
    }
  }

  /** Splitting joined pieces gives the pieces back, when none contains the delimiter and there is at least one. */
  lemma {:induction false} SplitJoin(xs: seq<string>, sep: char)
    requires |xs| >= 1
    requires forall k :: 0 <= k < |xs| ==> sep !in xs[k]
    ensures Split(Join(xs, sep), sep) == xs
    decreases |xs|
  {
    if |xs| == 1 {
      SplitWhole(xs[0], sep);
    } else {
      SplitJoin(xs[1..], sep);
      SplitPiece(xs[0], sep, Join(xs[1..], sep));
      assert [xs[0]] + xs[1..] == xs;
    }
  }

  /** The join of at least one non-empty piece is non-empty. */
  lemma JoinNonEmpty(xs: seq<string>, sep: char)
    requires |xs| >= 1 && |xs[0]| >= 1
    ensures |Join(xs, sep)| >= 1
  {
  }

  /** `map { it.toString() }` over a list of integers. */
  function PrintAll(xs: seq<int>): (r: seq<string>)
    ensures |r| == |xs|
    ensures forall k :: 0 <= k < |xs| ==> r[k] == IntToString(xs[k])
  {
    seq(|xs|, k requires 0 <= k < |xs| => IntToString(xs[k]))
  }

  /** `map { it.toInt() }` (or `toLong()`): every piece parsed, or None when any piece throws. */
  function ParseAll(tokens: seq<string>, lo: int, hi: int): (r: Option<seq<int>>)
    ensures r.Some? ==> |r.value| == |tokens|
    ensures r.Some? <==> forall k :: 0 <= k < |tokens| ==> ParseInteger(tokens[k], lo, hi).Some?
    ensures r.Some? ==> forall k :: 0 <= k < |tokens| ==> r.value[k] == ParseInteger(tokens[k], lo, hi).value
    decreases |tokens|
  {
    if |tokens| == 0 then Some([])
    else
      var head := ParseInteger(tokens[0], lo, hi);
      var tail := ParseAll(tokens[1..], lo, hi);
      if head.None? || tail.None? then
        assert head.None? ==> ParseInteger(tokens[0], lo, hi).None?;
        assert tail.None? ==> exists k :: 1 <= k < |tokens| && ParseInteger(tokens[k], lo, hi).None? by {
          if tail.None? {
            var k :| 0 <= k < |tokens[1..]| && ParseInteger(tokens[1..][k], lo, hi).None?;
            assert ParseInteger(tokens[k + 1], lo, hi).None?;
          }
        }
        None
      else Some([head.value] + tail.value)
  }

  /** Parsing printed in-range integers gives them back. */
  lemma ParseAllPrinted(xs: seq<int>, lo: int, hi: int)
    requires forall k :: 0 <= k < |xs| ==> lo <= xs[k] <= hi
    ensures ParseAll(PrintAll(xs), lo, hi) == Some(xs)
  {
    var tokens := PrintAll(xs);
    forall k | 0 <= k < |xs|
      ensures ParseInteger(tokens[k], lo, hi) == Some(xs[k])
    {
      ParsePrinted(xs[k], lo, hi);
    }
    var r := ParseAll(tokens, lo, hi);
    assert r.Some?;
    assert r.value == xs;
  }
}
