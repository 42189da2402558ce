/** String helpers used by the renderings of the game: Python's
    `sep.join(parts)` and `str(i)` for integers. */
module Text {

  /** `sep.join(parts)`. */
  function Join(sep: string, parts: seq<string>): string
  {
    if |parts| == 0 then ""
    else if |parts| == 1 then parts[0]
    else parts[0] + sep + Join(sep, parts[1..])
  }

  /** Where `parts[i]` starts inside `Join(sep, parts)`: the parts before it,
      each followed by one separator. */
  function PartOffset(sep: string, parts: seq<string>, i: nat): nat
    requires i <= |parts|
  {
    if i == 0 then 0 else |parts[0]| + |sep| + PartOffset(sep, parts[1..], i - 1)
  }

  /** `line` can be read in `text` starting at `off`. */
  predicate ShowsAt(text: string, off: nat, line: string)
  {
    off + |line| <= |text| && text[off..off + |line|] == line
  }

  /** Text added before and after keeps a line readable, shifted by what
      was added before. */
  lemma ShowsInside(before: string, text: string, after: string, off: nat, line: string)
    requires ShowsAt(text, off, line)
    ensures ShowsAt(before + text + after, |before| + off, line)
  {
    var whole := before + text + after;
    assert whole[|before| + off..|before| + off + |line|] == text[off..off + |line|];
  }

  /** A piece readable inside a line is readable inside any text that
      holds the line, at the two offsets added up. */
  lemma ShowsWithin(text: string, off: nat, line: string, inner: nat, piece: string)
    requires ShowsAt(text, off, line)
    requires ShowsAt(line, inner, piece)
    ensures ShowsAt(text, off + inner, piece)
  {
    forall k | 0 <= k < |piece|
      ensures text[off + inner + k] == piece[k]
    {
      assert piece[k] == line[inner + k];
      assert line[inner + k] == text[off..off + |line|][inner + k];
    }
  }

  /** Every part can be read back from the joined string at its offset. */
  lemma {:induction false} JoinHoldsPart(sep: string, parts: seq<string>, i: nat)
    requires i < |parts|
    ensures PartOffset(sep, parts, i) + |parts[i]| <= |Join(sep, parts)|
    ensures Join(sep, parts)[PartOffset(sep, parts, i)..PartOffset(sep, parts, i) + |parts[i]|] == parts[i]
  {
    if i > 0 {
      JoinHoldsPart(sep, parts[1..], i - 1);
      assert parts[1..][i - 1] == parts[i];
      var rest := Join(sep, parts[1..]);
      var k := |parts[0]| + |sep|;
      assert Join(sep, parts) == parts[0] + sep + rest;
      assert Join(sep, parts)[k..] == rest;
    }
  }

  /** Two neighbouring parts are separated by exactly one separator. */
  lemma {:induction false} JoinSeparates(sep: string, parts: seq<string>, i: nat)
    requires i + 1 < |parts|
    ensures PartOffset(sep, parts, i) + |parts[i]| + |sep| == PartOffset(sep, parts, i + 1)
    ensures PartOffset(sep, parts, i + 1) <= |Join(sep, parts)|
    ensures Join(sep, parts)[PartOffset(sep, parts, i) + |parts[i]|..PartOffset(sep, parts, i + 1)] == sep
  {
    var rest := Join(sep, parts[1..]);
    var k := |parts[0]| + |sep|;
    assert Join(sep, parts) == parts[0] + sep + rest;
    if i > 0 {
      JoinSeparates(sep, parts[1..], i - 1);
      assert parts[1..][i - 1] == parts[i];
      assert Join(sep, parts)[k..] == rest;
    }
  }

  /** The decimal digit for `d`. */
  function DigitChar(d: nat): (c: char)
    requires d < 10
    ensures '0' <= c <= '9'
  {
    "0123456789"[d]
  }

  /** `str(n)` for a natural number: its decimal digits, no leading zero. */
  function NatToDecimal(n: nat): (s: string)
    ensures |s| >= 1
    ensures forall i :: 0 <= i < |s| ==> '0' <= s[i] <= '9'
    ensures |s| > 1 ==> s[0] != '0'
  {
    if n < 10 then [DigitChar(n)] else NatToDecimal(n / 10) + [DigitChar(n % 10)]
  }

  /** `str(i)` for any integer: a minus sign in front of a negative number. */
  function IntToDecimal(i: int): (s: string)
    ensures |s| >= 1
    ensures forall k :: 0 <= k < |s| ==> s[k] == '-' || '0' <= s[k] <= '9'
  {
    if i < 0 then "-" + NatToDecimal(-i) else NatToDecimal(i)
  }

  lemma DigitCharInjective(x: nat, y: nat)
    requires x < 10 && y < 10 && DigitChar(x) == DigitChar(y)
    ensures x == y
  {
  }

  /** A number from 10 on is rendered as the rendering of its tens followed
      by its last digit. */
  lemma SplitLastDigit(n: nat)
    requires n >= 10
    ensures var s := NatToDecimal(n);
            |s| >= 2 && s[..|s| - 1] == NatToDecimal(n / 10) && s[|s| - 1] == DigitChar(n % 10)
  {
  }

  /** The digits of a number determine it. */
  lemma {:induction false} NatToDecimalInjective(a: nat, b: nat)
    requires NatToDecimal(a) == NatToDecimal(b)
    ensures a == b
  {
    if a >= 10 && b >= 10 {
      SplitLastDigit(a);
      SplitLastDigit(b);
      NatToDecimalInjective(a / 10, b / 10);
      DigitCharInjective(a % 10, b % 10);
    } else if a < 10 && b < 10 {
      DigitCharInjective(a, b);
    } else if a >= 10 {
      SplitLastDigit(a);
    } else {
      SplitLastDigit(b);
    }
  }

  /** A rendering starts with a minus sign exactly for negative numbers. */
  lemma SignShows(i: int)
    ensures (IntToDecimal(i)[0] == '-') <==> i < 0
  {
    if i < 0 {
      assert ("-" + NatToDecimal(-i))[0] == '-';
    } else {
      var t := NatToDecimal(i);
      assert '0' <= t[0] <= '9';
    }
  }

  /** Different integers are rendered differently. */
  lemma IntToDecimalInjective(a: int, b: int)
    requires IntToDecimal(a) == IntToDecimal(b)
    ensures a == b
  {
    SignShows(a);
    SignShows(b);
    if a < 0 {
      assert b < 0;
      DropSign(NatToDecimal(-a));
      DropSign(NatToDecimal(-b));
      NatToDecimalInjective(-a, -b);
    } else {
      assert b >= 0;
      NatToDecimalInjective(a, b);
    }
  }

  lemma DropSign(s: string)
    ensures ("-" + s)[1..] == s
  {
  }
}
