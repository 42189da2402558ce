/** The human-readable game id: a 40-bit integer written as 5 big-endian
    bytes and encoded in base 32 (the alphabet of section 6 of RFC 4648),
    which gives exactly 8 characters; and the decoding of such text back to
    an integer, with the acceptance rules of Python's `base64.b32decode`. */
module GameIds {
  import opened Outcomes

  /** The base-32 alphabet; a character's position is its digit value. */
  const Alphabet: string := "ABCDEFGHIJKLMNOPQRSTUVWXYZ234567"

  /** Game ids are drawn from 0 .. 2^40 - 1. */
  const IdLimit: nat := 0x100_0000_0000

  datatype IdError =
    | Overflow       // `int.to_bytes` cannot write the number in 5 bytes
    | InvalidBase32  // `b32decode` rejects the text

  function Pow(b: nat, e: nat): nat
  {
    if e == 0 then 1 else b * Pow(b, e - 1)
  }

  lemma PowLimits()
    ensures Pow(256, 5) == IdLimit && Pow(32, 8) == IdLimit
  {
  }

  // ---- integers and big-endian bytes ----------------------------------

  /** `x.to_bytes(len, "big")`. */
  function ToBytes(x: nat, len: nat): (b: seq<nat>)
    requires x < Pow(256, len)
    ensures |b| == len
    ensures forall k :: 0 <= k < len ==> b[k] < 256
  {
    if len == 0 then []
    else ToBytes(x / 256, len - 1) + [x % 256]
  }

  /** `int.from_bytes(b, "big")`. */
  function FromBytes(b: seq<nat>): nat
  {
    if |b| == 0 then 0 else FromBytes(b[..|b| - 1]) * 256 + b[|b| - 1]
  }

  lemma {:induction false} FromToBytes(x: nat, len: nat)
    requires x < Pow(256, len)
    ensures FromBytes(ToBytes(x, len)) == x
  {
    if len > 0 {
      FromToBytes(x / 256, len - 1);
      var b := ToBytes(x, len);
      assert b[..len - 1] == ToBytes(x / 256, len - 1);
    }
  }

  // ---- integers and base-32 digits ------------------------------------

  /** The `count` base-32 digits of `x`, most significant first. */
  function DigitsOf(x: nat, count: nat): (d: seq<nat>)
    requires x < Pow(32, count)
    ensures |d| == count
    ensures forall k :: 0 <= k < count ==> d[k] < 32
  {
    if count == 0 then []
    else DigitsOf(x / 32, count - 1) + [x % 32]
  }

  /** The number written by base-32 digits, most significant first. */
  function DigitsValue(d: seq<nat>): nat
  {
    if |d| == 0 then 0 else DigitsValue(d[..|d| - 1]) * 32 + d[|d| - 1]
  }

  lemma {:induction false} DigitsValueBound(d: seq<nat>)
    requires forall k :: 0 <= k < |d| ==> d[k] < 32
    ensures DigitsValue(d) < Pow(32, |d|)
  {
    if |d| > 0 {
      DigitsValueBound(d[..|d| - 1]);
    }
  }

  lemma {:induction false} ValueOfDigits(x: nat, count: nat)
    requires x < Pow(32, count)
    ensures DigitsValue(DigitsOf(x, count)) == x
  {
    if count > 0 {
      ValueOfDigits(x / 32, count - 1);
      var d := DigitsOf(x, count);
      assert d[..count - 1] == DigitsOf(x / 32, count - 1);
    }
  }

  lemma {:induction false} DigitsOfValue(d: seq<nat>)
    requires forall k :: 0 <= k < |d| ==> d[k] < 32
    ensures DigitsValue(d) < Pow(32, |d|)
    ensures DigitsOf(DigitsValue(d), |d|) == d
  {
    DigitsValueBound(d);
    if |d| > 0 {
      var init := d[..|d| - 1];
      DigitsOfValue(init);
      var v := DigitsValue(d);
      assert v / 32 == DigitsValue(init) && v % 32 == d[|d| - 1];
      assert d == init + [d[|d| - 1]];
    }
  }

  // ---- characters and digits ------------------------------------------

  /** The digit a character stands for, if it is in the alphabet. */
  function DigitOf(c: char): (r: Option<nat>)
    ensures r.Some? ==> r.value < 32 && Alphabet[r.value] == c
  {
    if 'A' <= c <= 'Z' then Some((c as int) - ('A' as int))
    else if '2' <= c <= '7' then Some((c as int) - ('2' as int) + 26)
    else None
  }

  lemma DigitOfAlphabet(d: nat)
    requires d < 32
    ensures DigitOf(Alphabet[d]) == Some(d)
  {
  }

  predicate AllDigits(t: string)
  {
    forall k :: 0 <= k < |t| ==> DigitOf(t[k]).Some?
  }

  function DigitValues(t: string): (d: seq<nat>)
    requires AllDigits(t)
    ensures |d| == |t|
    ensures forall k :: 0 <= k < |t| ==> d[k] < 32 && Alphabet[d[k]] == t[k]
  {
    seq(|t|, k requires 0 <= k < |t| => DigitOf(t[k]).value)
  }

  /** The characters for base-32 digits. */
  function DigitChars(d: seq<nat>): (s: string)
    requires forall k :: 0 <= k < |d| ==> d[k] < 32
    ensures |s| == |d|
  {
    seq(|d|, k requires 0 <= k < |d| => Alphabet[d[k]])
  }

  // ---- the codec --------------------------------------------------------

  /** `b32encode` of one 5-byte group: the 40-bit number it holds, written
      as 8 base-32 digits. */
  function EncodeQuantum(q: seq<nat>): (s: string)
    requires |q| == 5 && forall k :: 0 <= k < 5 ==> q[k] < 256
    ensures |s| == 8
  {
    QuantumBound(q);
    DigitChars(DigitsOf(FromBytes(q), 8))
  }

  lemma QuantumBound(q: seq<nat>)
    requires |q| == 5 && forall k :: 0 <= k < 5 ==> q[k] < 256
    ensures FromBytes(q) < Pow(32, 8)
  {
    PowLimits();
    FromBytesBound(q);
  }

  lemma {:induction false} FromBytesBound(b: seq<nat>)
    requires forall k :: 0 <= k < |b| ==> b[k] < 256
    ensures FromBytes(b) < Pow(256, |b|)
  {
    if |b| > 0 {
      FromBytesBound(b[..|b| - 1]);
    }
  }

  /** `Game.encode_game_id`: the base-32 text of the id's 5 big-endian
      bytes; an id outside 0 .. 2^40 - 1 makes `to_bytes` fail. */
  function EncodeGameId(id: int): (r: Result<string, IdError>)
    ensures r.Ok? <==> 0 <= id < IdLimit
    ensures r.Ok? ==> |r.value| == 8 && forall k :: 0 <= k < 8 ==> r.value[k] in Alphabet
  {
    if id < 0 || id >= IdLimit then Err(Overflow)
    else
      PowLimits();
      Ok(EncodeQuantum(ToBytes(id, 5)))
  }

  /** `s.rstrip("=")`. */
  function StripPadding(s: string): (t: string)
    ensures |t| <= |s| && t == s[..|t|]
    ensures |t| > 0 ==> t[|t| - 1] != '='
  {
    if |s| > 0 && s[|s| - 1] == '=' then StripPadding(s[..|s| - 1]) else s
  }

  /** The bytes of the 8-character groups of `ds`, the last group being
      short by `pad` padding characters; it then yields only the bytes its
      digits fill. */
  function QuantaBytes(ds: seq<nat>, pad: nat): (b: seq<nat>)
    requires forall k :: 0 <= k < |ds| ==> ds[k] < 32
    requires pad < 8 && (|ds| + pad) % 8 == 0
    ensures forall k :: 0 <= k < |b| ==> b[k] < 256
    decreases |ds|
  {
    PowLimits();
    if |ds| == 0 then []
    else if |ds| + pad == 8 then
      PaddedGroupBound(ds, pad);
      var acc := DigitsValue(ds) * Pow(32, pad);
      var last := ToBytes(acc, 5);
      if pad == 0 then last else last[..(43 - 5 * pad) / 8]
    else
      DigitsValueBound(ds[..8]);
      ToBytes(DigitsValue(ds[..8]), 5) + QuantaBytes(ds[8..], pad)
  }

  /** A short last group, shifted past its padding, still fits in 5 bytes. */
  lemma PaddedGroupBound(ds: seq<nat>, pad: nat)
    requires forall k :: 0 <= k < |ds| ==> ds[k] < 32
    requires |ds| + pad == 8
    ensures DigitsValue(ds) * Pow(32, pad) < Pow(256, 5)
  {
    PowLimits();
    DigitsValueBound(ds);
    PowSplit(|ds|, pad);
    PowPositive(pad);
    MulLess(DigitsValue(ds), Pow(32, |ds|), Pow(32, pad));
  }

  lemma {:induction false} PowPositive(e: nat)
    ensures Pow(32, e) > 0
  {
    if e > 0 {
      PowPositive(e - 1);
    }
  }

  lemma MulLess(a: nat, b: nat, c: nat)
    requires a < b && c > 0
    ensures a * c < b * c
  {
  }

  lemma {:induction false} PowSplit(a: nat, b: nat)
    ensures Pow(32, a) * Pow(32, b) == Pow(32, a + b)
  {
    if a > 0 {
      PowSplit(a - 1, b);
    }
  }

  /** `base64.b32decode(s)`: every character before the trailing `=` must be
      a digit, the length a multiple of 8, and the number of `=` one of 0, 1,
      3, 4 and 6. */
  function B32Decode(s: string): (r: Result<seq<nat>, IdError>)
    ensures |s| % 8 != 0 ==> r == Err(InvalidBase32)
    ensures r.Ok? ==> forall k :: 0 <= k < |r.value| ==> r.value[k] < 256
  {
    var t := StripPadding(s);
    var pad := |s| - |t|;
    if !AllDigits(t) then Err(InvalidBase32)
    else if |s| % 8 != 0 || pad !in {0, 1, 3, 4, 6} then Err(InvalidBase32)
    else Ok(QuantaBytes(DigitValues(t), pad))
  }

  /** `Game.decode_game_id`: the decoded bytes read as a big-endian
      integer. */
  function DecodeGameId(s: string): Result<nat, IdError>
  {
    match B32Decode(s)
    case Ok(b) => Ok(FromBytes(b))
    case Err(e) => Err(e)
  }

  /** The characters of eight digits are read back as those digits, with
      nothing to strip. */
  lemma DigitTextReads(digits: seq<nat>)
    requires |digits| == 8 && forall k :: 0 <= k < 8 ==> digits[k] < 32
    ensures StripPadding(DigitChars(digits)) == DigitChars(digits)
    ensures AllDigits(DigitChars(digits))
    ensures DigitValues(DigitChars(digits)) == digits
  {
    var s := DigitChars(digits);
    assert s[7] == Alphabet[digits[7]];
    assert s[7] in Alphabet;
    forall k | 0 <= k < 8 ensures DigitOf(s[k]) == Some(digits[k]) {
      DigitOfAlphabet(digits[k]);
    }
  }

  /** A full group of eight digits is the five bytes of the number they
      write. */
  lemma FullQuantum(digits: seq<nat>)
    requires |digits| == 8 && forall k :: 0 <= k < 8 ==> digits[k] < 32
    ensures DigitsValue(digits) < Pow(256, 5)
    ensures QuantaBytes(digits, 0) == ToBytes(DigitsValue(digits), 5)
  {
    PowLimits();
    DigitsValueBound(digits);
    assert Pow(32, 0) == 1;
  }

  /** Eight digit characters decode to the number their digits write. */
  lemma DecodeDigitText(digits: seq<nat>)
    requires |digits| == 8 && forall k :: 0 <= k < 8 ==> digits[k] < 32
    ensures DecodeGameId(DigitChars(digits)) == Ok(DigitsValue(digits))
  {
    var s := DigitChars(digits);
    DigitTextReads(digits);
    FullQuantum(digits);
    var x := DigitsValue(digits);
    assert B32Decode(s) == Ok(QuantaBytes(digits, 0));
    FromToBytes(x, 5);
  }

  /** Decoding the text of an id gives back the id. */
  lemma EncodeDecodeRoundTrip(id: int)
    requires 0 <= id < IdLimit
    ensures EncodeGameId(id).Ok?
    ensures DecodeGameId(EncodeGameId(id).value) == Ok(id)
  {
    PowLimits();
    FromToBytes(id, 5);
    var digits := DigitsOf(id, 8);
    assert EncodeGameId(id).value == DigitChars(digits);
    DecodeDigitText(digits);
    ValueOfDigits(id, 8);
  }

  /** Every 8-character text over the alphabet is the text of exactly one
      id: it decodes to a number below 2^40 whose text it is. */
  lemma DecodeEncodeRoundTrip(s: string)
    requires |s| == 8 && forall k :: 0 <= k < 8 ==> s[k] in Alphabet
    ensures DecodeGameId(s).Ok? && DecodeGameId(s).value < IdLimit
    ensures EncodeGameId(DecodeGameId(s).value) == Ok(s)
  {
    PowLimits();
    forall k | 0 <= k < 8 ensures DigitOf(s[k]).Some? {
      var d :| 0 <= d < 32 && Alphabet[d] == s[k];
      DigitOfAlphabet(d);
    }
    var digits := DigitValues(s);
    assert DigitChars(digits) == s;
    DecodeDigitText(digits);
    DigitsOfValue(digits);
    var x := DigitsValue(digits);
    FromToBytes(x, 5);
    assert EncodeGameId(x) == Ok(DigitChars(DigitsOf(x, 8)));
  }

  /** Text whose length is not a multiple of 8 is never a game id. */
  lemma DecodeRejectsLength(s: string)
    requires |s| % 8 != 0
    ensures DecodeGameId(s) == Err(InvalidBase32)
  {
  }

  /** Padded text is accepted too: "AE======" stands for the single byte 1. */
  lemma DecodePaddedExample()
    ensures DecodeGameId("AE======") == Ok(1)
  {
    StripExample();
    QuantaExample();
    assert DigitOf('A') == Some(0) && DigitOf('E') == Some(4);
    assert DigitValues("AE") == [0, 4];
  }

  lemma StripExample()
    ensures StripPadding("AE======") == "AE"
  {
    assert "AE======"[..7] == "AE=====" && "AE====="[..6] == "AE====" && "AE===="[..5] == "AE===";
    assert "AE==="[..4] == "AE==" && "AE=="[..3] == "AE=" && "AE="[..2] == "AE";
  }

  lemma QuantaExample()
    ensures QuantaBytes([0, 4], 6) == [1]
  {
    ShortGroup([0, 4], 6);
    assert [0, 4][..1] == [0] && [0, 4][1] == 4;
    assert DigitsValue([0, 4]) == 4;
    PowSix();
    BytesOfTopBit();
  }

  /** A last group of fewer than 8 digits: its value shifted past the
      padding, cut to the bytes its digits fill. */
  lemma ShortGroup(ds: seq<nat>, pad: nat)
    requires forall k :: 0 <= k < |ds| ==> ds[k] < 32
    requires 0 < pad < 8 && |ds| + pad == 8
    ensures DigitsValue(ds) * Pow(32, pad) < Pow(256, 5)
    ensures QuantaBytes(ds, pad) == ToBytes(DigitsValue(ds) * Pow(32, pad), 5)[..(43 - 5 * pad) / 8]
  {
    PaddedGroupBound(ds, pad);
  }

  lemma PowSix()
    ensures Pow(32, 6) == 0x4000_0000
  {
    assert Pow(32, 3) == 0x8000;
  }

  lemma BytesOfTopBit()
    ensures 0x1_0000_0000 < Pow(256, 5)
    ensures ToBytes(0x1_0000_0000, 5) == [1, 0, 0, 0, 0]
  {
    PowLimits();
    assert ToBytes(1, 1) == [1];
    assert ToBytes(0x100, 2) == [1, 0];
    assert ToBytes(0x1_0000, 3) == [1, 0, 0];
    assert ToBytes(0x100_0000, 4) == [1, 0, 0, 0];
  }

  /** Lower-case letters are not digits. */
  lemma DecodeLowerCaseExample()
    ensures DecodeGameId("aaaaaaaa") == Err(InvalidBase32)
  {
    assert DigitOf("aaaaaaaa"[0]).None?;
  }
}
