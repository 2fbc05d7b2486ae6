/** Percent-encoding of byte strings (baselib/base/util.cc, lines 94-151). */
module UrlCodec {
  import opened Wrappers

  type Byte = bv8
  type Bytes = seq<Byte>

  const PERCENT: Byte := 0x25
  const PLUS: Byte := 0x2B
  const SPACE: Byte := 0x20

  predicate IsDigit(c: Byte) { 0x30 <= c <= 0x39 }

  predicate IsAlnum(c: Byte) { IsDigit(c) || 0x41 <= c <= 0x5A || 0x61 <= c <= 0x7A }

  /** The unreserved characters of section 2.3 of RFC 3986: letters, digits, '-', '_', '.', '~'. */
  predicate Unreserved(c: Byte) {
    IsAlnum(c) || c == 0x2D || c == 0x5F || c == 0x2E || c == 0x7E
  }

  function ToHex(x: Byte): Byte { if x > 9 then x + 55 else x + 48 }

  function FromHex(x: Byte): Byte { if IsDigit(x) then x - 0x30 else x - 0x41 + 10 }

  /** An upper-case hexadecimal digit, section 2.1 of RFC 3986. */
  predicate IsHexDigit(c: Byte) { IsDigit(c) || 0x41 <= c <= 0x46 }

  /** What the decoder makes of the two characters after a percent sign. */
  function Unhex(hi: Byte, lo: Byte): Byte { (FromHex(hi) << 4) | FromHex(lo) }

  /** What the encoder emits for one byte. */
  function EncodeByte(c: Byte): Bytes {
    if Unreserved(c) then [c]
    else if c == SPACE then [PLUS]
    else [PERCENT, ToHex(c >> 4), ToHex(c % 16)]
  }

  function Encode(s: Bytes): Bytes {
    if s == [] then [] else EncodeByte(s[0]) + Encode(s[1..])
  }

  /** The character a std::string subscript yields: the terminator may be read, nothing beyond it. */
  function CharAt(s: Bytes, i: nat): Byte
    requires i <= |s|
  {
    if i == |s| then 0 else s[i]
  }

  /** The decoded rest of s from index i; None when the decoder reads beyond the terminator. */
  function DecodeFrom(s: Bytes, i: nat): Option<Bytes>
    decreases |s| - i
  {
    if i >= |s| then Some([])
    else if s[i] == PERCENT then
      if i + 2 > |s| then None
      else Prepend(Unhex(CharAt(s, i + 1), CharAt(s, i + 2)), DecodeFrom(s, i + 3))
    else Prepend(if s[i] == PLUS then SPACE else s[i], DecodeFrom(s, i + 1))
  }

  function Prepend(c: Byte, rest: Option<Bytes>): Option<Bytes> {
    if rest.None? then None else Some([c] + rest.value)
  }

  function Decode(s: Bytes): Option<Bytes> { DecodeFrom(s, 0) }

  /** The texts the encoder can produce, described without it. */
  predicate Canonical(t: Bytes)
    decreases |t|
  {
    t == [] ||
    if t[0] == PERCENT then
      && |t| >= 3 && IsHexDigit(t[1]) && IsHexDigit(t[2])
      && var c := Unhex(t[1], t[2]);
      !Unreserved(c) && c != SPACE && Canonical(t[3..])
    else (Unreserved(t[0]) || t[0] == PLUS) && Canonical(t[1..])
  }

  // ----- one byte -----

  lemma HexRoundTrip(c: Byte)
    ensures IsHexDigit(ToHex(c >> 4)) && IsHexDigit(ToHex(c % 16))
    ensures Unhex(ToHex(c >> 4), ToHex(c % 16)) == c
  {
    assert c % 16 == c & 0x0F;
  }

  lemma UnhexRoundTrip(hi: Byte, lo: Byte)
    requires IsHexDigit(hi) && IsHexDigit(lo)
    ensures ToHex(Unhex(hi, lo) >> 4) == hi && ToHex(Unhex(hi, lo) % 16) == lo
  {
    var c := Unhex(hi, lo);
    assert c % 16 == c & 0x0F;
  }

  // ----- whole strings -----

  lemma EncodeCons(c: Byte, s: Bytes)
    ensures Encode([c] + s) == EncodeByte(c) + Encode(s)
  {
    assert ([c] + s)[1..] == s;
  }

  lemma {:induction false} EncodeConcat(a: Bytes, b: Bytes)
    ensures Encode(a + b) == Encode(a) + Encode(b)
  {
    if a == [] {
      assert a + b == b;
    } else {
      var c, t := a[0], a[1..];
      EncodeConcat(t, b);
      assert a == [c] + t;
      ConcatCons(c, t, b);
    }
  }

  lemma ConcatCons(c: Byte, t: Bytes, b: Bytes)
    requires Encode(t + b) == Encode(t) + Encode(b)
    ensures Encode([c] + t + b) == Encode([c] + t) + Encode(b)
  {
    Associate([c], t, b);
    EncodeCons(c, t);
    EncodeCons(c, t + b);
    Associate(EncodeByte(c), Encode(t), Encode(b));
  }

  lemma Associate(x: Bytes, y: Bytes, z: Bytes)
    ensures x + y + z == x + (y + z)
  {
  }

  /** Decoding depends only on what is left to read. */
  lemma {:induction false} DecodeSuffix(s: Bytes, i: nat)
    requires i <= |s|
    ensures DecodeFrom(s, i) == Decode(s[i..])
    decreases |s| - i
  {
    DecodeShift(s, i, 0);
  }

  lemma {:induction false} DecodeShift(s: Bytes, i: nat, j: nat)
    requires i <= |s|
    ensures DecodeFrom(s, i + j) == DecodeFrom(s[i..], j)
    decreases |s| - j
  {
    if i + j < |s| {
      DecodeShift(s, i, j + 3);
      DecodeShift(s, i, j + 1);
    }
  }

  lemma {:induction false} DecodeEncode(s: Bytes)
    ensures Decode(Encode(s)) == Some(s)
  {
    if s != [] {
      var t, c := Encode(s), EncodeByte(s[0]);
      DecodeEncode(s[1..]);
      HexRoundTrip(s[0]);
      assert t[|c|..] == Encode(s[1..]);
      DecodeSuffix(t, |c|);
      assert s == [s[0]] + s[1..];
    }
  }

  lemma EncodeInjective(a: Bytes, b: Bytes)
    requires Encode(a) == Encode(b)
    ensures a == b
  {
    DecodeEncode(a);
    DecodeEncode(b);
  }

  lemma {:induction false} EncodeCanonical(s: Bytes)
    ensures Canonical(Encode(s))
  {
    if s != [] {
      EncodeCanonical(s[1..]);
      HexRoundTrip(s[0]);
      var t, c := Encode(s), EncodeByte(s[0]);
      assert t[|c|..] == Encode(s[1..]);
    }
  }

  lemma {:induction false} EncodeDecodeCanonical(t: Bytes)
    requires Canonical(t)
    ensures Decode(t).Some? && Encode(Decode(t).value) == t
    decreases |t|
  {
    if t != [] {
      var n := if t[0] == PERCENT then 3 else 1;
      EncodeDecodeCanonical(t[n..]);
      DecodeSuffix(t, n);
      var s := Decode(t).value;
      assert s[1..] == Decode(t[n..]).value;
      if n == 3 { UnhexRoundTrip(t[1], t[2]); }
      assert t == t[..n] + t[n..];
      assert EncodeByte(s[0]) == t[..n];
    }
  }

  /** Re-encoding gives a text back exactly when the text is canonical, and the canonical texts are the encoder's. */
  lemma ReencodingExact(t: Bytes)
    ensures Canonical(t) <==> (Decode(t).Some? && Encode(Decode(t).value) == t)
    ensures Canonical(t) <==> exists s :: Encode(s) == t
  {
    if Canonical(t) { EncodeDecodeCanonical(t); }
    if Decode(t).Some? { EncodeCanonical(Decode(t).value); }
    if s :| Encode(s) == t { EncodeCanonical(s); }
  }

  // ----- the characters themselves -----

  /** Letters, digits, '-', '_', '.' and '~'. */
  predicate IsPlain(c: Byte) {
    0x30 <= c <= 0x39 || 0x41 <= c <= 0x5A || 0x61 <= c <= 0x7A || c == 0x2D || c == 0x5F || c == 0x2E || c == 0x7E
  }

  lemma EncodeSingle(c: Byte)
    ensures Encode([c]) == EncodeByte(c)
  {
    assert Encode([c]) == EncodeByte(c) + Encode([]);
  }

  /** A space becomes a plus sign; every other byte that is not plain becomes an escape of three characters. */
  lemma EncodedLengths(c: Byte)
    ensures |Encode([c])| == 1 <==> IsPlain(c) || c == 0x20
    ensures Encode([0x20]) == [0x2B] && (IsPlain(c) ==> Encode([c]) == [c])
    ensures !IsPlain(c) && c != 0x20 ==> |Encode([c])| == 3 && Encode([c])[0] == 0x25
  {
    EncodeSingle(c);
    EncodeSingle(0x20);
  }

  lemma {:induction false} EncodeLonger(s: Bytes)
    ensures |Encode(s)| >= |s|
  {
    if s != [] { EncodeLonger(s[1..]); }
  }

  /** The encoder leaves a text alone exactly when all its bytes are plain. */
  lemma {:induction false} PlainExactly(s: Bytes)
    ensures Encode(s) == s <==> forall i :: 0 <= i < |s| ==> IsPlain(s[i])
  {
    if s != [] {
      PlainExactly(s[1..]);
      EncodeLonger(s[1..]);
      EncodedLengths(s[0]);
      EncodeSingle(s[0]);
      assert s == [s[0]] + s[1..];
      assert forall i :: 0 < i < |s| ==> s[i] == s[1..][i - 1];
      PlainStep(s[0], s[1..]);
    }
  }

  lemma PlainStep(c: Byte, rest: Bytes)
    requires |Encode(rest)| >= |rest|
    ensures Encode([c] + rest) == [c] + rest <==> IsPlain(c) && Encode(rest) == rest
  {
    EncodeCons(c, rest);
    var e := EncodeByte(c);
    if Encode([c] + rest) == [c] + rest {
      assert (e + Encode(rest))[0] == c && |e| == 1;
      assert (e + Encode(rest))[1..] == ([c] + rest)[1..];
    }
  }

  /** A hexadecimal digit of either case. */
  predicate IsHexEither(c: Byte) { 0x30 <= c <= 0x39 || 0x41 <= c <= 0x46 || 0x61 <= c <= 0x66 }

  function HexValue(c: Byte): Byte
    requires IsHexEither(c)
  {
    if c <= 0x39 then c - 0x30 else if c <= 0x46 then c - 0x37 else c - 0x57
  }

  lemma DecodeCons(c: Byte, t: Bytes)
    requires c != 0x25
    ensures Decode([c] + t) == Prepend(if c == 0x2B then 0x20 else c, Decode(t))
  {
    DecodeSuffix([c] + t, 1);
    assert ([c] + t)[1..] == t;
  }

  lemma DecodeEscape(hi: Byte, lo: Byte, t: Bytes)
    ensures Decode([0x25, hi, lo] + t) == Prepend(Unhex(hi, lo), Decode(t))
  {
    DecodeSuffix([0x25, hi, lo] + t, 3);
    assert ([0x25, hi, lo] + t)[3..] == t;
  }

  lemma LoneEscape(hi: Byte, lo: Byte)
    ensures Decode([0x25, hi, lo]) == Some([Unhex(hi, lo)])
  {
    DecodeEscape(hi, lo, []);
    assert [0x25, hi, lo] + [] == [0x25, hi, lo];
    assert [Unhex(hi, lo)] + [] == [Unhex(hi, lo)];
  }

  /** Every byte written as an escape with the given digits. */
  function EscapeAll(digits: seq<(Byte, Byte)>): Bytes {
    if digits == [] then [] else [0x25, digits[0].0, digits[0].1] + EscapeAll(digits[1..])
  }

  function EscapedBytes(digits: seq<(Byte, Byte)>): Bytes
    requires forall i :: 0 <= i < |digits| ==> IsHexEither(digits[i].0) && IsHexEither(digits[i].1)
  {
    if digits == [] then [] else [HexValue(digits[0].0) * 16 + HexValue(digits[0].1)] + EscapedBytes(digits[1..])
  }

  /**
   * An escape of section 2.1 of RFC 3986 stands for the byte of its two digits, in either case. The decoder reads it
   * so exactly when its second digit is not lower-case, or its first digit has the bit that the lower case adds.
   */
  lemma EscapeExactly(hi: Byte, lo: Byte)
    requires IsHexEither(hi) && IsHexEither(lo)
    ensures Decode([0x25, hi, lo]) == Some([HexValue(hi) * 16 + HexValue(lo)])
       <==> lo <= 0x46 || HexValue(hi) & 2 == 2
  {
    LoneEscape(hi, lo);
    UnhexExactly(hi, lo);
  }

  lemma UnhexExactly(hi: Byte, lo: Byte)
    requires IsHexEither(hi) && IsHexEither(lo)
    ensures Unhex(hi, lo) == HexValue(hi) * 16 + HexValue(lo) <==> lo <= 0x46 || HexValue(hi) & 2 == 2
  {
  }

  /** A text of nothing but escapes decodes to their bytes as long as no second digit is lower-case. */
  lemma {:induction false} EscapesDecode(digits: seq<(Byte, Byte)>)
    requires forall i :: 0 <= i < |digits| ==>
      IsHexEither(digits[i].0) && IsHexEither(digits[i].1) && digits[i].1 <= 0x46
    ensures Decode(EscapeAll(digits)) == Some(EscapedBytes(digits))
  {
    if digits != [] {
      EscapesDecode(digits[1..]);
      DecodeEscape(digits[0].0, digits[0].1, EscapeAll(digits[1..]));
      UnhexExactly(digits[0].0, digits[0].1);
    }
  }

  /** The lower-case escape for a line feed decodes to an asterisk. */
  lemma LowerCaseMisread()
    ensures Decode([0x25, 0x30, 0x61]) == Some([0x2A])
  {
    LoneEscape(0x30, 0x61);
  }

  lemma DecodeAfterByte(c: Byte, rest: Bytes)
    ensures Decode(EncodeByte(c) + rest) == Prepend(c, Decode(rest))
  {
    HexRoundTrip(c);
    if |EncodeByte(c)| == 3 {
      DecodeEscape(EncodeByte(c)[1], EncodeByte(c)[2], rest);
    } else {
      DecodeCons(EncodeByte(c)[0], rest);
    }
  }

  ghost function Join(done: Bytes, rest: Option<Bytes>): Option<Bytes> {
    if rest.None? then None else Some(done + rest.value)
  }

  lemma JoinEmpty(rest: Option<Bytes>)
    ensures Join([], rest) == rest
  {
    if rest.Some? { assert [] + rest.value == rest.value; }
  }

  lemma JoinCons(c: Byte, t: Bytes, rest: Option<Bytes>)
    ensures Prepend(c, Join(t, rest)) == Join([c] + t, rest)
  {
    if rest.Some? { assert [c] + (t + rest.value) == [c] + t + rest.value; }
  }

  lemma EncodedFront(c: Byte, t: Bytes, rest: Bytes)
    ensures Encode([c] + t) + rest == EncodeByte(c) + (Encode(t) + rest)
  {
    EncodeCons(c, t);
    Associate(EncodeByte(c), Encode(t), rest);
  }

  lemma AfterCons(c: Byte, t: Bytes, rest: Bytes)
    requires Decode(Encode(t) + rest) == Join(t, Decode(rest))
    ensures Decode(Encode([c] + t) + rest) == Join([c] + t, Decode(rest))
  {
    EncodedFront(c, t, rest);
    DecodeAfterByte(c, Encode(t) + rest);
    JoinCons(c, t, Decode(rest));
  }

  /** What is decoded after an encoded text follows the text. */
  lemma {:induction false} DecodeAfterText(s: Bytes, rest: Bytes)
    ensures Decode(Encode(s) + rest) == Join(s, Decode(rest))
  {
    if s == [] {
      assert Encode(s) + rest == rest;
      JoinEmpty(Decode(rest));
    } else {
      DecodeAfterText(s[1..], rest);
      AfterCons(s[0], s[1..], rest);
      assert s == [s[0]] + s[1..];
    }
  }

  /**
   * A text cut off inside an escape: with both digits missing the decoder reads beyond the terminator; with one
   * missing it reads the terminator for it.
   */
  lemma CutOffEscape(s: Bytes, c: Byte)
    ensures Decode(Encode(s) + [0x25]) == None
    ensures Decode(Encode(s) + [0x25, c]) == Some(s + [Unhex(c, 0)])
    ensures IsHexEither(c) ==> Unhex(c, 0) == (HexValue(c) << 4) | 0xC9
  {
    DecodeAfterText(s, [0x25]);
    DecodeAfterText(s, [0x25, c]);
    assert DecodeFrom([0x25, c], 3) == Some([]);
    assert [Unhex(c, 0)] + [] == [Unhex(c, 0)];
  }

  // ----- the loops -----

  lemma EncodePrefix(str: Bytes, i: nat)
    requires i < |str|
    ensures Encode(str[..i + 1]) == Encode(str[..i]) + EncodeByte(str[i])
  {
    var c := str[i];
    assert str[..i + 1] == str[..i] + [c];
    EncodeConcat(str[..i], [c]);
    assert Encode([c]) == EncodeByte(c) + Encode([]);
  }

  method UrlEncode(str: Bytes) returns (out: Bytes)
    ensures out == Encode(str)
  {
    out := [];
    var i := 0;
    while i < |str|
      invariant i <= |str|
      invariant out == Encode(str[..i])
    {
      var c := str[i];
      EncodePrefix(str, i);
      ghost var done := out;
      if Unreserved(c) {
        out := out + [c];
      } else if c == SPACE {
        out := out + [PLUS];
      } else {
        out := out + [PERCENT];
        out := out + [ToHex(c >> 4)];
        out := out + [ToHex(c % 16)];
      }
      assert out == done + EncodeByte(c);
      i := i + 1;
    }
    assert str[..i] == str;
  }

  lemma JoinPrepend(done: Bytes, c: Byte, rest: Option<Bytes>)
    ensures Join(done, Prepend(c, rest)) == Join(done + [c], rest)
  {
    if rest.Some? { assert done + ([c] + rest.value) == done + [c] + rest.value; }
  }

  method UrlDecode(sIn: Bytes) returns (out: Option<Bytes>)
    ensures out == Decode(sIn)
  {
    var sOut: Bytes := [];
    var ix := 0;
    JoinEmpty(Decode(sIn));
    while ix < |sIn|
      invariant Decode(sIn) == Join(sOut, DecodeFrom(sIn, ix))
    {
      var ch: Byte;
      ghost var start := ix;
      if sIn[ix] == PERCENT {
        if ix + 2 > |sIn| { return None; }
        ch := FromHex(CharAt(sIn, ix + 1)) << 4;
        ch := ch | FromHex(CharAt(sIn, ix + 2));
        ix := ix + 2;
      } else if sIn[ix] == PLUS {
        ch := SPACE;
      } else {
        ch := sIn[ix];
      }
      ix := ix + 1;
      assert DecodeFrom(sIn, start) == Prepend(ch, DecodeFrom(sIn, ix));
      JoinPrepend(sOut, ch, DecodeFrom(sIn, ix));
      sOut := sOut + [ch];
    }
    assert sOut + [] == sOut;
    out := Some(sOut);
  }
}
