/**
  UTF-8 as RFC 3629 defines it: scalar values, their encoding, and the validity test that
  `std::str::from_utf8` performs.
 */
module Utf8 {
  import opened Prelude

  /** A Unicode scalar value: a code point that is not a surrogate. */
  type Scalar = c: int | 0 <= c < 0xD800 || 0xE000 <= c < 0x110000

  /** A Rust `String`, seen as the characters it holds. */
  type Text = seq<Scalar>

  datatype Decoded = Decoded(scalar: Scalar, length: nat)

  predicate IsCont(b: Byte) {
    0x80 <= b < 0xC0
  }

  /** Joins six-bit groups, as the continuation octets do. */
  function SixBits(high: int, low: int): int {
    high * 64 + low
  }

  /** Section 3 of RFC 3629: the octets of one character. */
  function Encode(c: Scalar): (s: Bytes)
    ensures 1 <= |s| <= 4
    ensures c < 0x80 <==> s == [c]
    ensures c >= 0x80 ==> forall k :: 0 <= k < |s| ==> s[k] >= 0x80
  {
    if c < 0x80 then [c]
    else if c < 0x800 then [0xC0 + c / 64, 0x80 + c % 64]
    else if c < 0x10000 then [0xE0 + c / 64 / 64, 0x80 + c / 64 % 64, 0x80 + c % 64]
    else [0xF0 + c / 64 / 64 / 64, 0x80 + c / 64 / 64 % 64, 0x80 + c / 64 % 64, 0x80 + c % 64]
  }

  predicate Two(s: Bytes) {
    |s| >= 2 && 0xC2 <= s[0] < 0xE0 && IsCont(s[1])
  }

  predicate Three(s: Bytes) {
    && |s| >= 3 && 0xE0 <= s[0] < 0xF0 && IsCont(s[1]) && IsCont(s[2])
    && (s[0] == 0xE0 ==> s[1] >= 0xA0) && (s[0] == 0xED ==> s[1] < 0xA0)
  }

  predicate Four(s: Bytes) {
    && |s| >= 4 && 0xF0 <= s[0] < 0xF5 && IsCont(s[1]) && IsCont(s[2]) && IsCont(s[3])
    && (s[0] == 0xF0 ==> s[1] >= 0x90) && (s[0] == 0xF4 ==> s[1] < 0x90)
  }

  function Scalar2(a: int, b: int): int {
    SixBits(a - 0xC0, b - 0x80)
  }

  function Scalar3(a: int, b: int, c: int): int {
    SixBits(SixBits(a - 0xE0, b - 0x80), c - 0x80)
  }

  function Scalar4(a: int, b: int, c: int, d: int): int {
    SixBits(SixBits(SixBits(a - 0xF0, b - 0x80), c - 0x80), d - 0x80)
  }

  /** Section 4 of RFC 3629: the first character of `s`, when `s` starts with a well-formed one. */
  function First(s: Bytes): (r: Option<Decoded>)
    ensures r.Some? ==> 1 <= r.value.length <= |s|
  {
    if |s| == 0 then None
    else if s[0] < 0x80 then Some(Decoded(s[0], 1))
    else if Two(s) then Some(Decoded(Scalar2(s[0], s[1]), 2))
    else if Three(s) then Some(Decoded(Scalar3(s[0], s[1], s[2]), 3))
    else if Four(s) then Some(Decoded(Scalar4(s[0], s[1], s[2], s[3]), 4))
    else None
  }

  /** `std::str::from_utf8(s).is_ok()`. */
  predicate Valid(s: Bytes)
    decreases |s|
  {
    s == [] || (First(s).Some? && Valid(s[First(s).value.length..]))
  }

  /** The characters of a valid byte string. */
  function Decode(s: Bytes): (t: Text)
    requires Valid(s)
    decreases |s|
  {
    if s == [] then [] else [First(s).value.scalar] + Decode(s[First(s).value.length..])
  }

  function EncodeAll(t: Text): Bytes {
    if t == [] then [] else Encode(t[0]) + EncodeAll(t[1..])
  }

  lemma {:induction false} SplitGroups(x: int)
    ensures SixBits(x / 64, x % 64) == x
  {
  }

  lemma {:induction false} GroupsSplit(high: int, low: int)
    requires 0 <= low < 64
    ensures SixBits(high, low) / 64 == high && SixBits(high, low) % 64 == low
  {
  }

  /** A character is decoded from its own octets, whatever follows them. */
  lemma {:induction false} FirstOfEncode(c: Scalar, rest: Bytes)
    ensures First(Encode(c) + rest) == Some(Decoded(c, |Encode(c)|))
  {
    var s := Encode(c) + rest;
    assert forall k :: 0 <= k < |Encode(c)| ==> s[k] == Encode(c)[k];
    SplitGroups(c);
    SplitGroups(c / 64);
    SplitGroups(c / 64 / 64);
    if c < 0x80 {
    } else if c < 0x800 {
      assert Two(s);
    } else if c < 0x10000 {
      assert Three(s);
    } else {
      assert Four(s);
    }
  }

  lemma {:induction false} EncodeOfFirst(s: Bytes)
    requires First(s).Some?
    ensures var f := First(s).value; s[..f.length] == Encode(f.scalar)
  {
    var f := First(s).value;
    if f.length == 2 {
      GroupsSplit(s[0] - 0xC0, s[1] - 0x80);
    } else if f.length == 3 {
      var h := SixBits(s[0] - 0xE0, s[1] - 0x80);
      GroupsSplit(s[0] - 0xE0, s[1] - 0x80);
      GroupsSplit(h, s[2] - 0x80);
    } else if f.length == 4 {
      var h := SixBits(s[0] - 0xF0, s[1] - 0x80);
      GroupsSplit(s[0] - 0xF0, s[1] - 0x80);
      GroupsSplit(h, s[2] - 0x80);
      GroupsSplit(SixBits(h, s[2] - 0x80), s[3] - 0x80);
    }
  }

  /** Encoding then decoding gives the text back. */
  lemma {:induction false} DecodeOfEncode(t: Text)
    ensures Valid(EncodeAll(t)) && Decode(EncodeAll(t)) == t
  {
    if t != [] {
      DecodeOfEncode(t[1..]);
      FirstOfEncode(t[0], EncodeAll(t[1..]));
      assert EncodeAll(t)[|Encode(t[0])|..] == EncodeAll(t[1..]);
      assert t == [t[0]] + t[1..];
    }
  }

  lemma {:induction false} EncodeAllCons(c: Scalar, t: Text)
    ensures EncodeAll([c] + t) == Encode(c) + EncodeAll(t)
  {
    assert ([c] + t)[1..] == t;
  }

  /** Decoding then encoding gives the octets back, so distinct valid octets are distinct texts. */
  lemma {:induction false} EncodeOfDecode(s: Bytes)
    requires Valid(s)
    ensures EncodeAll(Decode(s)) == s
    decreases |s|
  {
    if s != [] {
      var f := First(s).value;
      var rest := s[f.length..];
      EncodeOfFirst(s);
      EncodeOfDecode(rest);
      EncodeAllCons(f.scalar, Decode(rest));
    }
  }

  lemma {:induction false} AsciiEncodes(t: Text)
    requires forall k :: 0 <= k < |t| ==> t[k] < 0x80
    ensures EncodeAll(t) == t
  {
    if t != [] {
      AsciiEncodes(t[1..]);
      assert Encode(t[0]) == [t[0]] && t == [t[0]] + t[1..];
    }
  }

  /** An ASCII prefix neither makes nor breaks validity. */
  lemma {:induction false} ValidAfterAscii(a: Bytes, s: Bytes)
    requires forall k :: 0 <= k < |a| ==> a[k] < 0x80
    ensures Valid(a + s) <==> Valid(s)
  {
    if a == [] {
      assert a + s == s;
    } else {
      assert (a + s)[1..] == a[1..] + s;
      ValidAfterAscii(a[1..], s);
    }
  }

  // ---------------------------------------------------------------- lossy decoding

  const REPLACEMENT: Scalar := 0xFFFD

  /** How many octets one replacement character stands for at the front of ill-formed `s`. */
  function BadLength(s: Bytes): (k: nat)
    requires s != []
    ensures 1 <= k <= |s|
  {
    if |s| < 2 then 1
    else if 0xE0 <= s[0] < 0xF0 && IsCont(s[1]) && (s[0] == 0xE0 ==> s[1] >= 0xA0) && (s[0] == 0xED ==> s[1] < 0xA0) then 2
    else if 0xF0 <= s[0] < 0xF5 && IsCont(s[1]) && (s[0] == 0xF0 ==> s[1] >= 0x90) && (s[0] == 0xF4 ==> s[1] < 0x90) then
      if |s| >= 3 && IsCont(s[2]) then 3 else 2
    else 1
  }

  /** `String::from_utf8_lossy`. */
  function Lossy(s: Bytes): Text
    decreases |s|
  {
    if s == [] then []
    else if First(s).Some? then [First(s).value.scalar] + Lossy(s[First(s).value.length..])
    else [REPLACEMENT] + Lossy(s[BadLength(s)..])
  }

  lemma {:induction false} LossyKeepsValid(s: Bytes)
    requires Valid(s)
    ensures Lossy(s) == Decode(s)
    decreases |s|
  {
    hide First;
    if s != [] {
      LossyKeepsValid(s[First(s).value.length..]);
    }
  }
}
