/**
  What `decode_string` inverts and what it declines (section 7 of RFC 8259).
 */
module JsonStringLaws {
  import opened Prelude
  import opened Utf8
  import opened JsonStrings
  import opened JsonDom

  // ---------------------------------------------------------------- spellings

  /** A hexadecimal digit, in either case. */
  predicate IsNibble(c: Byte, v: int) {
    0 <= v < 16 && (c == "0123456789abcdef"[v] as int || c == "0123456789ABCDEF"[v] as int)
  }

  /** Four hexadecimal digits worth `u`. */
  predicate HexSpells(h: Bytes, u: int) {
    && |h| == 4 && 0 <= u < 0x10000
    && IsNibble(h[0], u / 0x1000) && IsNibble(h[1], u / 0x100 % 0x10) && IsNibble(h[2], u / 0x10 % 0x10) && IsNibble(h[3], u % 0x10)
  }

  /** The escapes of two characters. */
  predicate ShortSpells(letter: char, c: Scalar) {
    || (letter in "\"\\/" && c == letter as int)
    || (letter == 'b' && c == 0x08) || (letter == 't' && c == 0x09) || (letter == 'n' && c == 0x0A)
    || (letter == 'f' && c == 0x0C) || (letter == 'r' && c == 0x0D)
  }

  predicate UnicodeEscape(p: Bytes, u: int) {
    |p| == 6 && p[..2] == Ascii("\\u") && HexSpells(p[2..], u)
  }

  /** The two halves of a character above U+FFFF. */
  predicate SurrogatePair(p: Bytes, c: Scalar) {
    && |p| == 12 && c >= 0x10000
    && UnicodeEscape(p[..6], 0xD800 + (c - 0x10000) / 0x400) && UnicodeEscape(p[6..], 0xDC00 + (c - 0x10000) % 0x400)
  }

  /** `p` is one of the ways section 7 of RFC 8259 lets a string carry the character `c`. */
  predicate Spells(p: Bytes, c: Scalar) {
    || (c != '\\' as int && p == Encode(c))
    || (|p| == 2 && p[0] == '\\' as int && ShortSpells(p[1] as char, c))
    || UnicodeEscape(p, c)
    || SurrogatePair(p, c)
  }

  function Concat(pieces: seq<Bytes>): Bytes {
    if pieces == [] then [] else pieces[0] + Concat(pieces[1..])
  }

  ghost predicate SpellsAll(pieces: seq<Bytes>, t: Text) {
    |pieces| == |t| && forall k :: 0 <= k < |t| ==> Spells(pieces[k], t[k])
  }

  lemma {:induction false} NibbleIsDigit(c: Byte, v: int)
    requires IsNibble(c, v)
    ensures IsHexDigit(c) && HexValue(c) == v && c < 0x80
  {
  }

  lemma {:induction false} RadixOfHex(h: Bytes, u: int)
    requires HexSpells(h, u)
    ensures Radix16(h) == Some(u) && forall k :: 0 <= k < 4 ==> h[k] < 0x80
  {
    hide IsNibble, IsHexDigit, HexValue;
    NibbleIsDigit(h[0], u / 0x1000);
    NibbleIsDigit(h[1], u / 0x100 % 0x10);
    NibbleIsDigit(h[2], u / 0x10 % 0x10);
    NibbleIsDigit(h[3], u % 0x10);
    FourDigits(u);
    PlusIsNoDigit();
  }

  lemma {:induction false} RadixOfDigits(h: Bytes)
    requires |h| == 4 && forall k :: 0 <= k < 4 ==> IsHexDigit(h[k])
    ensures Radix16(h) == Some(HexValue(h[0]) * 4096 + HexValue(h[1]) * 256 + HexValue(h[2]) * 16 + HexValue(h[3]))
  {
    hide HexValue;
  }

  lemma {:induction false} PlusIsNoDigit()
    ensures !IsHexDigit(0x2B)
  {
  }

  lemma {:induction false} FourDigits(u: int)
    requires 0 <= u < 0x10000
    ensures u == u / 0x1000 * 0x1000 + u / 0x100 % 0x10 * 0x100 + u / 0x10 % 0x10 * 0x10 + u % 0x10
  {
    assert u / 0x100 == u / 0x10 / 0x10 && u / 0x1000 == u / 0x100 / 0x10;
  }

  lemma {:induction false} ShortIsTable(e: Byte, c: Scalar)
    ensures ShortSpells(e as char, c) <==> ShortEscape(e) == Some(c)
    ensures ShortSpells(e as char, c) ==> e != LOWER_U
  {
  }

  lemma {:induction false} EncodingIsValid(c: Scalar, rest: Bytes)
    requires Valid(rest)
    ensures Valid(Encode(c) + rest)
  {
    FirstOfEncode(c, rest);
    assert (Encode(c) + rest)[|Encode(c)|..] == rest;
  }

  /** Every spelling is well-formed UTF-8, so it keeps what follows it valid. */
  lemma {:induction false} SpellingIsValid(p: Bytes, c: Scalar, rest: Bytes)
    requires Spells(p, c) && Valid(rest)
    ensures Valid(p + rest)
  {
    hide Valid, Encode;
    if c != SLASH && p == Encode(c) {
      EncodingIsValid(c, rest);
    } else {
      assert forall k :: 0 <= k < |p| ==> p[k] < 0x80 by { EscapeIsAscii(p, c); }
      ValidAfterAscii(p, rest);
    }
  }

  lemma {:induction false} EscapeIsAscii(p: Bytes, c: Scalar)
    requires Spells(p, c) && p != Encode(c)
    ensures forall k :: 0 <= k < |p| ==> p[k] < 0x80
  {
    hide Encode, HexSpells;
    if UnicodeEscape(p, c) {
      EscapeFront(p, c);
    } else if SurrogatePair(p, c) {
      EscapeFront(p[..6], 0xD800 + (c - 0x10000) / 0x400);
      EscapeFront(p[6..], 0xDC00 + (c - 0x10000) % 0x400);
      assert p == p[..6] + p[6..];
    } else {
      ShortIsAscii(p[1], c);
    }
  }

  lemma {:induction false} ShortIsAscii(e: Byte, c: Scalar)
    requires ShortSpells(e as char, c)
    ensures e < 0x80
  {
  }

  lemma {:induction false} EscapeFront(p: Bytes, u: int)
    requires UnicodeEscape(p, u)
    ensures p[0] == SLASH && p[1] == LOWER_U && Radix16(p[2..6]) == Some(u)
    ensures forall k :: 0 <= k < 6 ==> p[k] < 0x80
  {
    hide HexSpells;
    RadixOfHex(p[2..], u);
    assert p[0] == p[..2][0] && p[1] == p[..2][1] && p[2..6] == p[2..];
    assert forall k :: 2 <= k < 6 ==> p[k] == p[2..][k - 2];
  }

  /** One loop step reads back one spelled character. */
  lemma {:induction false} DecodeOneSpelled(p: Bytes, c: Scalar, rest: Bytes)
    requires Spells(p, c) && Valid(rest)
    ensures p != [] && DecodeOne(p + rest) == Some(Decoded(c, |p|))
  {
    hide Valid, Encode, First;
    var s := p + rest;
    if c != SLASH && p == Encode(c) {
      SpellingIsValid(p, c, rest);
      FirstOfEncode(c, rest);
      assert s[0] == p[0] != SLASH by { EncodeStart(c); }
    } else if UnicodeEscape(p, c) {
      EscapeFront(p, c);
      assert s[2..6] == p[2..6];
    } else if SurrogatePair(p, c) {
      DecodeOnePair(p, c, rest);
    } else {
      ShortIsTable(p[1], c);
    }
  }

  lemma {:induction false} DecodeOnePair(p: Bytes, c: Scalar, rest: Bytes)
    requires SurrogatePair(p, c)
    ensures DecodeOne(p + rest) == Some(Decoded(c, 12))
  {
    hide Valid, First, HexSpells, Radix16;
    var s := p + rest;
    var a, z := p[..6], p[6..];
    EscapeFront(a, 0xD800 + (c - 0x10000) / 0x400);
    EscapeFront(z, 0xDC00 + (c - 0x10000) % 0x400);
    assert s[0] == a[0] && s[1] == a[1] && s[6] == z[0] && s[7] == z[1];
    assert s[2..6] == a[2..6];
    assert s[8..12] == z[2..6];
  }

  lemma {:induction false} EncodeStart(c: Scalar)
    requires c != SLASH
    ensures Encode(c) != [] && Encode(c)[0] != SLASH
  {
  }

  lemma {:induction false} SpelledTextIsValid(pieces: seq<Bytes>, t: Text)
    requires SpellsAll(pieces, t)
    ensures Valid(Concat(pieces))
  {
    hide Spells;
    if pieces != [] {
      SpelledTextIsValid(pieces[1..], t[1..]);
      SpellingIsValid(pieces[0], t[0], Concat(pieces[1..]));
    }
  }

  /**
    `decode_string` reads back every text however its characters are spelled: as raw UTF-8, as a short
    escape, or as `\u` escapes with a surrogate pair above U+FFFF.
   */
  lemma {:induction false} DecodeInvertsSpelling(pieces: seq<Bytes>, t: Text)
    requires SpellsAll(pieces, t)
    ensures DecodeInner(Concat(pieces)) == Some(t)
  {
    hide Spells, Valid, DecodeOne;
    if pieces != [] {
      var rest := Concat(pieces[1..]);
      SpelledTextIsValid(pieces[1..], t[1..]);
      DecodeOneSpelled(pieces[0], t[0], rest);
      assert Concat(pieces)[|pieces[0]|..] == rest;
      DecodeInvertsSpelling(pieces[1..], t[1..]);
      assert t == [t[0]] + t[1..];
    }
  }

  // ---------------------------------------------------------------- lexical units of a token

  /** What the scanner sees between the quotes. */
  datatype Unit = Plain(octet: Byte) | Short(letter: Byte) | Hex(code: int)

  /** The units of a token's content, when `string_span` accepts it. */
  function Units(s: Bytes): (r: Option<seq<Unit>>)
    decreases |s|
  {
    if s == [] then Some([])
    else if s[0] == SLASH then
      if |s| < 2 then None
      else if s[1] == LOWER_U then
        if |s| < 6 || !(forall k :: 2 <= k < 6 ==> IsHexDigit(s[k])) then None
        else Cons(Hex(HexValue(s[2]) * 4096 + HexValue(s[3]) * 256 + HexValue(s[4]) * 16 + HexValue(s[5])), Units(s[6..]))
      else if ShortEscape(s[1]).Some? then Cons(Short(s[1]), Units(s[2..]))
      else None
    else if s[0] == QUOTE || s[0] < 0x20 then None
    else Cons(Plain(s[0]), Units(s[1..]))
  }

  function Cons(u: Unit, r: Option<seq<Unit>>): Option<seq<Unit>> {
    match r
    case None => None
    case Some(rest) => Some([u] + rest)
  }

  /** Behind a complete first unit. */
  lemma {:induction false} UnitsPeel(s: Bytes)
    ensures |s| >= 6 && s[0] == SLASH && s[1] == LOWER_U && (forall k :: 2 <= k < 6 ==> IsHexDigit(s[k])) ==>
              (Units(s).Some? <==> Units(s[6..]).Some?)
    ensures |s| >= 2 && s[0] == SLASH && s[1] != LOWER_U && IsShortEscape(s[1]) ==> (Units(s).Some? <==> Units(s[2..]).Some?)
    ensures s != [] && s[0] != SLASH && s[0] != QUOTE && s[0] >= 0x20 ==> (Units(s).Some? <==> Units(s[1..]).Some?)
    ensures Units([]).Some?
  {
    hide HexValue, ShortEscape;
  }

  lemma {:induction false} ScannedContentHasUnits(b: Bytes, i: nat)
    requires i <= |b| && StringTail(b, i).Got?
    ensures Units(b[i..StringTail(b, i).next - 1]).Some?
    decreases |b| - i
  {
    hide HexRun, IsShortEscape, Units, IsHexDigit;
    var j := StringTail(b, i).next - 1;
    var s := b[i..j];
    UnitsPeel(s);
    if b[i] == QUOTE {
      assert s == [];
    } else if b[i] == BACKSLASH {
      if b[i + 1] == LOWER_U {
        ScannedContentHasUnits(b, i + 6);
        HexRunDigits(b, i + 2, 4);
        assert s[6..] == b[i + 6..j];
        assert forall k :: 2 <= k < 6 ==> s[k] == b[i + k];
      } else {
        ScannedContentHasUnits(b, i + 2);
        assert s[2..] == b[i + 2..j];
      }
    } else {
      ScannedContentHasUnits(b, i + 1);
      assert s[1..] == b[i + 1..j];
    }
  }

  lemma {:induction false} HexRunDigits(b: Bytes, i: nat, n: nat)
    requires i <= |b| && HexRun(b, i, n).Got?
    ensures forall k :: i <= k < i + n ==> IsHexDigit(b[k])
    decreases n
  {
    if n > 0 {
      HexRunDigits(b, i + 1, n - 1);
    }
  }

  lemma {:induction false} DigitsMakeRun(b: Bytes, i: nat, n: nat)
    requires i + n <= |b| && forall k :: i <= k < i + n ==> IsHexDigit(b[k])
    ensures HexRun(b, i, n) == Got((), i + n)
    decreases n
  {
    if n > 0 {
      DigitsMakeRun(b, i + 1, n - 1);
    }
  }

  lemma {:induction false} UnitsAreScanned(b: Bytes, i: nat, j: nat)
    requires i <= j < |b| && b[j] == QUOTE && Units(b[i..j]).Some?
    ensures StringTail(b, i) == Got((), j + 1)
    decreases j - i
  {
    hide HexRun, HexValue, ShortEscape;
    var s := b[i..j];
    if s == [] {
      assert i == j;
    } else if s[0] == SLASH {
      if s[1] == LOWER_U {
        assert s[6..] == b[i + 6..j];
        assert forall k :: 2 <= k < 6 ==> s[k] == b[i + k];
        assert forall k :: i + 2 <= k < i + 6 ==> b[k] == s[k - i];
        DigitsMakeRun(b, i + 2, 4);
        UnitsAreScanned(b, i + 6, j);
      } else {
        assert s[2..] == b[i + 2..j];
        UnitsAreScanned(b, i + 2, j);
      }
    } else {
      assert s[1..] == b[i + 1..j];
      UnitsAreScanned(b, i + 1, j);
    }
  }

  /** The scanner ends a token at this quote exactly when the content before it splits into units. */
  lemma {:induction false} AcceptsExactlyUnits(b: Bytes, i: nat, j: nat)
    requires i <= j < |b| && b[j] == QUOTE
    ensures StringTail(b, i) == Got((), j + 1) <==> Units(b[i..j]).Some?
  {
    hide StringTail, Units;
    if StringTail(b, i) == Got((), j + 1) {
      ScannedContentHasUnits(b, i);
    }
    if Units(b[i..j]).Some? {
      UnitsAreScanned(b, i, j);
    }
  }

  predicate IsHighUnit(us: seq<Unit>, k: int) {
    0 <= k < |us| && us[k].Hex? && IsHigh(us[k].code)
  }

  predicate IsLowUnit(us: seq<Unit>, k: int) {
    0 <= k < |us| && us[k].Hex? && IsLow(us[k].code)
  }

  /** Unit `k` is half of a surrogate pair whose other half is not beside it. */
  predicate Unpaired(us: seq<Unit>, k: int) {
    (IsHighUnit(us, k) && !IsLowUnit(us, k + 1)) || (IsLowUnit(us, k) && !IsHighUnit(us, k - 1))
  }

  ghost predicate HasUnpaired(us: seq<Unit>) {
    exists k :: Unpaired(us, k)
  }

  /** Units in front that are complete in themselves do not affect the pairing behind them. */
  lemma {:induction false} PairingBehind(front: seq<Unit>, back: seq<Unit>)
    requires front != [] && !HasUnpaired(front)
    ensures HasUnpaired(front + back) <==> HasUnpaired(back)
  {
    var us := front + back;
    var n := |front|;
    assert !Unpaired(front, n - 1);
    forall k ensures Unpaired(us, k) <==> (k >= n && Unpaired(back, k - n)) {
      if k < n {
        assert !Unpaired(front, k);
      }
    }
    if HasUnpaired(back) {
      var k :| Unpaired(back, k);
      assert Unpaired(us, k + n);
    }
  }

  /** Octets above ASCII are plain units. */
  lemma {:induction false} PlainUnits(s: Bytes, k: nat)
    requires k <= |s| && (forall j :: 0 <= j < k ==> s[j] >= 0x80) && Units(s).Some?
    ensures var us := Units(s).value;
            && Units(s[k..]).Some? && |us| >= k && us[k..] == Units(s[k..]).value
            && forall j :: 0 <= j < k ==> us[j].Plain?
    decreases k
  {
    if k == 0 {
      assert s[0..] == s;
    } else {
      PlainUnits(s[1..], k - 1);
      assert s[1..][k - 1..] == s[k..];
      var us := Units(s).value;
      assert us[1..] == Units(s[1..]).value && us[k..] == us[1..][k - 1..];
      assert forall j :: 1 <= j < k ==> us[j] == us[1..][j - 1];
    }
  }

  lemma {:induction false} PlainAreUnpaired(us: seq<Unit>)
    requires forall k :: 0 <= k < |us| ==> !us[k].Hex? || (!IsHigh(us[k].code) && !IsLow(us[k].code))
    ensures !HasUnpaired(us)
  {
  }

  /** One raw character, decoded. */
  lemma {:induction false} RawCharacter(s: Bytes)
    requires s != [] && s[0] != SLASH && Valid(s) && Units(s).Some?
    ensures var k := First(s).value.length;
            Units(s[k..]).Some? && (HasUnpaired(Units(s).value) <==> HasUnpaired(Units(s[k..]).value))
  {
    hide Encode, HasUnpaired;
    var k := First(s).value.length;
    if s[0] < 0x80 {
      var front := [Plain(s[0])];
      PlainAreUnpaired(front);
      PairingBehind(front, Units(s[1..]).value);
    } else {
      MultiByte(s);
      PlainUnits(s, k);
      var us := Units(s).value;
      PlainAreUnpaired(us[..k]);
      PairingBehind(us[..k], us[k..]);
      assert us == us[..k] + us[k..];
    }
  }

  lemma {:induction false} MultiByte(s: Bytes)
    requires s != [] && s[0] >= 0x80 && First(s).Some?
    ensures forall j :: 0 <= j < First(s).value.length ==> s[j] >= 0x80
  {
  }

  /**
    On the content of any token the scanner accepts, `decode_string` declines exactly when the octets
    are not UTF-8 or some `\u` escape is half of a surrogate pair standing alone.
   */
  lemma {:induction false} DeclinesExactly(s: Bytes)
    requires Units(s).Some?
    ensures DecodeInner(s) == None <==> !Valid(s) || HasUnpaired(Units(s).value)
    decreases |s|
  {
    hide Valid, First, HasUnpaired;
    var us := Units(s).value;
    if s == [] {
      PlainAreUnpaired([]);
      assert Valid([]) by { ValidAfterAscii([], []); EmptyIsValid(); }
    } else if s[0] != SLASH {
      if Valid(s) {
        RawCharacter(s);
        ValidTail(s);
        DeclinesExactly(s[First(s).value.length..]);
      }
    } else {
      EscapeDeclines(s);
    }
  }

  lemma {:induction false} EmptyIsValid()
    ensures Valid([])
  {
  }

  lemma {:induction false} ValidTail(s: Bytes)
    requires s != [] && Valid(s)
    ensures First(s).Some? && Valid(s[First(s).value.length..])
  {
  }

  lemma {:induction false} AsciiFront(s: Bytes, k: nat)
    requires k <= |s| && forall j :: 0 <= j < k ==> s[j] < 0x80
    ensures Valid(s) <==> Valid(s[k..])
  {
    ValidAfterAscii(s[..k], s[k..]);
    assert s == s[..k] + s[k..];
  }

  lemma {:induction false} EscapeDeclines(s: Bytes)
    requires s != [] && s[0] == SLASH && Units(s).Some?
    ensures DecodeInner(s) == None <==> !Valid(s) || HasUnpaired(Units(s).value)
    decreases |s|, 1
  {
    hide Valid, First, HasUnpaired, HexValue;
    var us := Units(s).value;
    if s[1] != LOWER_U {
      var front := [Short(s[1])];
      PlainAreUnpaired(front);
      PairingBehind(front, Units(s[2..]).value);
      AsciiFront(s, 2);
      DeclinesExactly(s[2..]);
    } else {
      var u := us[0].code;
      assert s[2..6] == [s[2], s[3], s[4], s[5]];
      RadixOfDigits(s[2..6]);
      if IsHigh(u) {
        HighDeclines(s, u);
      } else if IsLow(u) {
        HasUnpairedIntro(us, 0);
      } else {
        var front := [Hex(u)];
        PlainAreUnpaired(front);
        PairingBehind(front, Units(s[6..]).value);
        AsciiFront(s, 6);
        DeclinesExactly(s[6..]);
      }
    }
  }

  lemma {:induction false} HasUnpairedIntro(us: seq<Unit>, k: int)
    requires Unpaired(us, k)
    ensures HasUnpaired(us)
  {
  }

  lemma {:induction false} HighDeclines(s: Bytes, u: int)
    requires |s| >= 6 && s[0] == SLASH && s[1] == LOWER_U && Units(s).Some? && Units(s).value[0] == Hex(u) && IsHigh(u)
    requires Radix16(s[2..6]) == Some(u)
    ensures DecodeInner(s) == None <==> !Valid(s) || HasUnpaired(Units(s).value)
    decreases |s|, 0
  {
    hide Valid, First, HasUnpaired, HexValue;
    var us := Units(s).value;
    var t := s[6..];
    var ut := Units(t).value;
    assert us == [Hex(u)] + ut;
    if |t| >= 2 && t[0] == SLASH && t[1] == LOWER_U {
      var l := ut[0].code;
      assert t[2..6] == [t[2], t[3], t[4], t[5]] && s[8..12] == t[2..6];
      RadixOfDigits(t[2..6]);
      if IsLow(l) {
        var front := [Hex(u), Hex(l)];
        assert t[6..] == s[12..];
        assert us == front + Units(t[6..]).value;
        PairIsPaired(u, l);
        PairingBehind(front, Units(s[12..]).value);
        AsciiFront(s, 6);
        AsciiFront(t, 6);
        DeclinesExactly(s[12..]);
      } else {
        HasUnpairedIntro(us, 0);
      }
    } else {
      assert !IsLowUnit(us, 1);
      HasUnpairedIntro(us, 0);
    }
  }

  lemma {:induction false} PairIsPaired(u: int, l: int)
    requires IsHigh(u) && IsLow(l)
    ensures !HasUnpaired([Hex(u), Hex(l)])
  {
    var us := [Hex(u), Hex(l)];
    forall k ensures !Unpaired(us, k) {
      if k == 0 {
        assert IsLowUnit(us, 1);
      } else if k == 1 {
        assert IsHighUnit(us, 0);
      }
    }
  }
}
