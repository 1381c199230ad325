/** The texts that `f64::from_str` reads. */
module FloatSyntax {
  import opened Prelude
  import opened Utf8

  predicate IsDecimalChar(c: int) {
    0x30 <= c <= 0x39
  }

  function DecimalRun(t: Text, i: nat): (j: nat)
    requires i <= |t|
    ensures i <= j <= |t|
    decreases |t| - i
  {
    if i < |t| && IsDecimalChar(t[i]) then DecimalRun(t, i + 1) else i
  }

  function SkipSign(t: Text, i: nat): (j: nat)
    requires i <= |t|
    ensures i <= j <= |t|
  {
    if i < |t| && (t[i] == 0x2B || t[i] == 0x2D) then i + 1 else i
  }

  /** The decimal syntax `f64::from_str` reads: a sign, digits around an optional dot, an exponent. */
  predicate DecimalFloat(t: Text) {
    var a := SkipSign(t, 0);
    var j := DecimalRun(t, a);
    var dot := j < |t| && t[j] == 0x2E;
    var k := if dot then DecimalRun(t, j + 1) else j;
    && (j > a || (dot && k > j + 1))
    && (k == |t| ||
        ((t[k] == 0x65 || t[k] == 0x45) &&
         var e := SkipSign(t, k + 1); e < |t| && DecimalRun(t, e) == |t|))
  }

  // ---------------------------------------------------------------- the decimal syntax as a grammar

  predicate AllDecimal(d: Text) {
    forall k :: 0 <= k < |d| ==> '0' as int <= d[k] <= '9' as int
  }

  predicate IsSign(s: Text) {
    s == [] || s == ['+' as int] || s == ['-' as int]
  }

  datatype FloatParts = FloatParts(sign: Text, whole: Text, point: Text, fraction: Text, mark: Text, expSign: Text, expDigits: Text)

  /** Digits before or behind the point, and digits in an exponent. */
  predicate AreParts(p: FloatParts) {
    && IsSign(p.sign) && AllDecimal(p.whole) && AllDecimal(p.fraction) && p.whole + p.fraction != []
    && (p.point == ['.' as int] || (p.point == [] && p.fraction == []))
    && if p.mark == [] then p.expSign == [] && p.expDigits == []
       else (p.mark == ['e' as int] || p.mark == ['E' as int]) && IsSign(p.expSign) && AllDecimal(p.expDigits) && p.expDigits != []
  }

  function ExponentOf(p: FloatParts): Text {
    p.mark + (p.expSign + p.expDigits)
  }

  function Joined(p: FloatParts): Text {
    p.sign + (p.whole + (p.point + (p.fraction + ExponentOf(p))))
  }

  ghost predicate IsDecimalText(t: Text) {
    exists p :: AreParts(p) && t == Joined(p)
  }

  lemma {:induction false} RunIs(t: Text, i: nat, d: Text, rest: Text)
    requires i <= |t| && t[i..] == d + rest && AllDecimal(d) && (rest != [] ==> !IsDecimalChar(rest[0]))
    ensures DecimalRun(t, i) == i + |d| && t[i + |d|..] == rest
    decreases d
  {
    assert t[i + |d|..] == t[i..][|d|..] == rest;
    if d != [] {
      assert t[i] == t[i..][0] == d[0];
      assert t[i + 1..] == t[i..][1..] == d[1..] + rest;
      RunIs(t, i + 1, d[1..], rest);
    } else if rest != [] {
      assert t[i] == rest[0];
    }
  }

  lemma {:induction false} SignIs(t: Text, i: nat, sign: Text, rest: Text)
    requires i <= |t| && t[i..] == sign + rest && IsSign(sign) && rest != [] && rest[0] != 0x2B && rest[0] != 0x2D
    ensures SkipSign(t, i) == i + |sign| && t[i + |sign|..] == rest
  {
    assert t[i] == t[i..][0];
    assert t[i + |sign|..] == t[i..][|sign|..] == rest;
  }

  lemma {:induction false} RunDigits(t: Text, i: nat)
    requires i <= |t|
    ensures AllDecimal(t[i..DecimalRun(t, i)])
    decreases |t| - i
  {
    if i < |t| && IsDecimalChar(t[i]) {
      RunDigits(t, i + 1);
      assert t[i..DecimalRun(t, i)] == [t[i]] + t[i + 1..DecimalRun(t, i)];
    }
  }

  /** An exponent behind the digits. */
  predicate ExponentAt(t: Text, k: nat)
    requires k <= |t|
  {
    k == |t| || ((t[k] == 0x65 || t[k] == 0x45) && var e := SkipSign(t, k + 1); e < |t| && DecimalRun(t, e) == |t|)
  }

  lemma {:induction false} ExponentStands(t: Text, k: nat, p: FloatParts)
    requires AreParts(p) && k <= |t| && t[k..] == ExponentOf(p)
    ensures ExponentAt(t, k)
  {
    if p.mark != [] {
      assert t[k] == t[k..][0] && t[k + 1..] == t[k..][1..] == p.expSign + p.expDigits;
      SignIs(t, k + 1, p.expSign, p.expDigits);
      assert p.expDigits + [] == p.expDigits;
      RunIs(t, k + 1 + |p.expSign|, p.expDigits, []);
    }
  }

  /** What may stand behind the digits `t[a..j]`. */
  predicate EndsFloat(t: Text, a: nat, j: nat)
    requires a <= j <= |t|
  {
    var dot := j < |t| && t[j] == 0x2E;
    var k := if dot then DecimalRun(t, j + 1) else j;
    (j > a || (dot && k > j + 1)) && ExponentAt(t, k)
  }

  /** The definition, cut behind the first digits. */
  lemma {:induction false} FloatIs(t: Text)
    ensures var a := SkipSign(t, 0); DecimalFloat(t) <==> EndsFloat(t, a, DecimalRun(t, a))
  {
    hide DecimalRun, SkipSign;
  }

  lemma {:induction false} JoinedIsFloat(t: Text, p: FloatParts)
    requires AreParts(p) && t == Joined(p)
    ensures DecimalFloat(t)
  {
    hide AllDecimal, IsSign, DecimalRun, SkipSign, ExponentOf, EndsFloat, DecimalFloat, AreParts;
    var tail := p.point + (p.fraction + ExponentOf(p));
    PartStarts(p);
    var a := |p.sign|;
    assert t[0..] == p.sign + (p.whole + tail);
    SignIs(t, 0, p.sign, p.whole + tail);
    RunIs(t, a, p.whole, tail);
    BehindWhole(t, a, a + |p.whole|, p);
    FloatIs(t);
  }

  /** From the end of the digits before the point. */
  lemma {:induction false} BehindWhole(t: Text, a: nat, j: nat, p: FloatParts)
    requires AreParts(p) && a + |p.whole| == j <= |t| && t[j..] == p.point + (p.fraction + ExponentOf(p))
    ensures EndsFloat(t, a, j)
  {
    hide AllDecimal, IsSign, DecimalRun, SkipSign, ExponentOf, ExponentAt;
    PartStarts(p);
    if p.point == [] {
      assert t[j..] == ExponentOf(p);
      ExponentStands(t, j, p);
      assert j < |t| ==> t[j] == t[j..][0];
    } else {
      assert t[j] == t[j..][0] && t[j + 1..] == t[j..][1..] == p.fraction + ExponentOf(p);
      RunIs(t, j + 1, p.fraction, ExponentOf(p));
      ExponentStands(t, j + 1 + |p.fraction|, p);
    }
  }

  /** What the parts begin with. */
  lemma {:induction false} PartStarts(p: FloatParts)
    requires AreParts(p)
    ensures var tail := p.point + (p.fraction + ExponentOf(p));
            && (tail != [] ==> !IsDecimalChar(tail[0]))
            && p.whole + tail != [] && (p.whole + tail)[0] != 0x2B && (p.whole + tail)[0] != 0x2D
    ensures ExponentOf(p) != [] ==> var c := ExponentOf(p)[0]; !IsDecimalChar(c) && c != 0x2E
    ensures IsSign(p.sign) && AllDecimal(p.whole) && AllDecimal(p.fraction)
    ensures p.whole != [] || (p.point != [] && p.fraction != [])
  {
  }

  lemma {:induction false} ExponentCut(t: Text, k: nat) returns (mark: Text, sign: Text, digits: Text)
    requires k <= |t| && ExponentAt(t, k)
    ensures t[k..] == mark + (sign + digits)
    ensures if mark == [] then sign == [] && digits == []
            else (mark == ['e' as int] || mark == ['E' as int]) && IsSign(sign) && AllDecimal(digits) && digits != []
  {
    hide DecimalRun;
    mark, sign, digits := [], [], [];
    if k < |t| {
      var e := SkipSign(t, k + 1);
      RunDigits(t, e);
      mark, sign, digits := [t[k]], t[k + 1..e], t[e..];
      assert t[e..|t|] == digits;
      assert t[k..] == [t[k]] + t[k + 1..] && t[k + 1..] == sign + digits;
    }
  }

  lemma {:induction false} FloatHasParts(t: Text) returns (p: FloatParts)
    requires DecimalFloat(t)
    ensures AreParts(p) && t == Joined(p)
  {
    hide DecimalRun, AllDecimal, SkipSign, ExponentAt, DecimalFloat, IsSign, AreParts, Joined, ExponentOf;
    FloatIs(t);
    var a := SkipSign(t, 0);
    var j := DecimalRun(t, a);
    SignCut(t);
    RunDigits(t, a);
    if j < |t| && t[j] == 0x2E {
      RunDigits(t, j + 1);
      p := CutParts(t, a, j, j + 1, DecimalRun(t, j + 1));
    } else {
      NoDigits(t, j);
      p := CutParts(t, a, j, j, j);
    }
  }

  lemma {:induction false} CutParts(t: Text, a: nat, j: nat, f: nat, k: nat) returns (p: FloatParts)
    requires a <= j <= f <= k <= |t| && IsSign(t[..a]) && AllDecimal(t[a..j]) && AllDecimal(t[f..k]) && ExponentAt(t, k)
    requires j > a || k > f
    requires (f == j + 1 && t[j] == 0x2E) || f == j == k
    ensures AreParts(p) && t == Joined(p)
  {
    hide AllDecimal, ExponentAt, IsSign;
    var mark, sign, digits := ExponentCut(t, k);
    p := FloatParts(t[..a], t[a..j], t[j..f], t[f..k], mark, sign, digits);
    Pieces(t, a, j, f, k);
  }

  lemma {:induction false} Pieces(t: Text, a: nat, j: nat, f: nat, k: nat)
    requires a <= j <= f <= k <= |t|
    ensures t == t[..a] + (t[a..j] + (t[j..f] + (t[f..k] + t[k..])))
  {
    assert t[f..] == t[f..k] + t[k..];
    assert t[j..] == t[j..f] + t[f..];
    assert t[a..] == t[a..j] + t[j..];
  }

  lemma {:induction false} SignCut(t: Text)
    ensures IsSign(t[..SkipSign(t, 0)])
  {
  }

  lemma {:induction false} NoDigits(t: Text, j: nat)
    requires j <= |t|
    ensures AllDecimal(t[j..j])
  {
  }

  /** `f64::from_str` reads exactly the texts of the grammar, and the named floats. */
  lemma {:induction false} DecimalFloatIff(t: Text)
    ensures DecimalFloat(t) <==> IsDecimalText(t)
  {
    hide DecimalFloat, AreParts, Joined;
    if DecimalFloat(t) {
      var p := FloatHasParts(t);
    }
    if IsDecimalText(t) {
      var p :| AreParts(p) && t == Joined(p);
      JoinedIsFloat(t, p);
    }
  }

  // ---------------------------------------------------------------- the named floats

  /** `word` with any of its small letters made capital. */
  predicate SpellsWord(t: Text, word: string) {
    |t| == |word| && forall k :: 0 <= k < |word| ==> t[k] == word[k] as int || t[k] as int + 32 == word[k] as int
  }

  ghost predicate IsNamedText(t: Text) {
    exists sign, name :: IsSign(sign) && t == sign + name
      && (SpellsWord(name, "inf") || SpellsWord(name, "infinity") || SpellsWord(name, "nan"))
  }

  function Lower(c: Scalar): Scalar {
    if 0x41 <= c <= 0x5A then c + 32 else c
  }

  predicate SameLetters(t: Text, word: Text) {
    |t| == |word| && forall k :: 0 <= k < |t| ==> Lower(t[k]) == word[k]
  }

  /** `inf`, `infinity` and `nan`, in any case and with a sign. */
  predicate NamedFloat(t: Text) {
    var name := t[SkipSign(t, 0)..];
    || SameLetters(name, [0x69, 0x6E, 0x66])
    || SameLetters(name, [0x69, 0x6E, 0x66, 0x69, 0x6E, 0x69, 0x74, 0x79])
    || SameLetters(name, [0x6E, 0x61, 0x6E])
  }

  /** A float's text is ASCII. */
  predicate IsFloat(s: Bytes) {
    (forall k :: 0 <= k < |s| ==> s[k] < 0x80) && (DecimalFloat(Plain(s)) || NamedFloat(Plain(s)))
  }

  /** ASCII octets as characters. */
  function Plain(s: Bytes): Text
    requires forall k :: 0 <= k < |s| ==> s[k] < 0x80
  {
    s
  }

  lemma {:induction false} SpellsIffSame(t: Text)
    ensures SpellsWord(t, "inf") <==> SameLetters(t, [0x69, 0x6E, 0x66])
    ensures SpellsWord(t, "infinity") <==> SameLetters(t, [0x69, 0x6E, 0x66, 0x69, 0x6E, 0x69, 0x74, 0x79])
    ensures SpellsWord(t, "nan") <==> SameLetters(t, [0x6E, 0x61, 0x6E])
  {
    LettersOf(t, "inf", [0x69, 0x6E, 0x66]);
    LettersOf(t, "infinity", [0x69, 0x6E, 0x66, 0x69, 0x6E, 0x69, 0x74, 0x79]);
    LettersOf(t, "nan", [0x6E, 0x61, 0x6E]);
  }

  lemma {:induction false} LettersOf(t: Text, word: string, code: Text)
    requires |word| == |code| && forall k :: 0 <= k < |word| ==> 'a' <= word[k] <= 'z' && word[k] as int == code[k]
    ensures SpellsWord(t, word) <==> SameLetters(t, code)
  {
  }

  lemma {:induction false} NamedFloatIff(t: Text)
    ensures NamedFloat(t) <==> IsNamedText(t)
  {
    hide SameLetters, SpellsWord;
    var a := SkipSign(t, 0);
    SpellsIffSame(t[a..]);
    if NamedFloat(t) {
      SignCut(t);
      assert t == t[..a] + t[a..];
    }
    if IsNamedText(t) {
      var sign, name :| IsSign(sign) && t == sign + name
        && (SpellsWord(name, "inf") || SpellsWord(name, "infinity") || SpellsWord(name, "nan"));
      NameStart(name);
      assert t[0..] == t;
      SignIs(t, 0, sign, name);
    }
  }

  lemma {:induction false} NameStart(name: Text)
    requires SpellsWord(name, "inf") || SpellsWord(name, "infinity") || SpellsWord(name, "nan")
    ensures name != [] && name[0] != 0x2B && name[0] != 0x2D
  {
  }

  /** A double's text: ASCII, and a decimal or a named float. */
  lemma {:induction false} FloatIff(s: Bytes)
    ensures IsFloat(s) <==> (forall k :: 0 <= k < |s| ==> s[k] < 0x80) && (IsDecimalText(Plain(s)) || IsNamedText(Plain(s)))
  {
    hide DecimalFloat, NamedFloat, IsDecimalText, IsNamedText;
    if forall k :: 0 <= k < |s| ==> s[k] < 0x80 {
      DecimalFloatIff(Plain(s));
      NamedFloatIff(Plain(s));
    }
  }
}
