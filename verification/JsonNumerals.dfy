/**
  Which printed text parses when the number lexemes are taken on trust: exactly the text whose every
  lexeme is a number of section 6 of RFC 8259.
 */
module JsonNumerals {
  import opened Prelude
  import opened JsonStrings
  import opened JsonDom
  import opened JsonStability
  import opened JsonText
  import opened JsonRoundTrip

  /** The characters a finite decimal float can be written with. */
  predicate IsFloatChar(c: int) {
    0x30 <= c <= 0x39 || c == 0x2B || c == 0x2D || c == 0x2E || c == 0x65 || c == 0x45
  }

  predicate FloatText(s: Bytes) {
    s != [] && forall k :: 0 <= k < |s| ==> IsFloatChar(s[k])
  }

  /** Every number lexeme is made of float characters; whether it is a JSON number is left open. */
  predicate Floaty(j: Json)
    decreases j
  {
    match j
    case JNumber(lexeme) => FloatText(lexeme)
    case JArray(items) => forall k :: 0 <= k < |items| ==> Floaty(items[k])
    case JObject(members) => forall k :: 0 <= k < |members| ==> Floaty(members[k].value)
    case _ => true
  }

  /** `j` is followed by what ends a value in printed text. */
  predicate Ends(b: Bytes, k: nat) {
    k <= |b| && (k < |b| ==> b[k] in {COMMA, CLOSE_BRACKET, CLOSE_BRACE})
  }

  lemma {:induction false} DigitsAreFloat(b: Bytes, i: nat)
    requires i <= |b|
    ensures forall k :: i <= k < Digits(b, i) ==> IsFloatChar(b[k])
    decreases |b| - i
  {
    if i < |b| && IsDigit(b[i]) {
      DigitsAreFloat(b, i + 1);
    }
  }

  /** A number token is made of float characters. */
  lemma {:induction false} SpanIsFloat(b: Bytes, i: nat)
    requires i <= |b| && NumberSpan(b, i).Got?
    ensures forall k :: i <= k < NumberSpan(b, i).next ==> IsFloatChar(b[k])
  {
    hide Digits;
    var a := AfterMinus(b, i);
    var j := IntPart(b, a).next;
    DigitsAreFloat(b, a);
    var k := Fraction(b, j).next;
    if At(b, j, DOT) {
      DigitsAreFloat(b, j + 1);
    }
    if AtExponent(b, k) {
      DigitsAreFloat(b, AfterSign(b, k + 1));
    }
  }

  /** What a successful parse of printed text says: all of it was read, or a number stopped short. */
  ghost predicate ReadOrStopped(b: Bytes, next: nat, end: nat, ok: bool) {
    if ok then next == end else next < end <= |b| && IsFloatChar(b[next])
  }

  lemma {:induction false} NumberStops(b: Bytes, max: nat, depth: nat, i: nat, lexeme: Bytes)
    requires FloatText(lexeme) && Carries(b, i, lexeme) && Ends(b, i + |lexeme|) && Value(b, max, depth, i).Got?
    ensures ReadOrStopped(b, Value(b, max, depth, i).next, i + |lexeme|, IsNumber(lexeme))
  {
    hide NumberSpan, StringSpan, Ws, ArrayAt, ObjectAt;
    var end := i + |lexeme|;
    CarriesAt(b, i, lexeme, 0);
    TokenStartIsNotBlank(b, i);
    if IsNumber(lexeme) {
      NumberReads(b, max, depth, i, lexeme);
    } else {
      var next := NumberSpan(b, i).next;
      SpanIsFloat(b, i);
      if next >= end {
        assert next == end;
        forall k | i <= k < end ensures lexeme[k - i] == b[k] {
          CarriesAt(b, i, lexeme, k - i);
        }
        var d: int := 0 - i;
        assert Agree(b, lexeme, d, i, end);
        NumberSpanMoves(b, lexeme, d, i);
      } else {
        CarriesAt(b, i, lexeme, next - i);
      }
    }
  }

  lemma {:induction false} PrintedStops(b: Bytes, max: nat, depth: nat, i: nat, j: Json)
    requires Floaty(j) && Carries(b, i, PrintJson(j)) && Ends(b, i + |PrintJson(j)|) && Value(b, max, depth, i).Got?
    ensures ReadOrStopped(b, Value(b, max, depth, i).next, i + |PrintJson(j)|, Lexical(j))
    decreases j, 0
  {
    hide Value, IsNumber, ReadJson;
    match j
    case JNumber(lexeme) => NumberStops(b, max, depth, i, lexeme);
    case JArray(items) => ArrayStops(b, max, depth, i, items);
    case JObject(members) => ObjectStops(b, max, depth, i, members);
    case _ =>
      GotHasRoom(b, max, depth, i);
      PrintedReads(b, max, depth, i, j);
  }

  lemma {:induction false} GotHasRoom(b: Bytes, max: nat, depth: nat, i: nat)
    requires i <= |b| && Value(b, max, depth, i).Got?
    ensures depth < max
  {
  }

  lemma {:induction false} FloatyStart(j: Json)
    requires Floaty(j)
    ensures PrintJson(j) != []
    ensures var c := PrintJson(j)[0]; !IsWs(c) && c != CLOSE_BRACKET && c != CLOSE_BRACE
  {
  }

  predicate FloatyItems(items: seq<Json>) {
    forall k :: 0 <= k < |items| ==> Floaty(items[k])
  }

  lemma {:induction false} ArrayStops(b: Bytes, max: nat, depth: nat, i: nat, items: seq<Json>)
    requires FloatyItems(items) && Carries(b, i, PrintJson(JArray(items))) && Value(b, max, depth, i).Got?
    ensures Value(b, max, depth, i).next == i + |PrintJson(JArray(items))| && LexicalItems(items)
    decreases items, 3
  {
    hide Items, Ws, PrintItems, Token, ObjectAt, Floaty, Lexical;
    var body := PrintItems(items);
    assert PrintJson(JArray(items)) == [OPEN_BRACKET] + (body + [CLOSE_BRACKET]);
    CarriesParts(b, i, [OPEN_BRACKET], body + [CLOSE_BRACKET]);
    CarriesAt(b, i, [OPEN_BRACKET], 0);
    TokenStartIsNotBlank(b, i);
    if items == [] {
      assert body == [] by { PrintNoItems(); }
      assert body + [CLOSE_BRACKET] == [CLOSE_BRACKET];
      CarriesAt(b, i + 1, [CLOSE_BRACKET], 0);
      TokenStartIsNotBlank(b, i + 1);
    } else {
      FloatyItemsStart(items);
      CarriesParts(b, i + 1, body, [CLOSE_BRACKET]);
      CarriesAt(b, i + 1, body, 0);
      TokenStartIsNotBlank(b, i + 1);
      ItemsStop(b, max, depth + 1, i + 1, items);
    }
  }

  lemma {:induction false} FloatyItemsStart(items: seq<Json>)
    requires items != [] && FloatyItems(items)
    ensures PrintItems(items) != []
    ensures var c := PrintItems(items)[0]; !IsWs(c) && c != CLOSE_BRACKET
  {
    hide PrintJson;
    FloatyStart(items[0]);
  }

  lemma {:induction false} ItemsStop(b: Bytes, max: nat, depth: nat, i: nat, items: seq<Json>)
    requires items != [] && FloatyItems(items)
    requires Carries(b, i, PrintItems(items) + [CLOSE_BRACKET]) && Items(b, max, depth, i).Got?
    ensures Items(b, max, depth, i).next == i + |PrintItems(items)| + 1 && LexicalItems(items)
    decreases items, 2
  {
    hide Value, Ws, PrintJson, Lexical, Floaty, Carries, PrintItems;
    var w := i + |PrintJson(items[0])|;
    if |items| == 1 {
      PrintOneItem(items);
      CarriesParts(b, i, PrintJson(items[0]), [CLOSE_BRACKET]);
      CarriesFits(b, w, [CLOSE_BRACKET]);
      CarriesAt(b, w, [CLOSE_BRACKET], 0);
      PrintedStops(b, max, depth, i, items[0]);
      StopIsNotSeparator(b, Value(b, max, depth, i).next, w);
    } else {
      MoreItemsStop(b, max, depth, i, items);
    }
  }

  lemma {:induction false} PrintOneItem(items: seq<Json>)
    requires |items| == 1
    ensures PrintItems(items) == PrintJson(items[0])
  {
  }

  lemma {:induction false} MoreItemsStop(b: Bytes, max: nat, depth: nat, i: nat, items: seq<Json>)
    requires |items| > 1 && FloatyItems(items)
    requires Carries(b, i, PrintItems(items) + [CLOSE_BRACKET]) && Items(b, max, depth, i).Got?
    ensures Items(b, max, depth, i).next == i + |PrintItems(items)| + 1 && LexicalItems(items)
    decreases items, 1
  {
    hide Value, Ws, PrintJson, Lexical, Floaty, Carries, PrintItems, IsWs;
    var first := PrintJson(items[0]);
    var rest := PrintItems(items[1..]);
    var w := i + |first|;
    PrintMoreItems(items);
    CarriesParts(b, i, first, [COMMA] + (rest + [CLOSE_BRACKET]));
    CarriesParts(b, w, [COMMA], rest + [CLOSE_BRACKET]);
    CarriesFits(b, w, [COMMA]);
    CarriesAt(b, w, [COMMA], 0);
    CommaStops(b, w);
    PrintedStops(b, max, depth, i, items[0]);
    StopIsNotSeparator(b, Value(b, max, depth, i).next, w);
    ItemsStop(b, max, depth, w + 1, items[1..]);
    assert items == [items[0]] + items[1..];
  }

  /** A float character that stopped a value is neither blank nor a separator. */
  lemma {:induction false} StopIsNotSeparator(b: Bytes, next: nat, end: nat)
    requires next <= |b| && end < |b| && b[end] in {COMMA, CLOSE_BRACKET, CLOSE_BRACE}
    ensures Ws(b, end) == end
    ensures next < end && IsFloatChar(b[next]) ==> Ws(b, next) == next && b[next] !in {COMMA, CLOSE_BRACKET, CLOSE_BRACE}
  {
  }

  predicate FloatyMembers(ms: seq<JMember>) {
    forall k :: 0 <= k < |ms| ==> Floaty(ms[k].value)
  }

  lemma {:induction false} ObjectStops(b: Bytes, max: nat, depth: nat, i: nat, members: seq<JMember>)
    requires FloatyMembers(members) && Carries(b, i, PrintJson(JObject(members))) && Value(b, max, depth, i).Got?
    ensures Value(b, max, depth, i).next == i + |PrintJson(JObject(members))| && LexicalMembers(members)
    decreases members, 3
  {
    hide Members, Ws, PrintMembers, Token, ArrayAt, Numbered, Floaty, Lexical;
    var body := PrintMembers(members);
    assert PrintJson(JObject(members)) == [OPEN_BRACE] + (body + [CLOSE_BRACE]);
    CarriesParts(b, i, [OPEN_BRACE], body + [CLOSE_BRACE]);
    CarriesAt(b, i, [OPEN_BRACE], 0);
    TokenStartIsNotBlank(b, i);
    if members == [] {
      assert body == [] by { PrintNoMembers(); }
      assert body + [CLOSE_BRACE] == [CLOSE_BRACE];
      CarriesAt(b, i + 1, [CLOSE_BRACE], 0);
      TokenStartIsNotBlank(b, i + 1);
    } else {
      MembersStart(members);
      CarriesParts(b, i + 1, body, [CLOSE_BRACE]);
      CarriesAt(b, i + 1, body, 0);
      TokenStartIsNotBlank(b, i + 1);
      MembersStop(b, max, depth + 1, i + 1, members);
    }
  }

  lemma {:induction false} PairStops(b: Bytes, max: nat, depth: nat, i: nat, m: JMember)
    requires Floaty(m.value) && Carries(b, i, PrintMember(m)) && Ends(b, i + |PrintMember(m)|) && Pair(b, max, depth, i).Got?
    ensures ReadOrStopped(b, Pair(b, max, depth, i).next, i + |PrintMember(m)|, Lexical(m.value))
    decreases m, 1
  {
    hide Value, Ws, PrintJson, Lexical, Floaty, JsonString, StringSpan, IsWs, Carries, DecodeString, IsFloatChar;
    var k := JsonString(m.key);
    var v := PrintJson(m.value);
    assert PrintMember(m) == k + ([COLON] + v);
    CarriesParts(b, i, k, [COLON] + v);
    CarriesParts(b, i + |k|, [COLON], v);
    CarriesAt(b, i + |k|, [COLON], 0);
    CarriesFits(b, i + |k|, [COLON]);
    StringReads(b, i, m.key);
    QuoteOrColonStops(b, i);
    QuoteOrColonStops(b, i + |k|);
    CarriesFits(b, i + |k| + 1, v);
    PrintedStops(b, max, depth, i + |k| + 1, m.value);
  }

  lemma {:induction false} QuoteOrColonStops(b: Bytes, w: nat)
    requires w < |b| && (b[w] == QUOTE || b[w] == COLON)
    ensures Ws(b, w) == w
  {
  }

  lemma {:induction false} MembersStop(b: Bytes, max: nat, depth: nat, i: nat, members: seq<JMember>)
    requires members != [] && FloatyMembers(members)
    requires Carries(b, i, PrintMembers(members) + [CLOSE_BRACE]) && Members(b, max, depth, i).Got?
    ensures Members(b, max, depth, i).next == i + |PrintMembers(members)| + 1 && LexicalMembers(members)
    decreases members, 2
  {
    hide Pair, Ws, PrintMember, Lexical, Floaty, Carries, PrintMembers;
    var w := i + |PrintMember(members[0])|;
    if |members| == 1 {
      PrintOneMember(members);
      CarriesParts(b, i, PrintMember(members[0]), [CLOSE_BRACE]);
      CarriesFits(b, w, [CLOSE_BRACE]);
      CarriesAt(b, w, [CLOSE_BRACE], 0);
      PairStops(b, max, depth, i, members[0]);
      StopIsNotSeparator(b, Pair(b, max, depth, i).next, w);
    } else {
      MoreMembersStop(b, max, depth, i, members);
    }
  }

  lemma {:induction false} PrintOneMember(members: seq<JMember>)
    requires |members| == 1
    ensures PrintMembers(members) == PrintMember(members[0])
  {
  }

  lemma {:induction false} MoreMembersStop(b: Bytes, max: nat, depth: nat, i: nat, members: seq<JMember>)
    requires |members| > 1 && FloatyMembers(members)
    requires Carries(b, i, PrintMembers(members) + [CLOSE_BRACE]) && Members(b, max, depth, i).Got?
    ensures Members(b, max, depth, i).next == i + |PrintMembers(members)| + 1 && LexicalMembers(members)
    decreases members, 1
  {
    hide Pair, Ws, PrintMember, Lexical, Floaty, Carries, PrintMembers, IsWs;
    var first := PrintMember(members[0]);
    var rest := PrintMembers(members[1..]);
    var w := i + |first|;
    PrintMoreMembers(members);
    CarriesParts(b, i, first, [COMMA] + (rest + [CLOSE_BRACE]));
    CarriesParts(b, w, [COMMA], rest + [CLOSE_BRACE]);
    CarriesFits(b, w, [COMMA]);
    CarriesAt(b, w, [COMMA], 0);
    CommaStops(b, w);
    PairStops(b, max, depth, i, members[0]);
    StopIsNotSeparator(b, Pair(b, max, depth, i).next, w);
    MembersStop(b, max, depth, w + 1, members[1..]);
    assert members == [members[0]] + members[1..];
  }

  /** Printed text parses under a limit that fits it exactly when every lexeme is a JSON number. */
  lemma {:induction false} ParsesIffLexical(j: Json, max: nat)
    requires Floaty(j)
    ensures ParseDocument(PrintJson(j), max).Ok? ==> Lexical(j)
    ensures Levels(j, max) ==> (ParseDocument(PrintJson(j), max).Ok? <==> Lexical(j))
  {
    hide Value, PrintJson, Lexical, Levels, Ws, Floaty, ReadJson;
    var s := PrintJson(j);
    assert Carries(s, 0, s);
    if ParseDocument(s, max).Ok? {
      PrintedStops(s, max, 0, 0, j);
      FloatIsNotBlank(s, Value(s, max, 0, 0).next);
    }
    if Lexical(j) && Levels(j, max) {
      PrintThenParse(j, max);
    }
  }

  lemma {:induction false} FloatIsNotBlank(b: Bytes, k: nat)
    requires k <= |b|
    ensures k < |b| && IsFloatChar(b[k]) ==> Ws(b, k) == k
  {
  }

  // ---------------------------------------------------------------- the grammar of section 6

  predicate AllDigits(s: Bytes) {
    forall k :: 0 <= k < |s| ==> '0' as int <= s[k] <= '9' as int
  }

  predicate IsMinusPart(s: Bytes) {
    s == [] || s == ['-' as int]
  }

  predicate IsIntPart(s: Bytes) {
    s == ['0' as int] || (s != [] && AllDigits(s) && s[0] != '0' as int)
  }

  predicate IsFracPart(s: Bytes) {
    s == [] || (|s| > 1 && s[0] == '.' as int && AllDigits(s[1..]))
  }

  predicate IsExpPart(s: Bytes) {
    s == [] ||
    (|s| > 1 && (s[0] == 'e' as int || s[0] == 'E' as int) &&
     (AllDigits(s[1..]) || (|s| > 2 && (s[1] == '+' as int || s[1] == '-' as int) && AllDigits(s[2..]))))
  }

  /** `s` is derived by the grammar: an optional minus, an integer, then optional fraction and exponent. */
  ghost predicate Derived(s: Bytes, minus: Bytes, whole: Bytes, frac: Bytes, exp: Bytes) {
    && s == minus + whole + frac + exp
    && IsMinusPart(minus) && IsIntPart(whole) && IsFracPart(frac) && IsExpPart(exp)
  }

  ghost predicate RfcNumber(s: Bytes) {
    exists minus, whole, frac, exp :: Derived(s, minus, whole, frac, exp)
  }

  lemma {:induction false} DigitsSlice(b: Bytes, i: nat)
    requires i <= |b|
    ensures AllDigits(b[i..Digits(b, i)])
    decreases |b| - i
  {
    if i < |b| && IsDigit(b[i]) {
      DigitsSlice(b, i + 1);
      assert b[i..Digits(b, i)][1..] == b[i + 1..Digits(b, i)];
      assert forall k :: 1 <= k < |b[i..Digits(b, i)]| ==> b[i..Digits(b, i)][k] == b[i + 1..Digits(b, i)][k - 1];
    }
  }

  lemma {:induction false} DigitsRun(b: Bytes, i: nat, j: nat)
    requires i <= j <= |b| && AllDigits(b[i..j]) && (j < |b| ==> !IsDigit(b[j]))
    ensures Digits(b, i) == j
    decreases j - i
  {
    if i < j {
      assert b[i] == b[i..j][0];
      assert b[i + 1..j] == b[i..j][1..];
      DigitsRun(b, i + 1, j);
    }
  }

  /** The scanner accepts nothing but the grammar. */
  lemma {:induction false} ScannedIsDerived(s: Bytes)
    requires IsNumber(s)
    ensures RfcNumber(s)
  {
    hide IntPart, Fraction, Exponent, IsIntPart, IsFracPart, IsExpPart;
    var a := AfterMinus(s, 0);
    var j := IntPart(s, a).next;
    var k := Fraction(s, j).next;
    IntIsDerived(s, a);
    FracIsDerived(s, j);
    ExpIsDerived(s, k);
    assert s[k..] == s[k..|s|] && IsMinusPart(s[..a]);
    assert s == s[..a] + s[a..j] + s[j..k] + s[k..];
    assert Derived(s, s[..a], s[a..j], s[j..k], s[k..]);
  }

  lemma {:induction false} IntIsDerived(s: Bytes, a: nat)
    requires a <= |s| && IntPart(s, a).Got?
    ensures IsIntPart(s[a..IntPart(s, a).next])
  {
    hide Digits;
    DigitsSlice(s, a);
    var t := s[a..IntPart(s, a).next];
    assert t[0] == s[a];
  }

  lemma {:induction false} FracIsDerived(s: Bytes, j: nat)
    requires j <= |s| && Fraction(s, j).Got?
    ensures IsFracPart(s[j..Fraction(s, j).next])
  {
    hide Digits;
    if At(s, j, DOT) {
      DigitsSlice(s, j + 1);
      var t := s[j..Fraction(s, j).next];
      assert t[0] == s[j] && t[1..] == s[j + 1..Fraction(s, j).next];
    }
  }

  lemma {:induction false} ExpIsDerived(s: Bytes, k: nat)
    requires k <= |s| && Exponent(s, k).Got?
    ensures IsExpPart(s[k..Exponent(s, k).next])
  {
    hide Digits;
    if AtExponent(s, k) {
      var n := Exponent(s, k).next;
      var t := s[k..n];
      DigitsSlice(s, AfterSign(s, k + 1));
      assert t[0] == s[k] && t[1] == s[k + 1];
      assert t[1..] == s[k + 1..n];
      if AfterSign(s, k + 1) == k + 2 {
        assert t[2..] == s[k + 2..n];
      }
    }
  }

  /** The scanner accepts all of the grammar. */
  lemma {:induction false} DerivedIsScanned(s: Bytes, minus: Bytes, whole: Bytes, frac: Bytes, exp: Bytes)
    requires Derived(s, minus, whole, frac, exp)
    ensures IsNumber(s)
  {
    hide Digits;
    var a, j, k := |minus|, |minus| + |whole|, |minus| + |whole| + |frac|;
    assert s[..a] == minus && s[a..j] == whole && s[j..k] == frac && s[k..] == exp;
    assert s[a] == whole[0];
    if minus == [] {
      assert s[0] == whole[0];
    } else {
      assert s[0] == minus[0];
    }
    assert AfterMinus(s, 0) == a;
    assert j < k ==> s[j] == frac[0];
    assert k < |s| ==> s[k] == exp[0];
    IntScans(s, a, j);
    FracScans(s, j, k);
    ExpScans(s, k);
  }

  lemma {:induction false} IntScans(s: Bytes, a: nat, j: nat)
    requires a < j <= |s| && IsIntPart(s[a..j]) && (j < |s| ==> !IsDigit(s[j]))
    ensures IntPart(s, a) == Got((), j)
  {
    hide Digits;
    assert s[a..j][0] == s[a];
    if s[a] != 0x30 {
      DigitsRun(s, a, j);
    } else {
      assert s[a..j] == [0x30];
    }
  }

  lemma {:induction false} FracScans(s: Bytes, j: nat, k: nat)
    requires j <= k <= |s| && IsFracPart(s[j..k]) && (k < |s| ==> !IsDigit(s[k]) && s[k] != DOT)
    ensures Fraction(s, j) == Got((), k)
  {
    hide Digits;
    if j < k {
      assert s[j..k][0] == s[j] && s[j..k][1..] == s[j + 1..k];
      DigitsRun(s, j + 1, k);
    }
  }

  lemma {:induction false} ExpScans(s: Bytes, k: nat)
    requires k <= |s| && IsExpPart(s[k..])
    ensures Exponent(s, k) == Got((), |s|)
  {
    hide Digits;
    if k < |s| {
      var t := s[k..];
      assert t[0] == s[k] && t[1] == s[k + 1];
      assert t[1..] == s[k + 1..|s|];
      if AllDigits(t[1..]) {
        assert t[1..][0] == s[k + 1];
        DigitsRun(s, k + 1, |s|);
      } else {
        assert t[2..] == s[k + 2..|s|];
        DigitsRun(s, k + 2, |s|);
      }
    }
  }

  /** `number_span` takes a whole text exactly when the grammar of section 6 of RFC 8259 derives it. */
  lemma {:induction false} NumberIffGrammar(s: Bytes)
    ensures IsNumber(s) <==> RfcNumber(s)
  {
    hide IsNumber, Derived;
    if IsNumber(s) {
      ScannedIsDerived(s);
    }
    if RfcNumber(s) {
      var minus, whole, frac, exp :| Derived(s, minus, whole, frac, exp);
      DerivedIsScanned(s, minus, whole, frac, exp);
    }
  }
}
