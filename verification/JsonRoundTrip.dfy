/** The round trip: printed text parses, and reading the tree gives the content back. */
module JsonRoundTrip {
  import opened Prelude
  import opened Utf8
  import opened JsonStrings
  import opened JsonStringLaws
  import opened JsonDom
  import opened JsonStability
  import opened JsonEdit
  import opened JsonText

  // ---------------------------------------------------------------- strings

  function EscapePieces(t: Text): (ps: seq<Bytes>)
    ensures |ps| == |t| && forall k :: 0 <= k < |t| ==> ps[k] == EscapeChar(t[k])
  {
    if t == [] then [] else [EscapeChar(t[0])] + EscapePieces(t[1..])
  }

  lemma {:induction false} LowerHexIsNibble(v: int)
    requires 0 <= v < 16
    ensures IsNibble(LowerHex(v), v)
  {
  }

  lemma {:induction false} ControlSpells(c: Scalar)
    requires c < 0x20
    ensures UnicodeEscape([0x5C, 0x75, 0x30, 0x30, LowerHex(c / 16), LowerHex(c % 16)], c)
  {
    hide IsNibble, LowerHex;
    var p := [0x5C, 0x75, 0x30, 0x30, LowerHex(c / 16), LowerHex(c % 16)];
    assert p[..2] == Ascii("\\u");
    assert LowerHex(0) == 0x30 by { LowerZero(); }
    LowerHexIsNibble(0);
    LowerHexIsNibble(c / 16);
    LowerHexIsNibble(c % 16);
    assert p[2..] == [0x30, 0x30, LowerHex(c / 16), LowerHex(c % 16)];
  }

  lemma {:induction false} LowerZero()
    ensures LowerHex(0) == 0x30
  {
  }

  lemma {:induction false} EscapeSpells(c: Scalar)
    ensures Spells(EscapeChar(c), c)
  {
    hide Encode, UnicodeEscape, LowerHex;
    if c < 0x20 {
      ControlSpells(c);
    }
  }

  lemma {:induction false} ConcatPieces(t: Text)
    ensures Concat(EscapePieces(t)) == EscapeAll(t)
  {
    if t != [] {
      ConcatPieces(t[1..]);
      assert EscapePieces(t)[1..] == EscapePieces(t[1..]);
    }
  }

  /** `decode_string` inverts `json_string`. */
  lemma {:induction false} DecodeInvertsJsonString(t: Text)
    ensures DecodeString(JsonString(t)) == Some(t)
  {
    hide EscapeChar, Spells;
    forall k | 0 <= k < |t| ensures Spells(EscapePieces(t)[k], t[k]) {
      EscapeSpells(t[k]);
    }
    DecodeInvertsSpelling(EscapePieces(t), t);
    ConcatPieces(t);
    var s := JsonString(t);
    assert s[1..|s| - 1] == EscapeAll(t);
  }

  /** The scanner passes over octets above ASCII. */
  lemma {:induction false} TailOverHigh(b: Bytes, i: nat, k: nat)
    requires i + k <= |b| && forall x :: i <= x < i + k ==> b[x] >= 0x80
    ensures StringTail(b, i) == StringTail(b, i + k)
    decreases k
  {
    if k > 0 {
      TailOverHigh(b, i + 1, k - 1);
    }
  }

  /** The scanner passes over one escaped character. */
  lemma {:induction false} TailOverChar(b: Bytes, i: nat, c: Scalar)
    requires Carries(b, i, EscapeChar(c))
    ensures StringTail(b, i) == StringTail(b, i + |EscapeChar(c)|)
  {
    hide Encode;
    var p := EscapeChar(c);
    assert forall k :: 0 <= k < |p| ==> b[i + k] == p[k] by { forall k | 0 <= k < |p| ensures b[i + k] == p[k] { CarriesAt(b, i, p, k); } }
    if c >= 0x80 {
      assert forall x :: i <= x < i + |p| ==> b[x] == p[x - i];
      TailOverHigh(b, i, |p|);
    } else if p[0] == SLASH {
      assert b[i] == p[0] && b[i + 1] == p[1];
      if p[1] == LOWER_U {
        assert b[i + 2] == p[2] && b[i + 3] == p[3] && b[i + 4] == p[4] && b[i + 5] == p[5];
        LowerHexIsHex(c / 16);
        LowerHexIsHex(c % 16);
        HexFour(b, i + 2);
      }
    } else {
      assert p == [c] && b[i + 0] == p[0];
    }
  }

  lemma {:induction false} LowerHexIsHex(v: int)
    requires 0 <= v < 16
    ensures IsHexDigit(LowerHex(v)) && HexValue(LowerHex(v)) == v
  {
  }

  lemma {:induction false} HexFour(b: Bytes, i: nat)
    requires i + 4 <= |b| && IsHexDigit(b[i]) && IsHexDigit(b[i + 1]) && IsHexDigit(b[i + 2]) && IsHexDigit(b[i + 3])
    ensures HexRun(b, i, 4) == Got((), i + 4)
  {
    assert HexRun(b, i + 4, 0) == Got((), i + 4);
    assert HexRun(b, i + 3, 1) == Got((), i + 4);
    assert HexRun(b, i + 2, 2) == Got((), i + 4);
    assert HexRun(b, i + 1, 3) == Got((), i + 4);
  }

  lemma {:induction false} TailOverText(b: Bytes, i: nat, t: Text)
    requires Carries(b, i, EscapeAll(t))
    ensures StringTail(b, i) == StringTail(b, i + |EscapeAll(t)|)
    decreases |t|
  {
    hide EscapeChar, StringTail;
    if t != [] {
      CarriesParts(b, i, EscapeChar(t[0]), EscapeAll(t[1..]));
      TailOverChar(b, i, t[0]);
      TailOverText(b, i + |EscapeChar(t[0])|, t[1..]);
    }
  }

  /** A printed string is one string token, and its content is the text. */
  lemma {:induction false} StringReads(b: Bytes, i: nat, t: Text)
    requires Carries(b, i, JsonString(t))
    ensures var j := i + |JsonString(t)|;
            && StringSpan(b, i).Got? && StringSpan(b, i).next == j
            && b[i..j] == JsonString(t) && DecodeString(b[i..j]) == Some(t)
            && b[i] == QUOTE
  {
    hide EscapeAll, DecodeString;
    var s := EscapeAll(t);
    assert JsonString(t) == [QUOTE] + (s + [QUOTE]);
    CarriesParts(b, i, [QUOTE], s + [QUOTE]);
    CarriesParts(b, i + 1, s, [QUOTE]);
    CarriesAt(b, i, [QUOTE], 0);
    CarriesAt(b, i + 1 + |s|, [QUOTE], 0);
    TailOverText(b, i + 1, t);
    DecodeInvertsJsonString(t);
  }

  // ---------------------------------------------------------------- values

  /** The outcome the round trip promises at position `i`. */
  ghost predicate ReadsAs(b: Bytes, r: Parsed<Node>, j: Json, next: int) {
    r.Got? && r.next == next && ReadJson(b, r.value) == Some(j)
  }

  lemma {:induction false} TokenStartIsNotBlank(b: Bytes, i: nat)
    requires i < |b| && !IsWs(b[i])
    ensures Ws(b, i) == i
  {
  }

  lemma {:induction false} NumberStart(s: Bytes)
    requires IsNumber(s)
    ensures s != [] && (s[0] == MINUS || IsDigit(s[0]))
  {
    hide Digits, Fraction, Exponent;
  }

  lemma {:induction false} NumberReads(b: Bytes, max: nat, depth: nat, i: nat, lexeme: Bytes)
    requires IsNumber(lexeme) && Carries(b, i, lexeme) && NumberEnds(b, i + |lexeme|) && depth < max
    ensures ReadsAs(b, Value(b, max, depth, i), JNumber(lexeme), i + |lexeme|)
  {
    hide NumberSpan, Ws, StringSpan;
    NumberStart(lexeme);
    CarriesAt(b, i, lexeme, 0);
    forall k | 0 <= k < |lexeme| ensures b[k + i] == lexeme[k] {
      CarriesAt(b, i, lexeme, k);
    }
    NumberSpanMoves(lexeme, b, i, 0);
    TokenStartIsNotBlank(b, i);
  }

  lemma {:induction false} WordReads(b: Bytes, max: nat, depth: nat, i: nat, word: Bytes, j: Json)
    requires (word == NULL && j == JNull) || (word == TRUE && j == JBool(true)) || (word == FALSE && j == JBool(false))
    requires Carries(b, i, word) && depth < max
    ensures ReadsAs(b, Value(b, max, depth, i), j, i + |word|)
  {
    hide Ws, StringSpan, NumberSpan;
    CarriesAt(b, i, word, 0);
    TokenStartIsNotBlank(b, i);
  }

  lemma {:induction false} TextReads(b: Bytes, max: nat, depth: nat, i: nat, t: Text)
    requires Carries(b, i, JsonString(t)) && depth < max
    ensures ReadsAs(b, Value(b, max, depth, i), JString(t), i + |JsonString(t)|)
  {
    hide Ws, StringSpan, NumberSpan, JsonString, DecodeString;
    StringReads(b, i, t);
    TokenStartIsNotBlank(b, i);
  }

  /** The first octet of printed text is never blank or closing. */
  lemma {:induction false} PrintedStart(j: Json)
    requires Lexical(j)
    ensures PrintJson(j) != []
    ensures var c := PrintJson(j)[0]; !IsWs(c) && c != CLOSE_BRACKET && c != CLOSE_BRACE
  {
    if j.JNumber? {
      NumberStart(j.lexeme);
    }
  }

  /** Printed text parses wherever it stands, and reading the node gives the content back. */
  lemma {:induction false} PrintedReads(b: Bytes, max: nat, depth: nat, i: nat, j: Json)
    requires Lexical(j) && Levels(j, max - depth)
    requires Carries(b, i, PrintJson(j)) && NumberEnds(b, i + |PrintJson(j)|)
    ensures ReadsAs(b, Value(b, max, depth, i), j, i + |PrintJson(j)|)
    decreases j, 0
  {
    hide Value, ReadJson, Lexical, Levels, IsNumber;
    match j
    case JNull => LevelsPositive(j, max - depth); WordReads(b, max, depth, i, NULL, j);
    case JBool(t) => LevelsPositive(j, max - depth); WordReads(b, max, depth, i, if t then TRUE else FALSE, j);
    case JNumber(lexeme) => LevelsPositive(j, max - depth); NumberReads(b, max, depth, i, lexeme) by { LexicalNumber(lexeme); }
    case JString(t) => LevelsPositive(j, max - depth); TextReads(b, max, depth, i, t);
    case JArray(items) => ArrayReads(b, max, depth, i, items);
    case JObject(members) => ObjectReads(b, max, depth, i, members);
  }

  lemma {:induction false} LexicalNumber(lexeme: Bytes)
    requires Lexical(JNumber(lexeme))
    ensures IsNumber(lexeme)
  {
  }

  lemma {:induction false} LevelsPositive(j: Json, budget: int)
    requires Levels(j, budget)
    ensures budget >= 1
  {
  }

  predicate LexicalItems(items: seq<Json>) {
    forall k :: 0 <= k < |items| ==> Lexical(items[k])
  }

  predicate LevelsItems(items: seq<Json>, budget: int) {
    forall k :: 0 <= k < |items| ==> Levels(items[k], budget)
  }

  lemma {:induction false} ArrayReads(b: Bytes, max: nat, depth: nat, i: nat, items: seq<Json>)
    requires Lexical(JArray(items)) && Levels(JArray(items), max - depth)
    requires Carries(b, i, PrintJson(JArray(items)))
    ensures ReadsAs(b, Value(b, max, depth, i), JArray(items), i + |PrintJson(JArray(items))|)
    decreases items, 3
  {
    hide Items, Ws, PrintItems, Token, ObjectAt;
    var body := PrintItems(items);
    assert PrintJson(JArray(items)) == [OPEN_BRACKET] + (body + [CLOSE_BRACKET]);
    CarriesParts(b, i, [OPEN_BRACKET], body + [CLOSE_BRACKET]);
    CarriesAt(b, i, [OPEN_BRACKET], 0);
    TokenStartIsNotBlank(b, i);
    if items == [] {
      assert body == [] by { PrintNoItems(); }
      assert body + [CLOSE_BRACKET] == [CLOSE_BRACKET];
      CarriesAt(b, i + 1, [CLOSE_BRACKET], 0);
      TokenStartIsNotBlank(b, i + 1);
      assert ReadItems(b, []) == Some([]);
    } else {
      ItemsStart(items);
      CarriesParts(b, i + 1, body, [CLOSE_BRACKET]);
      CarriesAt(b, i + 1, body, 0);
      TokenStartIsNotBlank(b, i + 1);
      ItemsRead(b, max, depth + 1, i + 1, items);
    }
  }

  lemma {:induction false} PrintNoItems()
    ensures PrintItems([]) == []
  {
  }

  lemma {:induction false} ItemsStart(items: seq<Json>)
    requires items != [] && LexicalItems(items)
    ensures PrintItems(items) != []
    ensures var c := PrintItems(items)[0]; !IsWs(c) && c != CLOSE_BRACKET
  {
    PrintedStart(items[0]);
  }

  lemma {:induction false} ItemsRead(b: Bytes, max: nat, depth: nat, i: nat, items: seq<Json>)
    requires items != [] && LexicalItems(items) && LevelsItems(items, max - depth)
    requires Carries(b, i, PrintItems(items) + [CLOSE_BRACKET])
    ensures var r := Items(b, max, depth, i);
            r.Got? && r.next == i + |PrintItems(items)| + 1 && ReadItems(b, r.value) == Some(items)
    decreases items, 2
  {
    hide Value, Ws, ReadJson, PrintJson, Lexical, Levels, Carries;
    if |items| == 1 {
      LastItemReads(b, max, depth, i, items[0]);
      assert items == [items[0]];
    } else {
      MoreItemsRead(b, max, depth, i, items);
    }
  }

  lemma {:induction false} MoreItemsRead(b: Bytes, max: nat, depth: nat, i: nat, items: seq<Json>)
    requires |items| > 1 && LexicalItems(items) && LevelsItems(items, max - depth)
    requires Carries(b, i, PrintItems(items) + [CLOSE_BRACKET])
    ensures var r := Items(b, max, depth, i);
            r.Got? && r.next == i + |PrintItems(items)| + 1 && ReadItems(b, r.value) == Some(items)
    decreases items, 1
  {
    hide Value, Ws, ReadJson, PrintJson, Lexical, Levels, ReadItems, PrintItems, Carries, IsWs;
    var first := PrintJson(items[0]);
    var rest := PrintItems(items[1..]);
    var w := i + |first|;
    PrintMoreItems(items);
    CarriesParts(b, i, first, [COMMA] + (rest + [CLOSE_BRACKET]));
    CarriesParts(b, w, [COMMA], rest + [CLOSE_BRACKET]);
    CarriesFits(b, w, [COMMA]);
    CarriesAt(b, w, [COMMA], 0);
    CommaStops(b, w);
    PrintedReads(b, max, depth, i, items[0]);
    ItemsRead(b, max, depth, w + 1, items[1..]);
    ReadMoreItems(b, Value(b, max, depth, i).value, Items(b, max, depth, w + 1).value);
    assert items == [items[0]] + items[1..];
  }

  lemma {:induction false} CarriesFits(b: Bytes, i: nat, t: Bytes)
    requires Carries(b, i, t)
    ensures i + |t| <= |b|
  {
  }

  /** A comma ends a number and is not blank. */
  lemma {:induction false} CommaStops(b: Bytes, w: nat)
    requires w < |b| && b[w] == COMMA
    ensures Ws(b, w) == w && NumberEnds(b, w)
  {
  }

  lemma {:induction false} PrintMoreItems(items: seq<Json>)
    requires |items| > 1
    ensures PrintItems(items) + [CLOSE_BRACKET] == PrintJson(items[0]) + ([COMMA] + (PrintItems(items[1..]) + [CLOSE_BRACKET]))
    ensures |PrintItems(items)| == |PrintJson(items[0])| + 1 + |PrintItems(items[1..])|
  {
    hide PrintJson;
  }

  lemma {:induction false} LastItemReads(b: Bytes, max: nat, depth: nat, i: nat, j: Json)
    requires Lexical(j) && Levels(j, max - depth) && Carries(b, i, PrintJson(j) + [CLOSE_BRACKET])
    ensures var r := Items(b, max, depth, i);
            r.Got? && r.next == i + |PrintJson(j)| + 1 && ReadItems(b, r.value) == Some([j])
    decreases j, 1
  {
    hide Value, Ws, ReadJson, PrintJson, Lexical, Levels, ReadItems;
    var w := i + |PrintJson(j)|;
    CarriesParts(b, i, PrintJson(j), [CLOSE_BRACKET]);
    CarriesAt(b, w, [CLOSE_BRACKET], 0);
    PrintedReads(b, max, depth, i, j);
    TokenStartIsNotBlank(b, w);
    ReadOneItem(b, Value(b, max, depth, i).value);
  }

  lemma {:induction false} ReadOneItem(b: Bytes, v: Node)
    requires ReadJson(b, v).Some?
    ensures ReadItems(b, [v]) == Some([ReadJson(b, v).value])
  {
    assert [v][1..] == [];
    assert ReadItems(b, []) == Some([]);
    assert [ReadJson(b, v).value] + [] == [ReadJson(b, v).value];
  }

  lemma {:induction false} ReadMoreItems(b: Bytes, v: Node, rest: seq<Node>)
    requires ReadJson(b, v).Some? && ReadItems(b, rest).Some?
    ensures ReadItems(b, [v] + rest) == Some([ReadJson(b, v).value] + ReadItems(b, rest).value)
  {
    assert ([v] + rest)[1..] == rest;
  }

  predicate LexicalMembers(ms: seq<JMember>) {
    forall k :: 0 <= k < |ms| ==> Lexical(ms[k].value)
  }

  predicate LevelsMembers(ms: seq<JMember>, budget: int) {
    forall k :: 0 <= k < |ms| ==> Levels(ms[k].value, budget)
  }

  lemma {:induction false} ObjectReads(b: Bytes, max: nat, depth: nat, i: nat, members: seq<JMember>)
    requires Lexical(JObject(members)) && Levels(JObject(members), max - depth)
    requires Carries(b, i, PrintJson(JObject(members)))
    ensures ReadsAs(b, Value(b, max, depth, i), JObject(members), i + |PrintJson(JObject(members))|)
    decreases members, 3
  {
    hide Members, Ws, PrintMembers, Token, ArrayAt, Numbered;
    var body := PrintMembers(members);
    assert PrintJson(JObject(members)) == [OPEN_BRACE] + (body + [CLOSE_BRACE]);
    CarriesParts(b, i, [OPEN_BRACE], body + [CLOSE_BRACE]);
    CarriesAt(b, i, [OPEN_BRACE], 0);
    TokenStartIsNotBlank(b, i);
    if members == [] {
      assert body == [] by { PrintNoMembers(); }
      assert body + [CLOSE_BRACE] == [CLOSE_BRACE];
      CarriesAt(b, i + 1, [CLOSE_BRACE], 0);
      TokenStartIsNotBlank(b, i + 1);
      assert Numbered([]) == [] by { assert |Numbered([])| == 0; }
      assert ReadMembers(b, []) == Some([]);
    } else {
      MembersStart(members);
      CarriesParts(b, i + 1, body, [CLOSE_BRACE]);
      CarriesAt(b, i + 1, body, 0);
      TokenStartIsNotBlank(b, i + 1);
      MembersRead(b, max, depth + 1, i + 1, members);
      NumberedReads(b, Members(b, max, depth + 1, i + 1).value);
    }
  }

  lemma {:induction false} PrintNoMembers()
    ensures PrintMembers([]) == []
  {
  }

  lemma {:induction false} MembersStart(members: seq<JMember>)
    requires members != []
    ensures PrintMembers(members) != [] && PrintMembers(members)[0] == QUOTE
  {
    hide EscapeAll, PrintJson;
  }

  /** Numbering does not change what members read as. */
  lemma {:induction false} ReadMembersIsReadRaws(b: Bytes, ms: seq<Member>, raw: seq<RawMember>)
    requires |ms| == |raw| && forall k :: 0 <= k < |ms| ==> ms[k].key == raw[k].key && ms[k].value == raw[k].value
    ensures ReadMembers(b, ms) == ReadRaws(b, raw)
    decreases |ms|
  {
    if ms != [] {
      ReadMembersIsReadRaws(b, ms[1..], raw[1..]);
    }
  }

  lemma {:induction false} NumberedReads(b: Bytes, raw: seq<RawMember>)
    ensures ReadMembers(b, Numbered(raw)) == ReadRaws(b, raw)
  {
    ReadMembersIsReadRaws(b, Numbered(raw), raw);
  }

  lemma {:induction false} PairReads(b: Bytes, max: nat, depth: nat, i: nat, m: JMember)
    requires Lexical(m.value) && Levels(m.value, max - depth)
    requires Carries(b, i, PrintMember(m)) && NumberEnds(b, i + |PrintMember(m)|)
    ensures var r := Pair(b, max, depth, i);
            && r.Got? && r.next == i + |PrintMember(m)| && r.value.key == m.key
            && ReadJson(b, r.value.value) == Some(m.value)
    decreases m, 1
  {
    hide Value, Ws, ReadJson, PrintJson, Lexical, Levels, JsonString, StringSpan, DecodeString;
    var k := JsonString(m.key);
    var v := PrintJson(m.value);
    assert PrintMember(m) == k + ([COLON] + v);
    CarriesParts(b, i, k, [COLON] + v);
    CarriesParts(b, i + |k|, [COLON], v);
    CarriesAt(b, i + |k|, [COLON], 0);
    StringReads(b, i, m.key);
    TokenStartIsNotBlank(b, i);
    TokenStartIsNotBlank(b, i + |k|);
    PrintedReads(b, max, depth, i + |k| + 1, m.value);
  }

  lemma {:induction false} MembersRead(b: Bytes, max: nat, depth: nat, i: nat, members: seq<JMember>)
    requires members != [] && LexicalMembers(members) && LevelsMembers(members, max - depth)
    requires Carries(b, i, PrintMembers(members) + [CLOSE_BRACE])
    ensures var r := Members(b, max, depth, i);
            r.Got? && r.next == i + |PrintMembers(members)| + 1 && ReadRaws(b, r.value) == Some(members)
    decreases members, 2
  {
    hide Pair, Ws, ReadJson, PrintMember, Lexical, Levels, Carries;
    if |members| == 1 {
      LastMemberReads(b, max, depth, i, members[0]);
      assert members == [members[0]];
    } else {
      MoreMembersRead(b, max, depth, i, members);
    }
  }

  lemma {:induction false} MoreMembersRead(b: Bytes, max: nat, depth: nat, i: nat, members: seq<JMember>)
    requires |members| > 1 && LexicalMembers(members) && LevelsMembers(members, max - depth)
    requires Carries(b, i, PrintMembers(members) + [CLOSE_BRACE])
    ensures var r := Members(b, max, depth, i);
            r.Got? && r.next == i + |PrintMembers(members)| + 1 && ReadRaws(b, r.value) == Some(members)
    decreases members, 1
  {
    hide Pair, Ws, ReadJson, PrintMember, Lexical, Levels, ReadRaws, PrintMembers, Carries, IsWs;
    var first := PrintMember(members[0]);
    var rest := PrintMembers(members[1..]);
    var w := i + |first|;
    PrintMoreMembers(members);
    CarriesParts(b, i, first, [COMMA] + (rest + [CLOSE_BRACE]));
    CarriesParts(b, w, [COMMA], rest + [CLOSE_BRACE]);
    CarriesFits(b, w, [COMMA]);
    CarriesAt(b, w, [COMMA], 0);
    CommaStops(b, w);
    PairReads(b, max, depth, i, members[0]);
    MembersRead(b, max, depth, w + 1, members[1..]);
    ReadMoreRaws(b, Pair(b, max, depth, i).value, Members(b, max, depth, w + 1).value);
    assert members == [members[0]] + members[1..];
  }

  lemma {:induction false} PrintMoreMembers(members: seq<JMember>)
    requires |members| > 1
    ensures PrintMembers(members) + [CLOSE_BRACE] == PrintMember(members[0]) + ([COMMA] + (PrintMembers(members[1..]) + [CLOSE_BRACE]))
    ensures |PrintMembers(members)| == |PrintMember(members[0])| + 1 + |PrintMembers(members[1..])|
  {
    hide PrintMember;
  }

  lemma {:induction false} LastMemberReads(b: Bytes, max: nat, depth: nat, i: nat, m: JMember)
    requires Lexical(m.value) && Levels(m.value, max - depth) && Carries(b, i, PrintMember(m) + [CLOSE_BRACE])
    ensures var r := Members(b, max, depth, i);
            r.Got? && r.next == i + |PrintMember(m)| + 1 && ReadRaws(b, r.value) == Some([m])
    decreases m, 2
  {
    hide Pair, Ws, ReadJson, PrintMember, Lexical, Levels, ReadRaws;
    var w := i + |PrintMember(m)|;
    CarriesParts(b, i, PrintMember(m), [CLOSE_BRACE]);
    CarriesAt(b, w, [CLOSE_BRACE], 0);
    PairReads(b, max, depth, i, m);
    TokenStartIsNotBlank(b, w);
    ReadOneRaw(b, Pair(b, max, depth, i).value);
  }

  lemma {:induction false} ReadOneRaw(b: Bytes, m: RawMember)
    requires ReadJson(b, m.value).Some?
    ensures ReadRaws(b, [m]) == Some([JMember(m.key, ReadJson(b, m.value).value)])
  {
    assert [m][1..] == [];
    assert ReadRaws(b, []) == Some([]);
    var j := JMember(m.key, ReadJson(b, m.value).value);
    assert [j] + [] == [j];
  }

  lemma {:induction false} ReadMoreRaws(b: Bytes, m: RawMember, rest: seq<RawMember>)
    requires ReadJson(b, m.value).Some? && ReadRaws(b, rest).Some?
    ensures ReadRaws(b, [m] + rest) == Some([JMember(m.key, ReadJson(b, m.value).value)] + ReadRaws(b, rest).value)
  {
    assert ([m] + rest)[1..] == rest;
  }

  // ---------------------------------------------------------------- documents

  /**
    Printing then parsing is the identity: the text of any content with well-formed numbers is a
    document for any limit its depth respects, and the tree reads back as that content.
   */
  lemma {:induction false} PrintThenParse(j: Json, max: nat)
    requires Lexical(j) && Levels(j, max)
    ensures var r := ParseDocument(PrintJson(j), max);
            r.Ok? && ReadJson(r.value.source, r.value.root) == Some(j)
  {
    hide Value, PrintJson, Lexical, Levels, ReadJson, Ws;
    var s := PrintJson(j);
    assert Carries(s, 0, s);
    PrintedReads(s, max, 0, 0, j);
    WsIs(s, |s|, |s|);
  }

  /** Printing is injective on content with well-formed numbers. */
  lemma {:induction false} PrintingIsInjective(j: Json, k: Json, max: nat)
    requires Lexical(j) && Lexical(k) && Levels(j, max) && Levels(k, max) && PrintJson(j) == PrintJson(k)
    ensures j == k
  {
    PrintThenParse(j, max);
    PrintThenParse(k, max);
  }
}
