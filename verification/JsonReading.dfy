/** Printed JSON as derivations: what a tree shows, and that the parser finds that tree. */
module JsonReading {
  import opened Prelude
  import opened Utf8
  import opened Base64
  import opened JsonStrings
  import opened JsonStringLaws
  import opened JsonDom
  import opened JsonText
  import opened JsonRoundTrip
  import opened JsonNumerals
  import opened JsonGrammar
  import opened JsonDerivations
  import opened JsonLanguage
  import Decimal
  import EventJson
  import Resp = RespValue

  // ---------------------------------------------------------------- texts and octets

  ghost predicate IsUtf8(b: Bytes) {
    exists text: Text :: Utf8.EncodeAll(text) == b
  }

  /** A string token that spells `text`, by whatever escapes. */
  ghost predicate TokenOf(token: Bytes, text: Text) {
    exists pieces :: SpellsAll(pieces, text) && token == ['"' as int] + Concat(pieces) + ['"' as int]
  }

  /** A string token that spells these octets. */
  ghost predicate TokenCarries(token: Bytes, b: Bytes) {
    exists text: Text :: Utf8.EncodeAll(text) == b && TokenOf(token, text)
  }

  ghost predicate ShowsText(t: Tree, text: Text) {
    t.OfString? && TokenOf(t.token, text)
  }

  predicate Bare(x: Item) {
    x.lead == [] && x.trail == []
  }

  predicate BarePart(m: Part) {
    m.lead == [] && m.mid == [] && m.next == [] && m.trail == []
  }

  /** An object of one member. */
  ghost predicate OneMember(t: Tree, name: string)
    requires forall k :: 0 <= k < |name| ==> name[k] < 128 as char
  {
    && t.OfObject? && t.hollow == [] && |t.members| == 1 && BarePart(t.members[0])
    && TokenCarries(t.members[0].key, Ascii(name))
  }

  ghost predicate ShowsBase64(t: Tree, b: Bytes) {
    t.OfString? && exists code :: TokenCarries(t.token, code) && Decode64(code) == Some(b)
  }

  // ---------------------------------------------------------------- the derivation of printed text

  function TreeOf(j: Json): Tree
    decreases j, 0
  {
    match j
    case JNull => OfNull
    case JBool(t) => if t then OfTrue else OfFalse
    case JNumber(lexeme) => OfNumber(lexeme)
    case JString(t) => OfString(JsonString(t))
    case JArray(items) => OfArray([], ItemsOf(items))
    case JObject(members) => OfObject([], PartsOf(members))
  }

  function ItemsOf(items: seq<Json>): (r: seq<Item>)
    ensures |r| == |items|
    decreases items, 1
  {
    if items == [] then [] else [Item([], TreeOf(items[0]), [])] + ItemsOf(items[1..])
  }

  function PartOf(m: JMember): Part
    decreases m, 1
  {
    Part([], JsonString(m.key), [], [], TreeOf(m.value), [])
  }

  function PartsOf(members: seq<JMember>): (r: seq<Part>)
    ensures |r| == |members|
    decreases members, 2
  {
    if members == [] then [] else [PartOf(members[0])] + PartsOf(members[1..])
  }

  lemma {:induction false} ItemsOfAt(items: seq<Json>, k: nat)
    requires k < |items|
    ensures ItemsOf(items)[k] == Item([], TreeOf(items[k]), [])
    decreases k
  {
    if k > 0 {
      ItemsOfAt(items[1..], k - 1);
    }
  }

  lemma {:induction false} PartsOfAt(members: seq<JMember>, k: nat)
    requires k < |members|
    ensures PartsOf(members)[k] == PartOf(members[k])
    decreases k
  {
    if k > 0 {
      PartsOfAt(members[1..], k - 1);
    }
  }

  lemma {:induction false} TreeText(j: Json)
    ensures TextOf(TreeOf(j)) == PrintJson(j)
    decreases j, 0
  {
    hide JsonString, ItemsText, PartsText, PrintItems, PrintMembers;
    WordsAre();
    match j
    case JArray(items) => ItemsOfText(items); NoItemsText(); PrintNoItems();
    case JObject(members) => PartsOfText(members); NoItemsText(); PrintNoMembers();
    case _ =>
  }

  lemma {:induction false} NoItemsText()
    ensures ItemsText([]) == [] && PartsText([]) == []
  {
  }

  lemma {:induction false} ItemsOfText(items: seq<Json>)
    ensures ItemsText(ItemsOf(items)) == PrintItems(items)
    decreases items, 1
  {
    hide TextOf, TreeOf, PrintJson;
    if items != [] {
      var x := Item([], TreeOf(items[0]), []);
      TreeText(items[0]);
      assert ItemText(x) == PrintJson(items[0]);
      ItemsOfText(items[1..]);
      assert ItemsOf(items)[1..] == ItemsOf(items[1..]);
    }
  }

  lemma {:induction false} PartsOfText(members: seq<JMember>)
    ensures PartsText(PartsOf(members)) == PrintMembers(members)
    decreases members, 2
  {
    hide TextOf, TreeOf, PrintJson, JsonString;
    if members != [] {
      TreeText(members[0].value);
      assert PartText(PartOf(members[0])) == PrintMember(members[0]);
      PartsOfText(members[1..]);
      assert PartsOf(members)[1..] == PartsOf(members[1..]);
    }
  }

  // ---------------------------------------------------------------- leaves

  lemma {:induction false} Utf8Iff(b: Bytes)
    ensures IsUtf8(b) <==> Valid(b)
    ensures Valid(b) ==> Utf8.EncodeAll(Decode(b)) == b
  {
    hide Valid, Decode, Utf8.EncodeAll;
    if Valid(b) {
      EncodeOfDecode(b);
    }
    if IsUtf8(b) {
      var text: Text :| Utf8.EncodeAll(text) == b;
      DecodeOfEncode(text);
    }
  }

  /** Printed strings spell their text. */
  lemma {:induction false} PrintedToken(text: Text)
    ensures TokenOf(JsonString(text), text)
  {
    hide EscapeChar, Spells;
    var pieces := EscapePieces(text);
    forall k | 0 <= k < |text| ensures Spells(pieces[k], text[k]) {
      EscapeSpells(text[k]);
    }
    ConcatPieces(text);
    assert SpellsAll(pieces, text);
  }

  lemma {:induction false} PrintedCarries(b: Bytes)
    requires Valid(b)
    ensures TokenCarries(JsonString(Decode(b)), b)
  {
    hide Valid, Decode, Utf8.EncodeAll, TokenOf;
    Utf8Iff(b);
    PrintedToken(Decode(b));
  }

  lemma {:induction false} AsciiCarries(text: Text)
    requires forall k :: 0 <= k < |text| ==> text[k] < 0x80
    ensures TokenCarries(JsonString(text), text)
  {
    hide Utf8.EncodeAll, TokenOf;
    AsciiEncodes(text);
    PrintedToken(text);
  }

  lemma {:induction false} OneOf(key: Text, value: Json)
    ensures var t := TreeOf(JObject([JMember(key, value)]));
            t == OfObject([], [Part([], JsonString(key), [], [], TreeOf(value), [])])
  {
    hide JsonString;
    var ms := [JMember(key, value)];
    assert ms[1..] == [] && PartsOf(ms[1..]) == [];
    assert PartsOf(ms) == [PartOf(ms[0])];
  }

  lemma {:induction false} ObjectTree(ms: seq<JMember>)
    ensures TreeOf(JObject(ms)) == OfObject([], PartsOf(ms))
  {
  }

  lemma {:induction false} ArrayTree(js: seq<Json>)
    ensures TreeOf(JArray(js)) == OfArray([], ItemsOf(js))
  {
  }

  /** A base64 text is read back from its token. */
  lemma {:induction false} CodeIsAscii(b: Bytes)
    ensures (forall k :: 0 <= k < |Encode64(b)| ==> Encode64(b)[k] < 0x80) && EventJson.PlainText(Encode64(b)) == Encode64(b)
  {
    hide Encode64;
    Base64IsPlain(b);
  }

  lemma {:induction false} ShownDigits(m: nat)
    ensures Resp.AllDigits(Decimal.Show(m)) && !Resp.Negative(Decimal.Show(m)) && Decimal.DecimalValue(Decimal.Show(m)) == m
  {
    hide Decimal.DecimalValue;
    Decimal.ValueOfShow(m);
  }

  lemma {:induction false} IntegerShows(n: int)
    requires -0x8000_0000_0000_0000 <= n < 0x8000_0000_0000_0000
    ensures Resp.IsNumeral(EventJson.ShowInt(n), n)
  {
    hide Decimal.Show, Decimal.DecimalValue, Resp.AllDigits;
    if n < 0 {
      ShownDigits(-n);
      assert EventJson.ShowInt(n)[1..] == Decimal.Show(-n);
    } else {
      ShownDigits(n);
    }
  }

  lemma {:induction false} TextShows(text: Text)
    ensures ShowsText(TreeOf(JString(text)), text)
  {
    hide JsonString, TokenOf;
    PrintedToken(text);
  }

  // ---------------------------------------------------------------- the text

  lemma {:induction false} TreeIsGood(j: Json, levels: int)
    requires Lexical(j) && Levels(j, levels)
    ensures Good(TreeOf(j), levels)
    decreases j, 0
  {
    hide Good, Derives, Within, KeysDecode, IsNumber, RfcNumber, JsonString, GoodItems, GoodParts, White, IsToken, ItemsOf, PartsOf;
    match j
    case JArray(items) => ItemsAreGood(items, levels - 1); ArrayTree(items); GoodArray(TreeOf(j), levels); EmptyIsWhite();
    case JObject(members) => PartsAreGood(members, levels - 1); ObjectTree(members); GoodObject(TreeOf(j), levels); EmptyIsWhite();
    case JNumber(lexeme) => NumberIffGrammar(lexeme); ScalarIsGood(TreeOf(j), levels);
    case JString(text) => PrintedIsToken(text); ScalarIsGood(TreeOf(j), levels);
    case _ => ScalarIsGood(TreeOf(j), levels);
  }

  lemma {:induction false} EmptyIsWhite()
    ensures White([])
  {
  }

  lemma {:induction false} ScalarIsGood(t: Tree, levels: int)
    requires !t.OfArray? && !t.OfObject? && levels >= 1
    requires (t.OfNumber? ==> RfcNumber(t.lexeme)) && (t.OfString? ==> IsToken(t.token))
    ensures Good(t, levels)
  {
    hide RfcNumber, IsToken;
  }

  lemma {:induction false} PrintedIsToken(text: Text)
    ensures IsToken(JsonString(text)) && DecodeString(JsonString(text)) == Some(text)
  {
    hide StringTail, IsToken, DecodeString, JsonString;
    var s := JsonString(text);
    DecodeInvertsJsonString(text);
    assert s[0..0 + |s|] == s;
    StringReads(s, 0, text);
    ScannedIsToken(s, 0);
    assert s[0..|s|] == s;
  }

  lemma {:induction false} ItemsAreGood(items: seq<Json>, levels: int)
    requires LexicalItems(items) && LevelsItems(items, levels)
    ensures GoodItems(ItemsOf(items), levels)
    decreases items, 1
  {
    hide Lexical, Levels, Good, White, TreeOf;
    EmptyIsWhite();
    forall k | 0 <= k < |items| ensures GoodItem(ItemsOf(items)[k], levels) {
      ItemsOfAt(items, k);
      TreeIsGood(items[k], levels);
    }
  }

  lemma {:induction false} PartsAreGood(members: seq<JMember>, levels: int)
    requires LexicalMembers(members) && LevelsMembers(members, levels)
    ensures GoodParts(PartsOf(members), levels)
    decreases members, 1
  {
    hide Lexical, Levels, Good, White, TreeOf, IsToken, DecodeString, JsonString;
    EmptyIsWhite();
    forall k | 0 <= k < |members| ensures GoodPart(PartsOf(members)[k], levels) {
      PartsOfAt(members, k);
      PrintedIsToken(members[k].key);
      TreeIsGood(members[k].value, levels);
    }
  }

  lemma {:induction false} WithinGrows(t: Tree, levels: int, more: int)
    requires Within(t, levels) && levels <= more
    ensures Within(t, more)
    decreases t
  {
    if t.OfArray? {
      forall k | 0 <= k < |t.items| ensures Within(t.items[k].value, more - 1) {
        WithinGrows(t.items[k].value, levels - 1, more - 1);
      }
    } else if t.OfObject? {
      forall k | 0 <= k < |t.members| ensures Within(t.members[k].value, more - 1) {
        WithinGrows(t.members[k].value, levels - 1, more - 1);
      }
    }
  }

  ghost predicate IsTreeOf(text: Bytes, t: Tree) {
    && TextOf(t) == text
    && forall max: nat :: ParseDocument(text, max).Ok? ==> ParseDocument(text, max).value.root == NodeOf(t, 0)
  }

  lemma {:induction false} ParsedIsTree(j: Json, budget: nat, max: nat)
    requires Lexical(j) && Levels(j, budget) && ParseDocument(PrintJson(j), max).Ok?
    ensures ParseDocument(PrintJson(j), max).value.root == NodeOf(TreeOf(j), 0)
  {
    hide ParseDocument, Lexical, Levels, TreeOf, NodeOf, TextOf, White, Derives, KeysDecode, Within, PrintJson;
    var text := PrintJson(j);
    var before, t, behind := DocumentDerives(text, max);
    DocumentIsDerivation(text, max, before, t, behind);
    var more := if budget < max then max else budget;
    WithinGrows(t, max, more);
    DocumentIsDerivation(text, more, before, t, behind);
    EventJson.LevelsGrow(j, budget, more);
    TreeIsGood(j, more);
    TreeText(j);
    EmptyIsWhite();
    assert text == [] + TextOf(TreeOf(j)) + [];
    DocumentIsDerivation(text, more, [], TreeOf(j), []);
  }

  /** Content that prints as JSON: the parser finds its tree under every limit it accepts the text with. */
  lemma {:induction false} PrintedTree(j: Json, budget: nat)
    requires Lexical(j) && Levels(j, budget)
    ensures IsTreeOf(PrintJson(j), TreeOf(j))
  {
    hide PrintJson, ParseDocument, TreeOf, NodeOf, TextOf, Lexical, Levels;
    TreeText(j);
    forall max: nat | ParseDocument(PrintJson(j), max).Ok?
      ensures ParseDocument(PrintJson(j), max).value.root == NodeOf(TreeOf(j), 0)
    {
      ParsedIsTree(j, budget, max);
    }
  }
}
