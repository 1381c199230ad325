/**
  `json_value` and `event_line` of `pr-application`: the JSON in which every frame is reported, and what
  a consumer can recover from it.
 */
module EventJson {
  import opened Prelude
  import opened Utf8
  import opened Decimal
  import opened Base64
  import opened JsonDom
  import opened JsonText
  import opened JsonRoundTrip
  import Resp = RespValue

  // ---------------------------------------------------------------- text helpers

  /** `parts.join(",")`. */
  function Join(parts: seq<Bytes>): Bytes {
    if parts == [] then []
    else if |parts| == 1 then parts[0]
    else parts[0] + [COMMA] + Join(parts[1..])
  }

  /** `n.to_string()`. */
  function ShowInt(n: int): Bytes {
    if n < 0 then [MINUS] + Show(-n) else Show(n)
  }

  // ---------------------------------------------------------------- the printer

  const B64: Text := [0x62, 0x36, 0x34]
  const FORMAT: Text := [0x66, 0x6F, 0x72, 0x6D, 0x61, 0x74]
  const DATA: Text := [0x64, 0x61, 0x74, 0x61]
  const ATTRIBUTES: Text := [0x61, 0x74, 0x74, 0x72, 0x69, 0x62, 0x75, 0x74, 0x65, 0x73]
  const VALUE: Text := [0x76, 0x61, 0x6C, 0x75, 0x65]

  /** `"key":` with the key written as it is. */
  function Label(key: Text): Bytes
    requires forall k :: 0 <= k < |key| ==> key[k] < 0x80
  {
    [QUOTE] + key + [QUOTE, COLON]
  }

  /** `bytes_json`. */
  function BytesJson(b: Bytes): Bytes {
    if Valid(b) then JsonString(Decode(b))
    else [OPEN_BRACE] + Label(B64) + [QUOTE] + Encode64(b) + [QUOTE, CLOSE_BRACE]
  }

  /** `json_value`. */
  function JsonValue(v: Resp.Value): Bytes
    decreases v, 0
  {
    match v
    case Simple(b) => BytesJson(b)
    case Error(b) => BytesJson(b)
    case BulkError(b) => BytesJson(b)
    case Bulk(b) => BytesJson(b)
    case Integer(n) => ShowInt(n)
    case Null(_) => NULL
    case Boolean(t) => if t then TRUE else FALSE
    case Double(lexeme) => BytesJson(lexeme)
    case BigNumber(digits) => BytesJson(digits)
    case Verbatim(format, data) =>
      [OPEN_BRACE] + Label(FORMAT) + BytesJson(format) + [COMMA] + Label(DATA) + BytesJson(data) + [CLOSE_BRACE]
    case Array(items) => [OPEN_BRACKET] + Join(JsonValues(items)) + [CLOSE_BRACKET]
    case Set(items) => [OPEN_BRACKET] + Join(JsonValues(items)) + [CLOSE_BRACKET]
    case Push(items) => [OPEN_BRACKET] + Join(JsonValues(items)) + [CLOSE_BRACKET]
    case Map(entries) => [OPEN_BRACKET] + Join(JsonPairs(entries)) + [CLOSE_BRACKET]
    case Attribute(attrs, value) =>
      [OPEN_BRACE] + Label(ATTRIBUTES) + [OPEN_BRACKET] + Join(JsonPairs(attrs)) + [CLOSE_BRACKET]
      + [COMMA] + Label(VALUE) + JsonValue(value) + [CLOSE_BRACE]
  }

  function JsonValues(items: seq<Resp.Value>): seq<Bytes>
    decreases items, 1
  {
    if items == [] then [] else [JsonValue(items[0])] + JsonValues(items[1..])
  }

  function JsonPair(e: Resp.Entry): Bytes
    decreases e, 1
  {
    [OPEN_BRACKET] + JsonValue(e.key) + [COMMA] + JsonValue(e.val) + [CLOSE_BRACKET]
  }

  function JsonPairs(entries: seq<Resp.Entry>): seq<Bytes>
    decreases entries, 2
  {
    if entries == [] then [] else [JsonPair(entries[0])] + JsonPairs(entries[1..])
  }

  // ---------------------------------------------------------------- its content

  function BytesContent(b: Bytes): Json {
    if Valid(b) then JString(Decode(b)) else JObject([JMember(B64, JString(PlainText(Encode64(b))))])
  }

  /** Octets that are all ASCII, as text; anything else is no text. */
  function PlainText(b: Bytes): (t: Text)
  {
    if forall k :: 0 <= k < |b| ==> b[k] < 0x80 then b else []
  }

  /** The content of `json_value`: sets and pushes look like arrays, a map is a list of pairs. */
  function Content(v: Resp.Value): Json
    decreases v, 0
  {
    match v
    case Simple(b) => BytesContent(b)
    case Error(b) => BytesContent(b)
    case BulkError(b) => BytesContent(b)
    case Bulk(b) => BytesContent(b)
    case Integer(n) => JNumber(ShowInt(n))
    case Null(_) => JNull
    case Boolean(t) => JBool(t)
    case Double(lexeme) => BytesContent(lexeme)
    case BigNumber(digits) => BytesContent(digits)
    case Verbatim(format, data) => JObject([JMember(FORMAT, BytesContent(format)), JMember(DATA, BytesContent(data))])
    case Array(items) => JArray(Contents(items))
    case Set(items) => JArray(Contents(items))
    case Push(items) => JArray(Contents(items))
    case Map(entries) => JArray(PairContents(entries))
    case Attribute(attrs, value) =>
      JObject([JMember(ATTRIBUTES, JArray(PairContents(attrs))), JMember(VALUE, Content(value))])
  }

  function Contents(items: seq<Resp.Value>): (r: seq<Json>)
    ensures |r| == |items|
    decreases items, 1
  {
    if items == [] then [] else [Content(items[0])] + Contents(items[1..])
  }

  function PairContent(e: Resp.Entry): Json
    decreases e, 1
  {
    JArray([Content(e.key), Content(e.val)])
  }

  function PairContents(entries: seq<Resp.Entry>): (r: seq<Json>)
    ensures |r| == |entries|
    decreases entries, 2
  {
    if entries == [] then [] else [PairContent(entries[0])] + PairContents(entries[1..])
  }

  // ---------------------------------------------------------------- the printer prints the content

  predicate IsPlain(t: Text) {
    forall k :: 0 <= k < |t| ==> 0x20 <= t[k] < 0x80 && t[k] != 0x22 && t[k] != 0x5C
  }

  lemma {:induction false} PlainIsUnescaped(t: Text)
    requires IsPlain(t)
    ensures EscapeAll(t) == t
  {
    if t != [] {
      PlainIsUnescaped(t[1..]);
      assert EscapeChar(t[0]) == [t[0]];
      assert t == [t[0]] + t[1..];
    }
  }

  lemma {:induction false} LabelPrints(key: Text)
    requires IsPlain(key)
    ensures Label(key) == JsonString(key) + [COLON]
  {
    PlainIsUnescaped(key);
  }

  lemma {:induction false} OneMember(m: JMember)
    ensures PrintJson(JObject([m])) == [OPEN_BRACE] + PrintMember(m) + [CLOSE_BRACE]
  {
    hide PrintMember;
  }

  lemma {:induction false} TwoMembers(m: JMember, n: JMember)
    ensures PrintJson(JObject([m, n])) == [OPEN_BRACE] + PrintMember(m) + [COMMA] + PrintMember(n) + [CLOSE_BRACE]
  {
    hide PrintMember;
    var ms := [m, n];
    assert ms[1..] == [n];
    assert PrintMembers(ms) == PrintMember(m) + [COMMA] + PrintMember(n);
  }

  lemma {:induction false} TwoItems(a: Json, c: Json)
    ensures PrintJson(JArray([a, c])) == [OPEN_BRACKET] + PrintJson(a) + [COMMA] + PrintJson(c) + [CLOSE_BRACKET]
  {
    hide PrintJson;
    var items := [a, c];
    assert items[1..] == [c];
    assert PrintItems(items) == PrintJson(a) + [COMMA] + PrintJson(c);
    PrintArray(items);
  }

  lemma {:induction false} PrintArray(items: seq<Json>)
    ensures PrintJson(JArray(items)) == [OPEN_BRACKET] + PrintItems(items) + [CLOSE_BRACKET]
  {
  }

  lemma {:induction false} BytesJsonPrints(b: Bytes)
    ensures BytesJson(b) == PrintJson(BytesContent(b))
  {
    hide Encode64, Valid, JsonString, PrintMember;
    if !Valid(b) {
      var t := Encode64(b);
      Base64IsPlain(b);
      PlainIsUnescaped(t);
      LabelPrints(B64);
      var m := JMember(B64, JString(PlainText(t)));
      OneMember(m);
      MemberPrints(m);
      assert JsonString(t) == [QUOTE] + t + [QUOTE] by { QuotePlain(t); }
      hide Label, QUOTE, OPEN_BRACE, CLOSE_BRACE, COLON;
      RegroupMember([OPEN_BRACE], Label(B64), [QUOTE], t, [CLOSE_BRACE]);
      assert [QUOTE, CLOSE_BRACE] == [QUOTE] + [CLOSE_BRACE];
    }
  }

  lemma {:induction false} RegroupMember(o: Bytes, k: Bytes, q: Bytes, t: Bytes, c: Bytes)
    ensures o + k + q + t + (q + c) == o + (k + (q + t + q)) + c
  {
  }

  lemma {:induction false} QuotePlain(t: Text)
    requires IsPlain(t)
    ensures JsonString(t) == [QUOTE] + t + [QUOTE]
  {
    PlainIsUnescaped(t);
  }

  lemma {:induction false} MemberPrints(m: JMember)
    ensures PrintMember(m) == JsonString(m.key) + [COLON] + PrintJson(m.value)
  {
  }

  /** Joining printed items with commas prints the list. */
  lemma {:induction false} JoinPrints(parts: seq<Bytes>, items: seq<Json>)
    requires |parts| == |items| && forall k :: 0 <= k < |items| ==> parts[k] == PrintJson(items[k])
    ensures Join(parts) == PrintItems(items)
    decreases |items|
  {
    hide PrintJson;
    if |items| > 1 {
      JoinPrints(parts[1..], items[1..]);
    }
  }

  /** `json_value` writes exactly the printed form of the content. */
  lemma {:induction false} JsonValuePrints(v: Resp.Value)
    ensures JsonValue(v) == PrintJson(Content(v))
    decreases v, 0
  {
    hide BytesJson, BytesContent, PrintJson, Join, PrintItems, Label;
    match v
    case Simple(b) => BytesJsonPrints(b);
    case Error(b) => BytesJsonPrints(b);
    case BulkError(b) => BytesJsonPrints(b);
    case Bulk(b) => BytesJsonPrints(b);
    case Double(b) => BytesJsonPrints(b);
    case BigNumber(b) => BytesJsonPrints(b);
    case Integer(n) => PrintScalars(ShowInt(n), true);
    case Null(_) => PrintScalars([], true);
    case Boolean(t) => PrintScalars([], t);
    case Verbatim(format, data) => VerbatimPrints(format, data);
    case Array(items) => ListPrints(items);
    case Set(items) => ListPrints(items);
    case Push(items) => ListPrints(items);
    case Map(entries) => PairListPrints(entries);
    case Attribute(attrs, value) =>
      PairListPrints(attrs);
      JsonValuePrints(value);
      AttributePrints(attrs, value);
  }

  lemma {:induction false} PrintScalars(s: Bytes, t: bool)
    ensures PrintJson(JNumber(s)) == s && PrintJson(JNull) == NULL && PrintJson(JBool(t)) == if t then TRUE else FALSE
  {
  }

  lemma {:induction false} VerbatimPrints(format: Bytes, data: Bytes)
    ensures JsonValue(Resp.Verbatim(format, data)) == PrintJson(Content(Resp.Verbatim(format, data)))
  {
    hide BytesJson, BytesContent, PrintJson, JsonString, Label, PrintMember;
    var m, n := JMember(FORMAT, BytesContent(format)), JMember(DATA, BytesContent(data));
    LabelPrints(FORMAT);
    LabelPrints(DATA);
    BytesJsonPrints(format);
    BytesJsonPrints(data);
    MemberPrints(m);
    MemberPrints(n);
    TwoMembers(m, n);
    assert PrintMember(m) == Label(FORMAT) + BytesJson(format);
    assert PrintMember(n) == Label(DATA) + BytesJson(data);
  }

  lemma {:induction false} AttributePrints(attrs: seq<Resp.Entry>, value: Resp.Value)
    requires [OPEN_BRACKET] + Join(JsonPairs(attrs)) + [CLOSE_BRACKET] == PrintJson(JArray(PairContents(attrs)))
    requires JsonValue(value) == PrintJson(Content(value))
    ensures JsonValue(Resp.Attribute(attrs, value)) == PrintJson(Content(Resp.Attribute(attrs, value)))
  {
    hide PrintJson, JsonString, Label, PrintMember, Join, JsonPairs, PairContents;
    var list := JArray(PairContents(attrs));
    var m, n := JMember(ATTRIBUTES, list), JMember(VALUE, Content(value));
    LabelPrints(ATTRIBUTES);
    LabelPrints(VALUE);
    MemberPrints(m);
    MemberPrints(n);
    TwoMembers(m, n);
    RegroupMembers([OPEN_BRACE], Label(ATTRIBUTES), [OPEN_BRACKET], Join(JsonPairs(attrs)), [CLOSE_BRACKET],
                   [COMMA], Label(VALUE), JsonValue(value), [CLOSE_BRACE]);
  }

  lemma {:induction false} RegroupMembers(o: Bytes, k: Bytes, a: Bytes, x: Bytes, z: Bytes, m: Bytes, l: Bytes, v: Bytes, c: Bytes)
    ensures o + k + a + x + z + m + l + v + c == o + (k + (a + x + z)) + m + (l + v) + c
  {
    assert o + k + a + x + z == o + (k + (a + x + z));
    var f := o + (k + (a + x + z)) + m;
    assert f + l + v == f + (l + v);
  }

  lemma {:induction false} ListPrints(items: seq<Resp.Value>)
    ensures [OPEN_BRACKET] + Join(JsonValues(items)) + [CLOSE_BRACKET] == PrintJson(JArray(Contents(items)))
    decreases items, 2
  {
    hide PrintJson, Join, PrintItems;
    ItemsPrint(items);
    JoinPrints(JsonValues(items), Contents(items));
    PrintArray(Contents(items));
  }

  lemma {:induction false} ItemsPrint(items: seq<Resp.Value>)
    ensures |JsonValues(items)| == |items|
    ensures forall k :: 0 <= k < |items| ==> JsonValues(items)[k] == PrintJson(Contents(items)[k])
    decreases items, 1
  {
    hide PrintJson, JsonValue, Content;
    if items != [] {
      JsonValuePrints(items[0]);
      ItemsPrint(items[1..]);
    }
  }

  lemma {:induction false} PairListPrints(entries: seq<Resp.Entry>)
    ensures [OPEN_BRACKET] + Join(JsonPairs(entries)) + [CLOSE_BRACKET] == PrintJson(JArray(PairContents(entries)))
    decreases entries, 3
  {
    hide PrintJson, Join, PrintItems;
    PairsPrint(entries);
    JoinPrints(JsonPairs(entries), PairContents(entries));
    PrintArray(PairContents(entries));
  }

  lemma {:induction false} PairPrints(e: Resp.Entry)
    ensures JsonPair(e) == PrintJson(PairContent(e))
    decreases e, 1
  {
    hide PrintJson, JsonValue, Content;
    JsonValuePrints(e.key);
    JsonValuePrints(e.val);
    TwoItems(Content(e.key), Content(e.val));
  }

  lemma {:induction false} PairsPrint(entries: seq<Resp.Entry>)
    ensures |JsonPairs(entries)| == |entries|
    ensures forall k :: 0 <= k < |entries| ==> JsonPairs(entries)[k] == PrintJson(PairContents(entries)[k])
    decreases entries, 2
  {
    hide PrintJson, JsonPair, PairContent;
    if entries != [] {
      PairPrints(entries[0]);
      PairsPrint(entries[1..]);
    }
  }

  // ---------------------------------------------------------------- numbers and depth of the content

  lemma {:induction false} DigitsToEnd(s: Bytes, i: nat)
    requires i <= |s| && forall k :: i <= k < |s| ==> IsDigit(s[k])
    ensures Digits(s, i) == |s|
    decreases |s| - i
  {
    if i < |s| {
      DigitsToEnd(s, i + 1);
    }
  }

  /** A printed integer is one JSON number. */
  lemma {:induction false} IntegerIsNumber(n: int)
    ensures IsNumber(ShowInt(n))
  {
    hide Digits, Show;
    var s := ShowInt(n);
    var a := AfterMinus(s, 0);
    if n != 0 {
      DigitsToEnd(s, a);
    }
  }

  predicate LexicalAll(items: seq<Json>) {
    forall k :: 0 <= k < |items| ==> Lexical(items[k])
  }

  lemma {:induction false} BytesContentIsLexical(b: Bytes)
    ensures Lexical(BytesContent(b)) && Levels(BytesContent(b), 2)
  {
    hide Encode64, Valid;
  }

  lemma {:induction false} ContentIsLexical(v: Resp.Value)
    ensures Lexical(Content(v))
    decreases v, 0
  {
    hide BytesContent, IsNumber, ShowInt;
    match v
    case Simple(b) => BytesContentIsLexical(b);
    case Error(b) => BytesContentIsLexical(b);
    case BulkError(b) => BytesContentIsLexical(b);
    case Bulk(b) => BytesContentIsLexical(b);
    case Double(b) => BytesContentIsLexical(b);
    case BigNumber(b) => BytesContentIsLexical(b);
    case Integer(n) => IntegerIsNumber(n);
    case Null(_) =>
    case Boolean(_) =>
    case Verbatim(format, data) => BytesContentIsLexical(format); BytesContentIsLexical(data);
    case Array(items) => ContentsAreLexical(items);
    case Set(items) => ContentsAreLexical(items);
    case Push(items) => ContentsAreLexical(items);
    case Map(entries) => PairContentsAreLexical(entries);
    case Attribute(attrs, value) => PairContentsAreLexical(attrs); ContentIsLexical(value);
  }

  lemma {:induction false} ContentsAreLexical(items: seq<Resp.Value>)
    ensures LexicalAll(Contents(items))
    decreases items, 1
  {
    hide Content, Lexical;
    if items != [] {
      ContentIsLexical(items[0]);
      ContentsAreLexical(items[1..]);
    }
  }

  lemma {:induction false} PairContentsAreLexical(entries: seq<Resp.Entry>)
    ensures LexicalAll(PairContents(entries))
    decreases entries, 1
  {
    hide Content;
    if entries != [] {
      PairContentIsLexical(entries[0]);
      PairContentsAreLexical(entries[1..]);
    }
  }

  lemma {:induction false} PairContentIsLexical(e: Resp.Entry)
    ensures Lexical(PairContent(e))
    decreases e, 0
  {
    hide Content;
    ContentIsLexical(e.key);
    ContentIsLexical(e.val);
  }

  predicate LevelsAll(items: seq<Json>, budget: int) {
    forall k :: 0 <= k < |items| ==> Levels(items[k], budget)
  }

  lemma {:induction false} LevelsGrow(j: Json, budget: int, more: int)
    requires Levels(j, budget) && budget <= more
    ensures Levels(j, more)
    decreases j
  {
    match j
    case JArray(items) =>
      forall k | 0 <= k < |items| ensures Levels(items[k], more - 1) { LevelsGrow(items[k], budget - 1, more - 1); }
    case JObject(members) =>
      forall k | 0 <= k < |members| ensures Levels(members[k].value, more - 1) { LevelsGrow(members[k].value, budget - 1, more - 1); }
    case _ =>
  }

  /** Three JSON levels for each RESP level suffice. */
  lemma {:induction false} ContentLevels(v: Resp.Value)
    ensures Levels(Content(v), 3 * Resp.Depth(v))
    decreases v, 0
  {
    hide BytesContent, LevelsAll;
    match v
    case Simple(b) => BytesLevels(b, 3);
    case Error(b) => BytesLevels(b, 3);
    case BulkError(b) => BytesLevels(b, 3);
    case Bulk(b) => BytesLevels(b, 3);
    case Double(b) => BytesLevels(b, 3);
    case BigNumber(b) => BytesLevels(b, 3);
    case Integer(n) =>
    case Null(_) =>
    case Boolean(_) =>
    case Verbatim(format, data) => BytesLevels(format, 2); BytesLevels(data, 2);
    case Array(items) => ListLevels(items);
    case Set(items) => ListLevels(items);
    case Push(items) => ListLevels(items);
    case Map(entries) => PairListLevels(entries, 3 * Resp.Depth(v));
    case Attribute(attrs, value) =>
      PairListLevels(attrs, 3 * Resp.Depth(v) - 1);
      ContentLevels(value);
      LevelsGrow(Content(value), 3 * Resp.Depth(value), 3 * Resp.Depth(v) - 1);
  }

  lemma {:induction false} BytesLevels(b: Bytes, budget: int)
    requires budget >= 2
    ensures Levels(BytesContent(b), budget)
  {
    BytesContentIsLexical(b);
    LevelsGrow(BytesContent(b), 2, budget);
  }

  lemma {:induction false} ListLevels(items: seq<Resp.Value>)
    ensures Levels(JArray(Contents(items)), 3 * (1 + Resp.MaxDepth(items)))
    decreases items, 2
  {
    hide Content;
    ContentsLevels(items, 3 * Resp.MaxDepth(items) + 2);
  }

  lemma {:induction false} ContentsLevels(items: seq<Resp.Value>, budget: int)
    requires budget >= 3 * Resp.MaxDepth(items)
    ensures LevelsAll(Contents(items), budget)
    decreases items, 1
  {
    hide Content, Levels, Resp.Depth;
    if items != [] {
      ContentLevels(items[0]);
      LevelsGrow(Content(items[0]), 3 * Resp.Depth(items[0]), budget);
      ContentsLevels(items[1..], budget);
    }
  }

  lemma {:induction false} PairListLevels(entries: seq<Resp.Entry>, budget: int)
    requires budget >= 3 * Resp.MaxEntryDepth(entries) + 2
    ensures Levels(JArray(PairContents(entries)), budget)
    decreases entries, 3
  {
    hide PairContent;
    PairsLevels(entries, budget - 1);
  }

  lemma {:induction false} PairsLevels(entries: seq<Resp.Entry>, budget: int)
    requires budget >= 3 * Resp.MaxEntryDepth(entries) + 1
    ensures LevelsAll(PairContents(entries), budget)
    decreases entries, 2
  {
    hide PairContent, Levels, Resp.Depth;
    if entries != [] {
      PairLevels(entries[0], budget);
      PairsLevels(entries[1..], budget);
    }
  }

  lemma {:induction false} PairLevels(e: Resp.Entry, budget: int)
    requires budget >= 3 * Resp.EntryDepth(e) + 1
    ensures Levels(PairContent(e), budget)
    decreases e, 1
  {
    hide Content, Resp.Depth;
    ContentLevels(e.key);
    ContentLevels(e.val);
    LevelsGrow(Content(e.key), 3 * Resp.Depth(e.key), budget - 1);
    LevelsGrow(Content(e.val), 3 * Resp.Depth(e.val), budget - 1);
  }

  /**
    The text of any RESP value is a document of the repository's own parser when the limit allows three
    levels for each level of the value, and the tree reads back as the value's content.
   */
  lemma {:induction false} JsonValueParses(v: Resp.Value)
    ensures var r := ParseDocument(JsonValue(v), 3 * Resp.Depth(v));
            r.Ok? && ReadJson(r.value.source, r.value.root) == Some(Content(v))
  {
    hide Content, JsonValue, Lexical, Levels, ParseDocument, ReadJson;
    JsonValuePrints(v);
    ContentIsLexical(v);
    ContentLevels(v);
    PrintThenParse(Content(v), 3 * Resp.Depth(v));
  }

  // ---------------------------------------------------------------- what the text tells apart

  /** What the text shows of a value: not which string, which null or which list it was. */
  datatype Face =
    | Octets(data: Bytes)
    | Whole(number: Resp.I64)
    | Nothing
    | Truth(truth: bool)
    | Tagged(format: Bytes, payload: Bytes)
    | List(items: seq<Face>)
    | Decorated(attrs: seq<Face>, value: Face)

  function FaceOf(v: Resp.Value): Face
    decreases v, 0
  {
    match v
    case Simple(b) => Octets(b)
    case Error(b) => Octets(b)
    case BulkError(b) => Octets(b)
    case Bulk(b) => Octets(b)
    case Double(b) => Octets(b)
    case BigNumber(b) => Octets(b)
    case Integer(n) => Whole(n)
    case Null(_) => Nothing
    case Boolean(t) => Truth(t)
    case Verbatim(format, data) => Tagged(format, data)
    case Array(items) => List(FacesOf(items))
    case Set(items) => List(FacesOf(items))
    case Push(items) => List(FacesOf(items))
    case Map(entries) => List(PairFaces(entries))
    case Attribute(attrs, value) => Decorated(PairFaces(attrs), FaceOf(value))
  }

  function FacesOf(items: seq<Resp.Value>): seq<Face>
    decreases items, 1
  {
    if items == [] then [] else [FaceOf(items[0])] + FacesOf(items[1..])
  }

  function PairFace(e: Resp.Entry): Face
    decreases e, 1
  {
    List([FaceOf(e.key), FaceOf(e.val)])
  }

  function PairFaces(entries: seq<Resp.Entry>): seq<Face>
    decreases entries, 2
  {
    if entries == [] then [] else [PairFace(entries[0])] + PairFaces(entries[1..])
  }

  function Render(f: Face): Json
    decreases f, 0
  {
    match f
    case Octets(b) => BytesContent(b)
    case Whole(n) => JNumber(ShowInt(n))
    case Nothing => JNull
    case Truth(t) => JBool(t)
    case Tagged(format, data) => JObject([JMember(FORMAT, BytesContent(format)), JMember(DATA, BytesContent(data))])
    case List(items) => JArray(RenderAll(items))
    case Decorated(attrs, value) =>
      JObject([JMember(ATTRIBUTES, JArray(RenderAll(attrs))), JMember(VALUE, Render(value))])
  }

  function RenderAll(items: seq<Face>): (r: seq<Json>)
    ensures |r| == |items|
    decreases items, 1
  {
    if items == [] then [] else [Render(items[0])] + RenderAll(items[1..])
  }

  lemma {:induction false} ContentIsRendered(v: Resp.Value)
    ensures Content(v) == Render(FaceOf(v))
    decreases v, 0
  {
    hide BytesContent, ShowInt, Contents, FacesOf, RenderAll, PairContents, PairFaces;
    match v
    case Array(items) => ContentsAreRendered(items);
    case Set(items) => ContentsAreRendered(items);
    case Push(items) => ContentsAreRendered(items);
    case Map(entries) => PairContentsAreRendered(entries);
    case Attribute(attrs, value) => PairContentsAreRendered(attrs); ContentIsRendered(value);
    case _ =>
  }

  lemma {:induction false} ContentsAreRendered(items: seq<Resp.Value>)
    ensures Contents(items) == RenderAll(FacesOf(items))
    decreases items, 1
  {
    hide Content, FaceOf, Render;
    if items != [] {
      ContentIsRendered(items[0]);
      ContentsAreRendered(items[1..]);
      RenderMore(FaceOf(items[0]), FacesOf(items[1..]));
    }
  }

  lemma {:induction false} RenderMore(f: Face, rest: seq<Face>)
    ensures RenderAll([f] + rest) == [Render(f)] + RenderAll(rest)
  {
    hide Render;
    assert ([f] + rest)[1..] == rest;
  }

  lemma {:induction false} PairContentsAreRendered(entries: seq<Resp.Entry>)
    ensures PairContents(entries) == RenderAll(PairFaces(entries))
    decreases entries, 2
  {
    hide PairContent, PairFace, Render;
    if entries != [] {
      PairContentIsRendered(entries[0]);
      PairContentsAreRendered(entries[1..]);
      RenderMore(PairFace(entries[0]), PairFaces(entries[1..]));
    }
  }

  lemma {:induction false} PairContentIsRendered(e: Resp.Entry)
    ensures PairContent(e) == Render(PairFace(e))
    decreases e, 1
  {
    hide Content, FaceOf;
    ContentIsRendered(e.key);
    ContentIsRendered(e.val);
    var k, v := FaceOf(e.key), FaceOf(e.val);
    RenderMore(k, [v]);
    assert [k] + [v] == [k, v];
    RenderMore(v, []);
    assert [v] + [] == [v] && RenderAll([]) == [];
    assert [Render(k)] + [Render(v)] == [Render(k), Render(v)];
  }

  /** The octets a consumer recovers from a string or a `b64` object. */
  function Recover(j: Json): Option<Bytes> {
    match j
    case JString(t) => Some(Utf8.EncodeAll(t))
    case JObject(members) =>
      if |members| == 1 && members[0].key == B64 && members[0].value.JString?
         && (forall k :: 0 <= k < |members[0].value.text| ==> members[0].value.text[k] < 0x80)
      then Decode64(members[0].value.text) else None
    case _ => None
  }

  /** Every byte string is recovered, whether or not it is UTF-8. */
  lemma {:induction false} RecoverBytes(b: Bytes)
    ensures Recover(BytesContent(b)) == Some(b)
  {
    hide Encode64, Decode64, Valid, Decode, Utf8.EncodeAll;
    if Valid(b) {
      EncodeOfDecode(b);
    } else {
      Base64IsPlain(b);
      Base64RoundTrip(b);
    }
  }

  /** The integer a printed integer stands for. */
  function IntValue(s: Bytes): int {
    if s != [] && s[0] == MINUS then -DecimalValue(s[1..]) else DecimalValue(s)
  }

  lemma {:induction false} IntRoundTrip(n: int)
    ensures IntValue(ShowInt(n)) == n
  {
    if n < 0 {
      ValueOfShow(-n);
      assert ShowInt(n)[1..] == Show(-n);
    } else {
      ValueOfShow(n);
    }
  }

  /** Distinct faces have distinct contents. */
  lemma {:induction false} RenderIsInjective(f: Face, g: Face)
    requires Render(f) == Render(g)
    ensures f == g
    decreases f, 0
  {
    hide BytesContent, ShowInt, RenderAll;
    match f
    case Octets(b) =>
      BytesContentShape(b);
      if g.Octets? {
        RecoverBytes(b);
        RecoverBytes(g.data);
      }
    case Whole(n) =>
      IntRoundTrip(n);
      BytesContentShape(if g.Octets? then g.data else []);
      if g.Whole? {
        IntRoundTrip(g.number);
      }
    case Tagged(format, data) =>
      BytesContentShape(if g.Octets? then g.data else []);
      if g.Tagged? {
        SameTwo(Render(f).members[0], Render(f).members[1], Render(g).members[0], Render(g).members[1]);
        RecoverBytes(format);
        RecoverBytes(data);
        RecoverBytes(g.format);
        RecoverBytes(g.payload);
      } else {
        DifferentKeys();
      }
    case List(items) =>
      BytesContentShape(if g.Octets? then g.data else []);
      if g.List? {
        RenderAllIsInjective(items, g.items);
      }
    case Decorated(attrs, value) =>
      BytesContentShape(if g.Octets? then g.data else []);
      if g.Decorated? {
        SameTwo(Render(f).members[0], Render(f).members[1], Render(g).members[0], Render(g).members[1]);
        RenderAllIsInjective(attrs, g.attrs);
        RenderIsInjective(value, g.value);
      } else {
        DifferentKeys();
      }
    case _ =>
      BytesContentShape(if g.Octets? then g.data else []);
  }

  /** A byte string is never shown as a scalar other than a string, a list, or an object of two members. */
  lemma {:induction false} BytesContentShape(b: Bytes)
    ensures var j := BytesContent(b); j.JString? || (j.JObject? && |j.members| == 1)
  {
    hide Encode64, Valid;
  }

  lemma {:induction false} DifferentKeys()
    ensures FORMAT[0] != ATTRIBUTES[0]
  {
  }

  lemma {:induction false} SameTwo(a: JMember, b: JMember, c: JMember, d: JMember)
    requires [a, b] == [c, d]
    ensures a == c && b == d
  {
    assert [a, b][0] == [c, d][0] && [a, b][1] == [c, d][1];
  }

  lemma {:induction false} RenderAllIsInjective(x: seq<Face>, y: seq<Face>)
    requires RenderAll(x) == RenderAll(y)
    ensures x == y
    decreases x, 1
  {
    hide Render;
    if x != [] {
      assert y != [] by { assert |RenderAll(y)| == |y|; }
      assert RenderAll(x)[0] == Render(x[0]) && RenderAll(y)[0] == Render(y[0]);
      assert RenderAll(x)[1..] == RenderAll(x[1..]) && RenderAll(y)[1..] == RenderAll(y[1..]);
      RenderIsInjective(x[0], y[0]);
      RenderAllIsInjective(x[1..], y[1..]);
      assert x == [x[0]] + x[1..] && y == [y[0]] + y[1..];
    } else {
      assert |RenderAll(y)| == |y|;
    }
  }

  lemma {:induction false} SameTextSameContent(v: Resp.Value, w: Resp.Value)
    requires JsonValue(v) == JsonValue(w)
    ensures Content(v) == Content(w)
  {
    hide Content, JsonValue, Lexical, Levels;
    var max := 3 * Resp.Depth(v) + 3 * Resp.Depth(w);
    JsonValuePrints(v);
    JsonValuePrints(w);
    ContentIsLexical(v);
    ContentIsLexical(w);
    ContentLevels(v);
    ContentLevels(w);
    LevelsGrow(Content(v), 3 * Resp.Depth(v), max);
    LevelsGrow(Content(w), 3 * Resp.Depth(w), max);
    PrintingIsInjective(Content(v), Content(w), max);
  }

  /** Two values are written alike exactly when they show the same face: no octet is ever confused. */
  lemma {:induction false} TextShowsExactlyTheFace(v: Resp.Value, w: Resp.Value)
    ensures JsonValue(v) == JsonValue(w) <==> FaceOf(v) == FaceOf(w)
  {
    hide Content, JsonValue, FaceOf, Render, PrintJson;
    ContentIsRendered(v);
    ContentIsRendered(w);
    if JsonValue(v) == JsonValue(w) {
      SameTextSameContent(v, w);
      RenderIsInjective(FaceOf(v), FaceOf(w));
    }
    JsonValuePrints(v);
    JsonValuePrints(w);
  }
}
