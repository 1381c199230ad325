/** What an event line shows, read off the derivation of its text. */
module EventReading {
  import opened Prelude
  import opened Utf8
  import opened Base64
  import opened JsonDom
  import opened JsonText
  import opened JsonGrammar
  import opened JsonReading
  import opened EventJson
  import Decimal
  import Emitter
  import Resp = RespValue

  /** UTF-8 as the string it is, and other octets in base64. */
  ghost predicate ShowsOctets(t: Tree, b: Bytes) {
    if IsUtf8(b) then t.OfString? && TokenCarries(t.token, b)
    else JsonReading.OneMember(t, "b64") && ShowsBase64(t.members[0].value, b)
  }

  /** A member of this name. */
  ghost predicate Named(m: Part, name: string)
    requires forall k :: 0 <= k < |name| ==> name[k] < 128 as char
  {
    BarePart(m) && TokenCarries(m.key, Ascii(name))
  }

  ghost predicate MembersAre(t: Tree, n: nat) {
    t.OfObject? && t.hollow == [] && |t.members| == n
  }

  // ---------------------------------------------------------------- values

  /** `t` shows `v`: which octets, numbers, truths and lists, and what stands beside what. */
  ghost predicate Shows(v: Resp.Value, t: Tree)
    decreases v, 0
  {
    match v
    case Simple(b) => ShowsOctets(t, b)
    case Error(b) => ShowsOctets(t, b)
    case BulkError(b) => ShowsOctets(t, b)
    case Bulk(b) => ShowsOctets(t, b)
    case Double(lexeme) => ShowsOctets(t, lexeme)
    case BigNumber(digits) => ShowsOctets(t, digits)
    case Integer(n) => t.OfNumber? && Resp.IsNumeral(t.lexeme, n)
    case Null(_) => t.OfNull?
    case Boolean(truth) => if truth then t.OfTrue? else t.OfFalse?
    case Verbatim(format, data) =>
      && MembersAre(t, 2) && Named(t.members[0], "format") && Named(t.members[1], "data")
      && ShowsOctets(t.members[0].value, format) && ShowsOctets(t.members[1].value, data)
    case Array(items) => ShowsItems(items, t)
    case Set(items) => ShowsItems(items, t)
    case Push(items) => ShowsItems(items, t)
    case Map(entries) => ShowsPairs(entries, t)
    case Attribute(attrs, value) =>
      && MembersAre(t, 2) && Named(t.members[0], "attributes") && Named(t.members[1], "value")
      && ShowsPairs(attrs, t.members[0].value) && Shows(value, t.members[1].value)
  }

  ghost predicate ShowsItems(items: seq<Resp.Value>, t: Tree)
    decreases items, 1
  {
    && t.OfArray? && t.hollow == [] && |t.items| == |items|
    && forall k :: 0 <= k < |items| ==> Bare(t.items[k]) && Shows(items[k], t.items[k].value)
  }

  /** Each entry is a list of its key and its value, in this order, whether or not keys repeat. */
  ghost predicate ShowsPairs(entries: seq<Resp.Entry>, t: Tree)
    decreases entries, 2
  {
    && t.OfArray? && t.hollow == [] && |t.items| == |entries|
    && forall k :: 0 <= k < |entries| ==> Bare(t.items[k]) && ShowsPair(entries[k], t.items[k].value)
  }

  ghost predicate ShowsPair(e: Resp.Entry, t: Tree)
    decreases e, 1
  {
    && t.OfArray? && t.hollow == [] && |t.items| == 2 && Bare(t.items[0]) && Bare(t.items[1])
    && Shows(e.key, t.items[0].value) && Shows(e.val, t.items[1].value)
  }

  lemma {:induction false} OctetsShow(b: Bytes)
    ensures ShowsOctets(TreeOf(BytesContent(b)), b)
  {
    hide Valid, Decode, Encode64, JsonString, TokenCarries, IsUtf8, PlainText;
    Utf8Iff(b);
    if Valid(b) {
      PrintedCarries(b);
    } else {
      var code := Encode64(b);
      CodeIsAscii(b);
      OneOf(B64, JString(code));
      assert B64 == Ascii("b64");
      AsciiCarries(B64);
      AsciiCarries(code);
      Base64RoundTrip(b);
    }
  }

  /** The tree of an object of two members. */
  lemma {:induction false} TwoOf(k: Text, x: Json, l: Text, y: Json)
    requires (forall i :: 0 <= i < |k| ==> k[i] < 0x80) && forall i :: 0 <= i < |l| ==> l[i] < 0x80
    ensures var t := TreeOf(JObject([JMember(k, x), JMember(l, y)]));
            && MembersAre(t, 2) && BarePart(t.members[0]) && BarePart(t.members[1])
            && TokenCarries(t.members[0].key, k) && TokenCarries(t.members[1].key, l)
            && t.members[0].value == TreeOf(x) && t.members[1].value == TreeOf(y)
  {
    hide TreeOf, TokenCarries, JsonString, PartsOf;
    var ms := [JMember(k, x), JMember(l, y)];
    ObjectTree(ms);
    PartsOfAt(ms, 0);
    PartsOfAt(ms, 1);
    AsciiCarries(k);
    AsciiCarries(l);
  }

  lemma {:induction false} VerbatimShows(format: Bytes, data: Bytes)
    ensures Shows(Resp.Verbatim(format, data), TreeOf(Content(Resp.Verbatim(format, data))))
  {
    hide BytesContent, ShowsOctets, TreeOf, TokenCarries;
    assert FORMAT == Ascii("format") && DATA == Ascii("data");
    TwoOf(FORMAT, BytesContent(format), DATA, BytesContent(data));
    OctetsShow(format);
    OctetsShow(data);
  }

  lemma {:induction false} AttributeShows(attrs: seq<Resp.Entry>, value: Resp.Value)
    ensures Shows(Resp.Attribute(attrs, value), TreeOf(Content(Resp.Attribute(attrs, value))))
    decreases Resp.Attribute(attrs, value), 0
  {
    hide Content, Shows, ShowsPairs, TreeOf, TokenCarries;
    assert ATTRIBUTES == Ascii("attributes") && VALUE == Ascii("value");
    TwoOf(ATTRIBUTES, JArray(PairContents(attrs)), VALUE, Content(value));
    PairsShow(attrs);
    ContentShows(value);
    AttributeIs(attrs, value, TreeOf(Content(Resp.Attribute(attrs, value))));
  }

  lemma {:induction false} AttributeIs(attrs: seq<Resp.Entry>, value: Resp.Value, t: Tree)
    ensures Content(Resp.Attribute(attrs, value))
         == JObject([JMember(ATTRIBUTES, JArray(PairContents(attrs))), JMember(VALUE, Content(value))])
    ensures Shows(Resp.Attribute(attrs, value), t) <==>
              && MembersAre(t, 2) && Named(t.members[0], "attributes") && Named(t.members[1], "value")
              && ShowsPairs(attrs, t.members[0].value) && Shows(value, t.members[1].value)
  {
    hide Named, ShowsPairs;
  }

  /** The content an event carries shows the value. */
  lemma {:induction false} ContentShows(v: Resp.Value)
    ensures Shows(v, TreeOf(Content(v)))
    decreases v, 1
  {
    hide BytesContent, ShowsOctets, ShowInt, Resp.IsNumeral, ShowsItems, ShowsPairs, ItemsOf, PartsOf;
    match v
    case Simple(b) => OctetsShow(b);
    case Error(b) => OctetsShow(b);
    case BulkError(b) => OctetsShow(b);
    case Bulk(b) => OctetsShow(b);
    case Double(b) => OctetsShow(b);
    case BigNumber(b) => OctetsShow(b);
    case Integer(n) => IntegerShows(n);
    case Verbatim(format, data) => VerbatimShows(format, data);
    case Array(items) => ItemsShow(items);
    case Set(items) => ItemsShow(items);
    case Push(items) => ItemsShow(items);
    case Map(entries) => PairsShow(entries);
    case Attribute(attrs, value) => AttributeShows(attrs, value);
    case _ =>
  }

  lemma {:induction false} ContentsAt(items: seq<Resp.Value>, k: nat)
    requires k < |items|
    ensures Contents(items)[k] == Content(items[k])
    decreases k
  {
    if k > 0 {
      ContentsAt(items[1..], k - 1);
    }
  }

  lemma {:induction false} PairContentsAt(entries: seq<Resp.Entry>, k: nat)
    requires k < |entries|
    ensures PairContents(entries)[k] == PairContent(entries[k])
    decreases k
  {
    if k > 0 {
      PairContentsAt(entries[1..], k - 1);
    }
  }

  lemma {:induction false} ItemsShow(items: seq<Resp.Value>)
    ensures ShowsItems(items, TreeOf(JArray(Contents(items))))
    decreases items, 2
  {
    hide Shows, Content;
    var js := Contents(items);
    forall k | 0 <= k < |items| ensures ItemsOf(js)[k] == Item([], TreeOf(js[k]), []) && Shows(items[k], TreeOf(js[k])) {
      ItemsOfAt(js, k);
      ContentsAt(items, k);
      ContentShows(items[k]);
    }
  }

  lemma {:induction false} PairsShow(entries: seq<Resp.Entry>)
    ensures ShowsPairs(entries, TreeOf(JArray(PairContents(entries))))
    decreases entries, 2
  {
    hide ShowsPair, PairContent, PairContents, TreeOf;
    var js := PairContents(entries);
    ArrayTree(js);
    forall k | 0 <= k < |entries| ensures Bare(ItemsOf(js)[k]) && ShowsPair(entries[k], ItemsOf(js)[k].value) {
      ItemsOfAt(js, k);
      PairContentsAt(entries, k);
      PairShows(entries[k]);
    }
  }

  lemma {:induction false} PairShows(e: Resp.Entry)
    ensures ShowsPair(e, TreeOf(PairContent(e)))
    decreases e, 1
  {
    hide Shows, Content;
    var k, v := Content(e.key), Content(e.val);
    ContentShows(e.key);
    ContentShows(e.val);
    ItemsOfAt([k, v], 0);
    ItemsOfAt([k, v], 1);
    ArrayTree([k, v]);
  }

  /** The text of a value has a derivation that shows it, and the parser finds this derivation's tree. */
  lemma {:induction false} JsonValueTells(v: Resp.Value)
    ensures exists t :: Shows(v, t) && IsTreeOf(JsonValue(v), t)
    ensures ParseDocument(JsonValue(v), 3 * Resp.Depth(v)).Ok?
  {
    hide Content, JsonValue, Shows, ParseDocument, IsTreeOf, ReadJson;
    JsonValuePrints(v);
    JsonValueParses(v);
    ContentIsLexical(v);
    ContentLevels(v);
    PrintedTree(Content(v), 3 * Resp.Depth(v));
    ContentShows(v);
  }

  // ---------------------------------------------------------------- event lines

  /** The value behind its attributes. */
  function Core(v: Resp.Value): Resp.Value {
    match v
    case Attribute(_, value) => Core(value)
    case _ => v
  }

  function TypeWord(v: Resp.Value): (word: string)
    ensures forall k :: 0 <= k < |word| ==> word[k] < 128 as char
  {
    match v
    case Simple(_) => "simple"
    case Error(_) => "error"
    case Integer(_) => "integer"
    case Bulk(_) => "bulk"
    case Null(_) => "null"
    case Array(_) => "array"
    case Boolean(_) => "boolean"
    case Double(_) => "double"
    case BigNumber(_) => "bignumber"
    case BulkError(_) => "bulkerror"
    case Verbatim(_, _) => "verbatim"
    case Map(_) => "map"
    case Set(_) => "set"
    case Attribute(_, _) => "attribute"
    case Push(_) => "push"
  }

  function KindWord(v: Resp.Value): (word: string)
    ensures forall k :: 0 <= k < |word| ==> word[k] < 128 as char
  {
    if Core(v).Push? then "push" else "reply"
  }

  ghost predicate ShowsWord(t: Tree, word: string)
    requires forall k :: 0 <= k < |word| ==> word[k] < 128 as char
  {
    t.OfString? && TokenCarries(t.token, Ascii(word))
  }

  ghost predicate ShowsNumber(t: Tree, n: nat) {
    t.OfNumber? && Resp.AllDigits(t.lexeme) && Decimal.DecimalValue(t.lexeme) == n
  }

  /** Version 1, then the kind. */
  ghost predicate StartsEvent(m: Part, n: Part, v: Resp.Value) {
    && Named(m, "v") && ShowsNumber(m.value, 1)
    && Named(n, "kind") && ShowsWord(n.value, KindWord(v))
  }

  /** The number and the type. */
  ghost predicate NumbersEvent(m: Part, n: Part, seqNo: nat, v: Resp.Value) {
    && Named(m, "seq") && ShowsNumber(m.value, seqNo)
    && Named(n, "type") && ShowsWord(n.value, TypeWord(v))
  }

  ghost predicate EndsEvent(m: Part, v: Resp.Value) {
    Named(m, "value") && Shows(v, m.value)
  }

  /** Version, kind, number, type and value, in this order. */
  ghost predicate ShowsEvent(t: Tree, seqNo: nat, v: Resp.Value) {
    && MembersAre(t, 5)
    && StartsEvent(t.members[0], t.members[1], v)
    && NumbersEvent(t.members[2], t.members[3], seqNo, v) && EndsEvent(t.members[4], v)
  }

  predicate IsBasic(v: Resp.Value) {
    v.Simple? || v.Error? || v.Integer? || v.Bulk? || v.Null? || v.Array? || v.Boolean? || v.Double?
  }

  lemma {:induction false} BasicWords(v: Resp.Value)
    requires IsBasic(v)
    ensures Emitter.TypeName(v) == Ascii(TypeWord(v))
  {
  }

  lemma {:induction false} OtherWords(v: Resp.Value)
    requires !IsBasic(v)
    ensures Emitter.TypeName(v) == Ascii(TypeWord(v))
  {
  }

  lemma {:induction false} KindWordsAre()
    ensures Emitter.PUSH == Ascii("push") && Emitter.REPLY == Ascii("reply")
  {
  }

  lemma {:induction false} TypeWordIs(v: Resp.Value)
    ensures Emitter.TypeName(v) == Ascii(TypeWord(v))
  {
    hide Emitter.TypeName, TypeWord;
    if IsBasic(v) {
      BasicWords(v);
    } else {
      OtherWords(v);
    }
  }

  lemma {:induction false} KindIs(v: Resp.Value)
    ensures Emitter.Kind(v) == Ascii(KindWord(v))
    decreases v
  {
    hide Emitter.TypeName, TypeWord;
    KindWordsAre();
    if v.Attribute? {
      KindIs(v.value);
    }
  }

  lemma {:induction false} NumberShows(n: nat)
    ensures ShowsNumber(TreeOf(JNumber(ShowInt(n))), n)
  {
    ShownDigits(n);
  }

  lemma {:induction false} WordShows(word: string)
    requires forall k :: 0 <= k < |word| ==> word[k] < 128 as char
    ensures ShowsWord(TreeOf(JString(Ascii(word))), word)
  {
    hide JsonString, TokenCarries;
    AsciiCarries(Ascii(word));
  }

  /** One member of a line, by its name. */
  lemma {:induction false} MemberIs(ms: seq<JMember>, k: nat, name: string)
    requires forall k :: 0 <= k < |name| ==> name[k] < 128 as char
    requires k < |ms| && ms[k].key == Ascii(name)
    ensures Named(PartsOf(ms)[k], name) && PartsOf(ms)[k].value == TreeOf(ms[k].value)
  {
    hide JsonString, TokenCarries, TreeOf;
    PartsOfAt(ms, k);
    AsciiCarries(Ascii(name));
  }

  lemma {:induction false} MembersSpelled()
    ensures Emitter.V == Ascii("v") && Emitter.KIND == Ascii("kind") && Emitter.SEQ == Ascii("seq")
    ensures Emitter.TYPE == Ascii("type") && VALUE == Ascii("value")
  {
  }

  lemma {:induction false} LineShows(seqNo: nat, v: Resp.Value)
    ensures ShowsEvent(TreeOf(Emitter.EventContent(seqNo, v)), seqNo, v)
  {
    hide Content, Shows, Named, ShowsWord, ShowsNumber, TreeOf, PartsOf, ShowInt, Emitter.TypeName, Emitter.Kind, TypeWord, Core, KindWord;
    var ms := Emitter.EventContent(seqNo, v).members;
    ObjectTree(ms);
    MembersSpelled();
    MemberIs(ms, 0, "v");
    MemberIs(ms, 1, "kind");
    MemberIs(ms, 2, "seq");
    MemberIs(ms, 3, "type");
    MemberIs(ms, 4, "value");
    NumberShows(1);
    NumberShows(seqNo);
    KindIs(v);
    TypeWordIs(v);
    WordShows(KindWord(v));
    WordShows(TypeWord(v));
    ContentShows(v);
  }

  /** An event line has a derivation that shows the frame, and the parser finds this derivation's tree. */
  lemma {:induction false} EventLineTells(seqNo: nat, v: Resp.Value)
    ensures exists t :: ShowsEvent(t, seqNo, v) && IsTreeOf(Emitter.EventLine(seqNo, v), t)
    ensures ParseDocument(Emitter.EventLine(seqNo, v), 3 * Resp.Depth(v) + 1).Ok?
  {
    hide Content, Emitter.EventLine, ParseDocument, ReadJson, ShowInt, IsNumber, Emitter.Kind, Emitter.TypeName, ShowsEvent, IsTreeOf;
    Emitter.EventLineParses(seqNo, v);
    Emitter.EventLinePrints(seqNo, v);
    IntegerIsNumber(1);
    IntegerIsNumber(seqNo);
    ContentIsLexical(v);
    ContentLevels(v);
    PrintedTree(Emitter.EventContent(seqNo, v), 3 * Resp.Depth(v) + 1);
    LineShows(seqNo, v);
  }
}
