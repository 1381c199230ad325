/**
  The `--json` projection of `pr-application`: the content it writes, what it tells the user it lost,
  and when its text is JSON.
 */
module JsonProjection {
  import opened Prelude
  import opened Utf8
  import opened Base64
  import opened JsonDom
  import opened JsonPath
  import opened JsonDocument
  import opened JsonDuplicates
  import opened JsonText
  import opened JsonRoundTrip
  import opened JsonNumerals
  import opened EventJson
  import opened FloatSyntax
  import Resp = RespValue

  datatype Notice =
    | NonUtf8(length: nat)
    | NonFiniteDouble(lexeme: Text)
    | DuplicateMapKeys
    | NonStringMapKey
    | AttributeDiscarded
    | VerbatimFormatDiscarded(format: Text)

  /** Strictness, and which decimal texts are too large for a finite 64-bit float. */
  datatype Rules = Rules(strict: bool, huge: Text -> bool)

  // ---------------------------------------------------------------- text

  /** `text.parse::<f64>().is_ok_and(f64::is_finite)`: the named floats are not finite. */
  predicate Finite(t: Text, rules: Rules) {
    DecimalFloat(t) && !rules.huge(t)
  }

  // ---------------------------------------------------------------- the content

  const ERROR: Text := [0x65, 0x72, 0x72, 0x6F, 0x72]
  const BYTES: Text := [0x24, 0x62, 0x79, 0x74, 0x65, 0x73]

  function StringContent(b: Bytes, rules: Rules): Json {
    if Valid(b) then JString(Decode(b))
    else if rules.strict then JNull
    else JObject([JMember(BYTES, JString(PlainText(Encode64(b))))])
  }

  function DoubleContent(lexeme: Bytes, rules: Rules): Json {
    var t := Lossy(lexeme);
    if Finite(t, rules) then JNumber(Utf8.EncodeAll(t)) else JString(t)
  }

  predicate IsStringKey(v: Resp.Value) {
    (v.Simple? && Valid(v.text)) || (v.Bulk? && Valid(v.data))
  }

  function KeyText(v: Resp.Value): Text
    requires IsStringKey(v)
  {
    Decode(if v.Simple? then v.text else v.data)
  }

  predicate StringKeys(entries: seq<Resp.Entry>) {
    forall k :: 0 <= k < |entries| ==> IsStringKey(entries[k].key)
  }

  predicate DistinctKeyTexts(entries: seq<Resp.Entry>)
    requires StringKeys(entries)
  {
    forall x, y :: 0 <= x < y < |entries| ==> KeyText(entries[x].key) != KeyText(entries[y].key)
  }

  predicate AsObject(entries: seq<Resp.Entry>) {
    StringKeys(entries) && DistinctKeyTexts(entries)
  }

  /** What `render` writes: a map is an object only when its keys are distinct strings. */
  function Projected(v: Resp.Value, rules: Rules): Json
    decreases v, 0
  {
    match v
    case Simple(b) => StringContent(b, rules)
    case Bulk(b) => StringContent(b, rules)
    case Integer(n) => JNumber(ShowInt(n))
    case Double(lexeme) => DoubleContent(lexeme, rules)
    case BigNumber(d) => JString(Lossy(d))
    case Boolean(t) => JBool(t)
    case Null(_) => JNull
    case Array(items) => JArray(ProjectedAll(items, rules))
    case Set(items) => JArray(ProjectedAll(items, rules))
    case Push(items) => JArray(ProjectedAll(items, rules))
    case Map(entries) =>
      if AsObject(entries) then JObject(ProjectedMembers(entries, rules)) else JArray(ProjectedPairs(entries, rules))
    case Verbatim(_, data) => StringContent(data, rules)
    case Error(b) => JObject([JMember(ERROR, JString(Lossy(b)))])
    case BulkError(b) => JObject([JMember(ERROR, JString(Lossy(b)))])
    case Attribute(_, value) => Projected(value, rules)
  }

  function ProjectedAll(items: seq<Resp.Value>, rules: Rules): (r: seq<Json>)
    ensures |r| == |items|
    decreases items, 1
  {
    if items == [] then [] else [Projected(items[0], rules)] + ProjectedAll(items[1..], rules)
  }

  function ProjectedPair(e: Resp.Entry, rules: Rules): Json
    decreases e, 1
  {
    JArray([Projected(e.key, rules), Projected(e.val, rules)])
  }

  function ProjectedPairs(entries: seq<Resp.Entry>, rules: Rules): (r: seq<Json>)
    ensures |r| == |entries|
    decreases entries, 2
  {
    if entries == [] then [] else [ProjectedPair(entries[0], rules)] + ProjectedPairs(entries[1..], rules)
  }

  function ProjectedMember(e: Resp.Entry, rules: Rules): JMember
    requires IsStringKey(e.key)
    decreases e, 1
  {
    JMember(KeyText(e.key), Projected(e.val, rules))
  }

  function ProjectedMembers(entries: seq<Resp.Entry>, rules: Rules): (r: seq<JMember>)
    requires StringKeys(entries)
    ensures |r| == |entries|
    decreases entries, 2
  {
    if entries == [] then [] else [ProjectedMember(entries[0], rules)] + ProjectedMembers(entries[1..], rules)
  }

  // ---------------------------------------------------------------- notices

  function StringNotices(b: Bytes, rules: Rules): seq<Notice> {
    if Valid(b) || rules.strict then [] else [NonUtf8(|b|)]
  }

  function Notices(v: Resp.Value, rules: Rules): seq<Notice>
    decreases v, 0
  {
    match v
    case Simple(b) => StringNotices(b, rules)
    case Bulk(b) => StringNotices(b, rules)
    case Double(lexeme) => if Finite(Lossy(lexeme), rules) then [] else [NonFiniteDouble(Lossy(lexeme))]
    case Array(items) => AllNotices(items, rules)
    case Set(items) => AllNotices(items, rules)
    case Push(items) => AllNotices(items, rules)
    case Map(entries) =>
      if !StringKeys(entries) then [NonStringMapKey] + PairNotices(entries, rules)
      else if !DistinctKeyTexts(entries) then [DuplicateMapKeys] + PairNotices(entries, rules)
      else ValueNotices(entries, rules)
    case Verbatim(format, data) => [VerbatimFormatDiscarded(Lossy(format))] + StringNotices(data, rules)
    case Attribute(_, value) => [AttributeDiscarded] + Notices(value, rules)
    case _ => []
  }

  function AllNotices(items: seq<Resp.Value>, rules: Rules): seq<Notice>
    decreases items, 1
  {
    if items == [] then [] else Notices(items[0], rules) + AllNotices(items[1..], rules)
  }

  function EntryNotices(e: Resp.Entry, rules: Rules): seq<Notice>
    decreases e, 1
  {
    Notices(e.key, rules) + Notices(e.val, rules)
  }

  function PairNotices(entries: seq<Resp.Entry>, rules: Rules): seq<Notice>
    decreases entries, 2
  {
    if entries == [] then [] else EntryNotices(entries[0], rules) + PairNotices(entries[1..], rules)
  }

  function ValNotices(e: Resp.Entry, rules: Rules): seq<Notice>
    decreases e, 1
  {
    Notices(e.val, rules)
  }

  function ValueNotices(entries: seq<Resp.Entry>, rules: Rules): seq<Notice>
    decreases entries, 2
  {
    if entries == [] then [] else ValNotices(entries[0], rules) + ValueNotices(entries[1..], rules)
  }

  // ---------------------------------------------------------------- refusal

  function Or(a: Option<Notice>, c: Option<Notice>): Option<Notice> {
    if a.Some? then a else c
  }

  function StringRefusal(b: Bytes, rules: Rules): Option<Notice> {
    if Valid(b) || !rules.strict then None else Some(NonUtf8(|b|))
  }

  /** What `--json-strict` refuses: the first string written that is not UTF-8. */
  function Refusal(v: Resp.Value, rules: Rules): Option<Notice>
    decreases v, 0
  {
    match v
    case Simple(b) => StringRefusal(b, rules)
    case Bulk(b) => StringRefusal(b, rules)
    case Array(items) => AllRefusal(items, rules)
    case Set(items) => AllRefusal(items, rules)
    case Push(items) => AllRefusal(items, rules)
    case Map(entries) => if AsObject(entries) then ValueRefusal(entries, rules) else PairRefusal(entries, rules)
    case Verbatim(_, data) => StringRefusal(data, rules)
    case Attribute(_, value) => Refusal(value, rules)
    case _ => None
  }

  function AllRefusal(items: seq<Resp.Value>, rules: Rules): Option<Notice>
    decreases items, 1
  {
    if items == [] then None else Or(Refusal(items[0], rules), AllRefusal(items[1..], rules))
  }

  function EntryRefusal(e: Resp.Entry, rules: Rules): Option<Notice>
    decreases e, 1
  {
    Or(Refusal(e.key, rules), Refusal(e.val, rules))
  }

  function PairRefusal(entries: seq<Resp.Entry>, rules: Rules): Option<Notice>
    decreases entries, 2
  {
    if entries == [] then None else Or(EntryRefusal(entries[0], rules), PairRefusal(entries[1..], rules))
  }

  function ValRefusal(e: Resp.Entry, rules: Rules): Option<Notice>
    decreases e, 1
  {
    Refusal(e.val, rules)
  }

  function ValueRefusal(entries: seq<Resp.Entry>, rules: Rules): Option<Notice>
    decreases entries, 2
  {
    if entries == [] then None else Or(ValRefusal(entries[0], rules), ValueRefusal(entries[1..], rules))
  }

  // ---------------------------------------------------------------- numbers, levels and keys

  /** Every finite double the projection writes is a JSON number. */
  predicate DoublesAreJson(v: Resp.Value, rules: Rules)
    decreases v, 0
  {
    match v
    case Double(lexeme) => Finite(Lossy(lexeme), rules) ==> IsNumber(Utf8.EncodeAll(Lossy(lexeme)))
    case Array(items) => forall k :: 0 <= k < |items| ==> DoublesAreJson(items[k], rules)
    case Set(items) => forall k :: 0 <= k < |items| ==> DoublesAreJson(items[k], rules)
    case Push(items) => forall k :: 0 <= k < |items| ==> DoublesAreJson(items[k], rules)
    case Map(entries) => forall k :: 0 <= k < |entries| ==> EntryDoubles(entries[k], AsObject(entries), rules)
    case Attribute(_, value) => DoublesAreJson(value, rules)
    case _ => true
  }

  predicate EntryDoubles(e: Resp.Entry, valueOnly: bool, rules: Rules)
    decreases e, 1
  {
    DoublesAreJson(e.val, rules) && (valueOnly || DoublesAreJson(e.key, rules))
  }

  /** The text of a finite float is made of float characters. */
  lemma {:induction false} FloatTextOfDecimal(t: Text)
    requires DecimalFloat(t)
    ensures t != [] && forall k :: 0 <= k < |t| ==> IsFloatChar(t[k])
  {
    hide DecimalRun;
    var a := SkipSign(t, 0);
    var j := DecimalRun(t, a);
    DecimalChars(t, a);
    var k := j;
    if j < |t| && t[j] == 0x2E {
      DecimalChars(t, j + 1);
      k := DecimalRun(t, j + 1);
    }
    if k < |t| {
      DecimalChars(t, SkipSign(t, k + 1));
    }
  }

  lemma {:induction false} DecimalChars(t: Text, i: nat)
    requires i <= |t|
    ensures forall k :: i <= k < DecimalRun(t, i) ==> IsFloatChar(t[k])
    decreases |t| - i
  {
    if i < |t| && IsDecimalChar(t[i]) {
      DecimalChars(t, i + 1);
    }
  }

  lemma {:induction false} DoubleIsFloaty(lexeme: Bytes, rules: Rules)
    ensures Floaty(DoubleContent(lexeme, rules))
    ensures Lexical(DoubleContent(lexeme, rules)) <==> DoublesAreJson(Resp.Double(lexeme), rules)
  {
    hide Lossy, DecimalFloat, IsNumber;
    var t := Lossy(lexeme);
    if Finite(t, rules) {
      FloatTextOfDecimal(t);
      AsciiEncodes(t);
    }
  }

  /** What the three lemmas below establish of a piece of content. */
  ghost predicate Sound(j: Json, ok: bool, budget: int) {
    Floaty(j) && (Lexical(j) <==> ok) && Levels(j, budget) && UniqueKeys(j)
  }

  lemma {:induction false} SoundGrows(j: Json, ok: bool, budget: int, more: int)
    requires Sound(j, ok, budget) && budget <= more
    ensures Sound(j, ok, more)
  {
    LevelsGrow(j, budget, more);
  }

  lemma {:induction false} LeafIsSound(b: Bytes, t: Text, rules: Rules)
    ensures Sound(StringContent(b, rules), true, 2)
    ensures Sound(JObject([JMember(ERROR, JString(t))]), true, 2)
  {
    hide Valid, Encode64, PlainText;
    WrapIsSound(ERROR, t);
    if Valid(b) {
      ScalarIsSound(JString(Decode(b)), 2);
    } else if rules.strict {
      ScalarIsSound(JNull, 2);
    } else {
      WrapIsSound(BYTES, PlainText(Encode64(b)));
    }
  }

  lemma {:induction false} WrapIsSound(key: Text, t: Text)
    ensures Sound(JObject([JMember(key, JString(t))]), true, 2)
  {
    var j := JString(t);
    assert Floaty(j) && Lexical(j) && Levels(j, 1) && UniqueKeys(j);
  }

  /** The projected content: its numbers, its depth and its keys. */
  lemma {:induction false} ProjectedIsSound(v: Resp.Value, rules: Rules)
    ensures Sound(Projected(v, rules), DoublesAreJson(v, rules), 3 * Resp.Depth(v))
    decreases v, 0
  {
    hide Sound, StringContent, DoubleContent, AsObject, Lossy, ERROR, ShowInt, IsNumber, Finite;
    match v
    case Simple(b) => LeafIsSound(b, [], rules); SoundGrows(StringContent(b, rules), true, 2, 3);
    case Bulk(b) => LeafIsSound(b, [], rules); SoundGrows(StringContent(b, rules), true, 2, 3);
    case Verbatim(_, b) => LeafIsSound(b, [], rules); SoundGrows(StringContent(b, rules), true, 2, 3);
    case Error(b) => LeafIsSound([], Lossy(b), rules); SoundGrows(JObject([JMember(ERROR, JString(Lossy(b)))]), true, 2, 3);
    case BulkError(b) => LeafIsSound([], Lossy(b), rules); SoundGrows(JObject([JMember(ERROR, JString(Lossy(b)))]), true, 2, 3);
    case Integer(n) => IntegerIsSound(n);
    case Double(lexeme) => DoubleIsSound(lexeme, rules);
    case BigNumber(d) => ScalarIsSound(JString(Lossy(d)), 3);
    case Boolean(t) => ScalarIsSound(JBool(t), 3);
    case Null(_) => ScalarIsSound(JNull, 3);
    case Array(items) => ListIsSound(items, rules);
    case Set(items) => ListIsSound(items, rules);
    case Push(items) => ListIsSound(items, rules);
    case Map(entries) => MapIsSound(entries, rules);
    case Attribute(attrs, value) =>
      ProjectedIsSound(value, rules);
      SoundGrows(Projected(value, rules), DoublesAreJson(value, rules), 3 * Resp.Depth(value), 3 * Resp.Depth(v));
  }

  lemma {:induction false} ScalarIsSound(j: Json, budget: int)
    requires (j.JString? || j.JBool? || j.JNull?) && budget >= 1
    ensures Sound(j, true, budget)
  {
  }

  lemma {:induction false} IntegerIsSound(n: int)
    ensures Sound(JNumber(ShowInt(n)), true, 3)
  {
    IntegerIsNumber(n);
    ShowIsFloat(n);
  }

  lemma {:induction false} ShowIsFloat(n: int)
    ensures FloatText(ShowInt(n))
  {
  }

  lemma {:induction false} DoubleIsSound(lexeme: Bytes, rules: Rules)
    ensures Sound(DoubleContent(lexeme, rules), DoublesAreJson(Resp.Double(lexeme), rules), 3)
  {
    DoubleIsFloaty(lexeme, rules);
  }

  lemma {:induction false} ListIsSound(items: seq<Resp.Value>, rules: Rules)
    ensures Sound(JArray(ProjectedAll(items, rules)), forall k :: 0 <= k < |items| ==> DoublesAreJson(items[k], rules),
                  3 * (1 + Resp.MaxDepth(items)))
    decreases items, 2
  {
    hide Projected, DoublesAreJson, Resp.Depth;
    forall k | 0 <= k < |items|
      ensures Sound(ProjectedAll(items, rules)[k], DoublesAreJson(items[k], rules), 3 * Resp.MaxDepth(items) + 2)
    {
      ProjectedAllAt(items, rules, k);
      ProjectedIsSound(items[k], rules);
      Resp.DepthAtMostMax(items, k);
      SoundGrows(Projected(items[k], rules), DoublesAreJson(items[k], rules), 3 * Resp.Depth(items[k]), 3 * Resp.MaxDepth(items) + 2);
    }
  }

  lemma {:induction false} ProjectedAllAt(items: seq<Resp.Value>, rules: Rules, k: nat)
    requires k < |items|
    ensures ProjectedAll(items, rules)[k] == Projected(items[k], rules)
    decreases k
  {
    if k > 0 {
      ProjectedAllAt(items[1..], rules, k - 1);
    }
  }

  lemma {:induction false} ProjectedPairsAt(entries: seq<Resp.Entry>, rules: Rules, k: nat)
    requires k < |entries|
    ensures ProjectedPairs(entries, rules)[k] == ProjectedPair(entries[k], rules)
    decreases k
  {
    if k > 0 {
      ProjectedPairsAt(entries[1..], rules, k - 1);
    }
  }

  lemma {:induction false} ProjectedMembersAt(entries: seq<Resp.Entry>, rules: Rules, k: nat)
    requires k < |entries| && StringKeys(entries)
    ensures ProjectedMembers(entries, rules)[k] == ProjectedMember(entries[k], rules)
    decreases k
  {
    if k > 0 {
      ProjectedMembersAt(entries[1..], rules, k - 1);
    }
  }

  lemma {:induction false} MapIsSound(entries: seq<Resp.Entry>, rules: Rules)
    ensures Sound(Projected(Resp.Map(entries), rules), DoublesAreJson(Resp.Map(entries), rules), 3 * (1 + Resp.MaxEntryDepth(entries)))
    decreases entries, 3
  {
    if AsObject(entries) {
      ObjectIsSound(entries, rules);
    } else {
      PairListIsSound(entries, rules);
    }
  }

  ghost predicate AllEntryDoubles(entries: seq<Resp.Entry>, valueOnly: bool, rules: Rules) {
    forall k :: 0 <= k < |entries| ==> EntryDoubles(entries[k], valueOnly, rules)
  }

  lemma {:induction false} PairIsSound(e: Resp.Entry, rules: Rules, budget: int)
    requires budget >= 3 * Resp.EntryDepth(e) + 1
    ensures Sound(ProjectedPair(e, rules), EntryDoubles(e, false, rules), budget)
    decreases e, 1
  {
    hide Projected, DoublesAreJson, Resp.Depth;
    ProjectedIsSound(e.key, rules);
    ProjectedIsSound(e.val, rules);
    SoundGrows(Projected(e.key, rules), DoublesAreJson(e.key, rules), 3 * Resp.Depth(e.key), budget - 1);
    SoundGrows(Projected(e.val, rules), DoublesAreJson(e.val, rules), 3 * Resp.Depth(e.val), budget - 1);
    TwoAreSound(Projected(e.key, rules), Projected(e.val, rules), DoublesAreJson(e.key, rules), DoublesAreJson(e.val, rules), budget - 1);
  }

  lemma {:induction false} TwoAreSound(a: Json, c: Json, x: bool, y: bool, budget: int)
    requires Sound(a, x, budget) && Sound(c, y, budget)
    ensures Sound(JArray([a, c]), x && y, budget + 1)
  {
    var j := JArray([a, c]);
    LevelsGrow(a, budget, budget);
    assert j.items[0] == a && j.items[1] == c && |j.items| == 2;
  }

  lemma {:induction false} PairListIsSound(entries: seq<Resp.Entry>, rules: Rules)
    ensures Sound(JArray(ProjectedPairs(entries, rules)), AllEntryDoubles(entries, false, rules), 3 * (1 + Resp.MaxEntryDepth(entries)))
    decreases entries, 2
  {
    hide ProjectedPair, EntryDoubles;
    var budget := 3 * Resp.MaxEntryDepth(entries) + 2;
    forall k | 0 <= k < |entries|
      ensures Sound(ProjectedPairs(entries, rules)[k], EntryDoubles(entries[k], false, rules), budget)
    {
      ProjectedPairsAt(entries, rules, k);
      Resp.EntryDepthAtMostMax(entries, k);
      PairIsSound(entries[k], rules, budget);
    }
  }

  lemma {:induction false} ObjectIsSound(entries: seq<Resp.Entry>, rules: Rules)
    requires AsObject(entries)
    ensures Sound(JObject(ProjectedMembers(entries, rules)), AllEntryDoubles(entries, true, rules), 3 * (1 + Resp.MaxEntryDepth(entries)))
    decreases entries, 2
  {
    hide Projected, DoublesAreJson, IsStringKey, KeyText, Resp.Depth;
    var budget := 3 * Resp.MaxEntryDepth(entries) + 2;
    var ms := ProjectedMembers(entries, rules);
    forall k | 0 <= k < |entries|
      ensures ms[k].key == KeyText(entries[k].key) && Sound(ms[k].value, EntryDoubles(entries[k], true, rules), budget)
    {
      ProjectedMembersAt(entries, rules, k);
      Resp.EntryDepthAtMostMax(entries, k);
      ValIsSound(entries[k], rules, budget);
    }
  }

  lemma {:induction false} ValIsSound(e: Resp.Entry, rules: Rules, budget: int)
    requires budget >= 3 * Resp.Depth(e.val)
    ensures Sound(Projected(e.val, rules), EntryDoubles(e, true, rules), budget)
    decreases e, 1
  {
    hide Projected, DoublesAreJson, Resp.Depth;
    ProjectedIsSound(e.val, rules);
    SoundGrows(Projected(e.val, rules), DoublesAreJson(e.val, rules), 3 * Resp.Depth(e.val), budget);
  }

  // ---------------------------------------------------------------- the guarantee

  /**
    The text of a projection is a document, for a limit of three levels for each level of the value,
    exactly when every finite double in it is spelled as a JSON number; no larger limit helps, and the
    document then carries the projected content and repeats no member name.
   */
  lemma {:induction false} ProjectionParses(v: Resp.Value, rules: Rules)
    ensures var text := PrintJson(Projected(v, rules));
            var r := ParseDocument(text, 3 * Resp.Depth(v));
            && (r.Ok? <==> DoublesAreJson(v, rules))
            && (r.Ok? ==> ReadJson(text, r.value.root) == Some(Projected(v, rules)) && Duplicates(r.value.root) == [])
    ensures forall max: nat :: ParseDocument(PrintJson(Projected(v, rules)), max).Ok? ==> DoublesAreJson(v, rules)
  {
    hide Projected, PrintJson, ParseDocument, ReadJson, Floaty, Lexical, Levels, UniqueKeys, DoublesAreJson, WellNumbered, Duplicates;
    var j := Projected(v, rules);
    var max := 3 * Resp.Depth(v);
    ProjectedIsSound(v, rules);
    ParsesIffLexical(j, max);
    if DoublesAreJson(v, rules) {
      PrintThenParse(j, max);
      ParsedIsSound(PrintJson(j), max);
      DuplicatesReported(PrintJson(j), ParseDocument(PrintJson(j), max).value.root, j);
    }
    forall m: nat ensures ParseDocument(PrintJson(j), m).Ok? ==> DoublesAreJson(v, rules) {
      ParsesIffLexical(j, m);
    }
  }

  /** Some doubles a server may send are finite for Rust and yet no JSON: here the lexeme `.5`. */
  lemma {:induction false} FiniteDoubleThatIsNotJson(rules: Rules)
    requires !rules.huge([0x2E, 0x35])
    ensures !DoublesAreJson(Resp.Double([0x2E, 0x35]), rules)
    ensures forall max: nat :: ParseDocument(PrintJson(Projected(Resp.Double([0x2E, 0x35]), rules)), max).Err?
  {
    var s: Bytes := [0x2E, 0x35];
    assert Valid(s) by { assert s[1..] == [0x35] && s[1..][1..] == []; assert Valid(s[1..]); }
    assert Decode(s) == [0x2E, 0x35] by { assert s[1..] == [0x35] && s[1..][1..] == []; assert Decode(s[1..]) == [0x35]; }
    LossyKeepsValid(s);
    var t: Text := [0x2E, 0x35];
    assert DecimalRun(t, 2) == 2 && DecimalRun(t, 1) == 2 && DecimalRun(t, 0) == 0;
    AsciiEncodes(t);
    assert IntPart(s, 0).Fail?;
    assert !DoublesAreJson(Resp.Double(s), rules);
    ProjectionParses(Resp.Double(s), rules);
  }

  /**
    What no notice tells: the text of an error, and of a big number, keeps the octets that were sent
    exactly when they are UTF-8. Otherwise they are replaced without a notice, and strict mode does not
    refuse them.
   */
  lemma {:induction false} ErrorsKeepTheirBytesIffUtf8(b: Bytes, rules: Rules)
    ensures Projected(Resp.Error(b), rules) == JObject([JMember(ERROR, JString(Lossy(b)))])
    ensures Projected(Resp.BigNumber(b), rules) == JString(Lossy(b))
    ensures Notices(Resp.Error(b), rules) == Notices(Resp.BigNumber(b), rules) == []
    ensures Refusal(Resp.Error(b), rules) == Refusal(Resp.BigNumber(b), rules) == None
    ensures Utf8.EncodeAll(Lossy(b)) == b <==> Valid(b)
  {
    hide Lossy, Valid, Decode, Utf8.EncodeAll;
    DecodeOfEncode(Lossy(b));
    if Valid(b) {
      LossyKeepsValid(b);
      EncodeOfDecode(b);
    }
  }
}
