/**
  What the `--json` projection shows, read off the derivation of its text; what it announces and what it
  refuses, by the places of the value that are written.
 */
module ProjectionReading {
  import opened Prelude
  import opened Utf8
  import opened Base64
  import opened FloatSyntax
  import opened JsonText
  import opened JsonGrammar
  import opened JsonDom
  import opened JsonNumerals
  import opened JsonProjection
  import opened JsonReading
  import EventJson
  import Resp = RespValue

  /** UTF-8 as the string it is; other octets as null when strict, and otherwise in base64. */
  ghost predicate ShowsOctets(t: Tree, b: Bytes, strict: bool) {
    if IsUtf8(b) then t.OfString? && TokenCarries(t.token, b)
    else if strict then t.OfNull?
    else OneMember(t, "$bytes") && ShowsBase64(t.members[0].value, b)
  }

  ghost predicate IsFiniteText(text: Text, rules: Rules) {
    IsDecimalText(text) && !rules.huge(text)
  }

  ghost predicate ShowsDouble(t: Tree, text: Text, rules: Rules) {
    if IsFiniteText(text, rules) then t == OfNumber(Utf8.EncodeAll(text)) else ShowsText(t, text)
  }

  // ---------------------------------------------------------------- values

  ghost predicate IsTextKey(v: Resp.Value) {
    (v.Simple? && IsUtf8(v.text)) || (v.Bulk? && IsUtf8(v.data))
  }

  function KeyOctets(v: Resp.Value): Bytes {
    if v.Simple? then v.text else if v.Bulk? then v.data else []
  }

  ghost predicate TextKeys(entries: seq<Resp.Entry>) {
    forall k :: 0 <= k < |entries| ==> IsTextKey(entries[k].key)
  }

  ghost predicate Keyed(entries: seq<Resp.Entry>) {
    TextKeys(entries) && forall x, y :: 0 <= x < y < |entries| ==> KeyOctets(entries[x].key) != KeyOctets(entries[y].key)
  }

  /** `t` shows `v`. */
  ghost predicate Shows(v: Resp.Value, t: Tree, rules: Rules)
    decreases v, 0
  {
    match v
    case Simple(b) => ShowsOctets(t, b, rules.strict)
    case Bulk(b) => ShowsOctets(t, b, rules.strict)
    case Verbatim(_, b) => ShowsOctets(t, b, rules.strict)
    case Integer(n) => t.OfNumber? && Resp.IsNumeral(t.lexeme, n)
    case Double(lexeme) => ShowsDouble(t, Lossy(lexeme), rules)
    case BigNumber(digits) => ShowsText(t, Lossy(digits))
    case Boolean(truth) => if truth then t.OfTrue? else t.OfFalse?
    case Null(_) => t.OfNull?
    case Error(b) => OneMember(t, "error") && ShowsText(t.members[0].value, Lossy(b))
    case BulkError(b) => OneMember(t, "error") && ShowsText(t.members[0].value, Lossy(b))
    case Array(items) => ShowsItems(items, t, rules)
    case Set(items) => ShowsItems(items, t, rules)
    case Push(items) => ShowsItems(items, t, rules)
    case Map(entries) => if Keyed(entries) then ShowsMembers(entries, t, rules) else ShowsPairs(entries, t, rules)
    case Attribute(_, value) => Shows(value, t, rules)
  }

  ghost predicate ShowsItems(items: seq<Resp.Value>, t: Tree, rules: Rules)
    decreases items, 1
  {
    && t.OfArray? && t.hollow == [] && |t.items| == |items|
    && forall k :: 0 <= k < |items| ==> Bare(t.items[k]) && Shows(items[k], t.items[k].value, rules)
  }

  /** Entry `k` is member `k`, under its own key. */
  ghost predicate ShowsMembers(entries: seq<Resp.Entry>, t: Tree, rules: Rules)
    decreases entries, 2
  {
    && t.OfObject? && t.hollow == [] && |t.members| == |entries|
    && forall k :: 0 <= k < |entries| ==> ShowsMember(entries[k], t.members[k], rules)
  }

  ghost predicate ShowsMember(e: Resp.Entry, m: Part, rules: Rules)
    decreases e, 1
  {
    BarePart(m) && TokenCarries(m.key, KeyOctets(e.key)) && Shows(e.val, m.value, rules)
  }

  /** Entry `k` is a list of its key and its value, in this order. */
  ghost predicate ShowsPairs(entries: seq<Resp.Entry>, t: Tree, rules: Rules)
    decreases entries, 2
  {
    && t.OfArray? && t.hollow == [] && |t.items| == |entries|
    && forall k :: 0 <= k < |entries| ==> Bare(t.items[k]) && ShowsPair(entries[k], t.items[k].value, rules)
  }

  ghost predicate ShowsPair(e: Resp.Entry, t: Tree, rules: Rules)
    decreases e, 1
  {
    && t.OfArray? && t.hollow == [] && |t.items| == 2 && Bare(t.items[0]) && Bare(t.items[1])
    && Shows(e.key, t.items[0].value, rules) && Shows(e.val, t.items[1].value, rules)
  }

  // ---------------------------------------------------------------- leaves

  lemma {:induction false} NamesAre()
    ensures BYTES == Ascii("$bytes") && ERROR == Ascii("error")
    ensures forall k :: 0 <= k < |BYTES| ==> BYTES[k] < 0x80
    ensures forall k :: 0 <= k < |ERROR| ==> ERROR[k] < 0x80
  {
  }

  lemma {:induction false} OctetsShow(b: Bytes, rules: Rules)
    ensures ShowsOctets(TreeOf(StringContent(b, rules)), b, rules.strict)
  {
    hide Valid, Decode, Encode64, JsonString, TokenCarries, IsUtf8, EventJson.PlainText;
    Utf8Iff(b);
    if Valid(b) {
      PrintedCarries(b);
    } else if !rules.strict {
      var code := Encode64(b);
      CodeIsAscii(b);
      OneOf(BYTES, JString(code));
      NamesAre();
      AsciiCarries(BYTES);
      AsciiCarries(code);
      Base64RoundTrip(b);
    }
  }

  lemma {:induction false} ErrorShows(b: Bytes)
    ensures var t := TreeOf(JObject([JMember(ERROR, JString(Lossy(b)))]));
            OneMember(t, "error") && ShowsText(t.members[0].value, Lossy(b))
  {
    hide Lossy, JsonString, TokenCarries, TokenOf;
    OneOf(ERROR, JString(Lossy(b)));
    NamesAre();
    AsciiCarries(ERROR);
    PrintedToken(Lossy(b));
  }

  lemma {:induction false} DoubleShows(lexeme: Bytes, rules: Rules)
    ensures ShowsDouble(TreeOf(DoubleContent(lexeme, rules)), Lossy(lexeme), rules)
  {
    hide Lossy, DecimalFloat, IsDecimalText, JsonString, TokenOf;
    DecimalFloatIff(Lossy(lexeme));
    PrintedToken(Lossy(lexeme));
  }

  // ---------------------------------------------------------------- maps

  lemma {:induction false} KeyIff(v: Resp.Value)
    ensures IsTextKey(v) <==> IsStringKey(v)
    ensures IsStringKey(v) ==> Utf8.EncodeAll(KeyText(v)) == KeyOctets(v) && TokenCarries(JsonString(KeyText(v)), KeyOctets(v))
  {
    hide Valid, IsUtf8, TokenCarries, JsonString, Utf8.EncodeAll, Decode;
    if v.Simple? {
      Utf8Iff(v.text);
    } else if v.Bulk? {
      Utf8Iff(v.data);
    }
    if IsStringKey(v) {
      PrintedCarries(KeyOctets(v));
    }
  }

  lemma {:induction false} KeyedIff(entries: seq<Resp.Entry>)
    ensures TextKeys(entries) <==> StringKeys(entries)
    ensures Keyed(entries) <==> AsObject(entries)
  {
    hide IsTextKey, IsStringKey, KeyText, KeyOctets, TokenCarries, JsonString;
    forall k | 0 <= k < |entries|
      ensures IsTextKey(entries[k].key) <==> IsStringKey(entries[k].key)
      ensures IsStringKey(entries[k].key) ==> Utf8.EncodeAll(KeyText(entries[k].key)) == KeyOctets(entries[k].key)
    {
      KeyIff(entries[k].key);
    }
    if StringKeys(entries) {
      forall x, y | 0 <= x < y < |entries|
        ensures KeyText(entries[x].key) == KeyText(entries[y].key) <==> KeyOctets(entries[x].key) == KeyOctets(entries[y].key)
      {
        SameText(KeyText(entries[x].key), KeyText(entries[y].key));
      }
    }
  }

  lemma {:induction false} SameText(a: Text, b: Text)
    ensures a == b <==> Utf8.EncodeAll(a) == Utf8.EncodeAll(b)
  {
    hide Utf8.EncodeAll, Valid, Decode;
    DecodeOfEncode(a);
    DecodeOfEncode(b);
  }

  // ---------------------------------------------------------------- values

  /** The text `render` writes shows the value. */
  lemma {:induction false} ProjectedShows(v: Resp.Value, rules: Rules)
    ensures Shows(v, TreeOf(Projected(v, rules)), rules)
    decreases v, 0
  {
    hide StringContent, DoubleContent, ShowsOctets, ShowsDouble, OneMember, ShowsText, Lossy, ERROR, EventJson.ShowInt, AsObject, Keyed,
         Resp.IsNumeral, JsonString, ShowsItems, ShowsMembers, ShowsPairs, ItemsOf, PartsOf;
    match v
    case Simple(b) => OctetsShow(b, rules);
    case Bulk(b) => OctetsShow(b, rules);
    case Verbatim(_, b) => OctetsShow(b, rules);
    case Integer(n) => IntegerShows(n);
    case Double(lexeme) => DoubleShows(lexeme, rules);
    case BigNumber(digits) => TextShows(Lossy(digits));
    case Error(b) => ErrorShows(b);
    case BulkError(b) => ErrorShows(b);
    case Array(items) => ItemsShow(items, rules);
    case Set(items) => ItemsShow(items, rules);
    case Push(items) => ItemsShow(items, rules);
    case Map(entries) => EntriesShow(entries, rules);
    case Attribute(_, value) => ProjectedShows(value, rules);
    case _ =>
  }

  lemma {:induction false} ItemsShow(items: seq<Resp.Value>, rules: Rules)
    ensures ShowsItems(items, TreeOf(JArray(ProjectedAll(items, rules))), rules)
    decreases items, 1
  {
    hide Shows, Projected;
    var js := ProjectedAll(items, rules);
    forall k | 0 <= k < |items| ensures ItemsOf(js)[k] == Item([], TreeOf(js[k]), []) && Shows(items[k], TreeOf(js[k]), rules) {
      ItemsOfAt(js, k);
      ProjectedAllAt(items, rules, k);
      ProjectedShows(items[k], rules);
    }
  }

  lemma {:induction false} EntriesShow(entries: seq<Resp.Entry>, rules: Rules)
    ensures var t := TreeOf(Projected(Resp.Map(entries), rules));
            if Keyed(entries) then ShowsMembers(entries, t, rules) else ShowsPairs(entries, t, rules)
    decreases entries, 2
  {
    hide Keyed, DistinctKeyTexts, Shows, ShowsMember, ShowsPair, TreeOf, ProjectedMember, ProjectedPair, ProjectedMembers, ProjectedPairs;
    KeyedIff(entries);
    if AsObject(entries) {
      var ms := ProjectedMembers(entries, rules);
      ObjectTree(ms);
      forall k | 0 <= k < |entries| ensures ShowsMember(entries[k], PartsOf(ms)[k], rules) {
        PartsOfAt(ms, k);
        ProjectedMembersAt(entries, rules, k);
        MemberShows(entries[k], rules);
      }
    } else {
      var js := ProjectedPairs(entries, rules);
      ArrayTree(js);
      forall k | 0 <= k < |entries| ensures Bare(ItemsOf(js)[k]) && ShowsPair(entries[k], ItemsOf(js)[k].value, rules) {
        ItemsOfAt(js, k);
        ProjectedPairsAt(entries, rules, k);
        PairShows(entries[k], rules);
      }
    }
  }

  lemma {:induction false} MemberShows(e: Resp.Entry, rules: Rules)
    requires IsStringKey(e.key)
    ensures ShowsMember(e, PartOf(ProjectedMember(e, rules)), rules)
    decreases e, 1
  {
    hide Shows, Projected, TreeOf, IsStringKey, KeyText, KeyOctets, TokenCarries, JsonString;
    KeyIff(e.key);
    ProjectedShows(e.val, rules);
  }

  lemma {:induction false} PairShows(e: Resp.Entry, rules: Rules)
    ensures ShowsPair(e, TreeOf(ProjectedPair(e, rules)), rules)
    decreases e, 1
  {
    hide Shows, Projected;
    var k, v := Projected(e.key, rules), Projected(e.val, rules);
    ProjectedShows(e.key, rules);
    ProjectedShows(e.val, rules);
    ItemsOfAt([k, v], 0);
    ItemsOfAt([k, v], 1);
    ArrayTree([k, v]);
  }

  // ---------------------------------------------------------------- the text

  /** `text` has a derivation that shows `v`, and wherever the parser takes it, its tree is that derivation's. */
  ghost predicate Tells(text: Bytes, v: Resp.Value, rules: Rules) {
    exists t :: Shows(v, t, rules) && IsTreeOf(text, t)
  }

  /** The projection's text shows the value. */
  lemma {:induction false} ProjectionTells(v: Resp.Value, rules: Rules)
    ensures Tells(PrintJson(Projected(v, rules)), v, rules)
  {
    hide Projected, PrintJson, ParseDocument, Shows, TreeOf, NodeOf, TextOf, Floaty, Lexical, Levels, DoublesAreJson;
    var j := Projected(v, rules);
    ProjectedShows(v, rules);
    TreeText(j);
    ProjectedIsSound(v, rules);
    forall max: nat | ParseDocument(PrintJson(j), max).Ok?
      ensures ParseDocument(PrintJson(j), max).value.root == NodeOf(TreeOf(j), 0)
    {
      ParsesIffLexical(j, max);
      ParsedIsTree(j, 3 * Resp.Depth(v), max);
    }
    assert IsTreeOf(PrintJson(j), TreeOf(j));
  }

  // ---------------------------------------------------------------- what is announced and refused

  /** The places of `v` that are written, a value before what it holds; the keys of an object are no places. */
  ghost function Written(v: Resp.Value): seq<Resp.Value>
    decreases v, 0
  {
    [v] +
    match v
    case Array(items) => WrittenItems(items)
    case Set(items) => WrittenItems(items)
    case Push(items) => WrittenItems(items)
    case Map(entries) => WrittenEntries(entries, Keyed(entries))
    case Attribute(_, value) => Written(value)
    case _ => []
  }

  ghost function WrittenItems(items: seq<Resp.Value>): seq<Resp.Value>
    decreases items, 1
  {
    if items == [] then [] else Written(items[0]) + WrittenItems(items[1..])
  }

  ghost function WrittenEntry(e: Resp.Entry, valueOnly: bool): seq<Resp.Value>
    decreases e, 1
  {
    (if valueOnly then [] else Written(e.key)) + Written(e.val)
  }

  ghost function WrittenEntries(entries: seq<Resp.Entry>, valueOnly: bool): seq<Resp.Value>
    decreases entries, 2
  {
    if entries == [] then [] else WrittenEntry(entries[0], valueOnly) + WrittenEntries(entries[1..], valueOnly)
  }

  /** The octets a place holds as a string. */
  predicate HoldsOctets(v: Resp.Value) {
    v.Simple? || v.Bulk? || v.Verbatim?
  }

  function OctetsOf(v: Resp.Value): Bytes {
    match v
    case Simple(b) => b
    case Bulk(b) => b
    case Verbatim(_, b) => b
    case _ => []
  }

  ghost predicate HoldsOther(v: Resp.Value) {
    HoldsOctets(v) && !IsUtf8(OctetsOf(v))
  }

  /** What one place is announced with. */
  ghost function Announced(v: Resp.Value, rules: Rules): seq<Notice> {
    (match v
     case Verbatim(format, _) => [VerbatimFormatDiscarded(Lossy(format))]
     case Attribute(_, _) => [AttributeDiscarded]
     case Double(lexeme) => if IsFiniteText(Lossy(lexeme), rules) then [] else [NonFiniteDouble(Lossy(lexeme))]
     case Map(entries) =>
       if !TextKeys(entries) then [NonStringMapKey] else if !Keyed(entries) then [DuplicateMapKeys] else []
     case _ => [])
    + if HoldsOther(v) && !rules.strict then [NonUtf8(|OctetsOf(v)|)] else []
  }

  ghost function AnnouncedAll(places: seq<Resp.Value>, rules: Rules): seq<Notice> {
    if places == [] then [] else Announced(places[0], rules) + AnnouncedAll(places[1..], rules)
  }

  /** Refused for the first place that holds octets that are not UTF-8, and for no other reason. */
  ghost predicate RefusedFor(r: Option<Notice>, places: seq<Resp.Value>, rules: Rules) {
    match r
    case None => !rules.strict || forall k :: 0 <= k < |places| ==> !HoldsOther(places[k])
    case Some(n) =>
      && rules.strict
      && exists k :: 0 <= k < |places| && HoldsOther(places[k]) && n == NonUtf8(|OctetsOf(places[k])|)
                     && forall j :: 0 <= j < k ==> !HoldsOther(places[j])
  }

  lemma {:induction false} AnnouncedAppend(a: seq<Resp.Value>, c: seq<Resp.Value>, rules: Rules)
    ensures AnnouncedAll(a + c, rules) == AnnouncedAll(a, rules) + AnnouncedAll(c, rules)
    decreases |a|
  {
    hide Announced;
    if a == [] {
      assert a + c == c;
    } else {
      AnnouncedAppend(a[1..], c, rules);
      assert (a + c)[1..] == a[1..] + c;
    }
  }

  lemma {:induction false} AnnouncedOne(v: Resp.Value, rest: seq<Resp.Value>, rules: Rules)
    ensures AnnouncedAll([v] + rest, rules) == Announced(v, rules) + AnnouncedAll(rest, rules)
  {
    hide Announced;
    assert ([v] + rest)[1..] == rest;
  }

  /** What a place announces of its own. */
  lemma {:induction false} OwnNotices(v: Resp.Value, rules: Rules)
    ensures HoldsOctets(v) ==> (HoldsOther(v) <==> !Valid(OctetsOf(v)))
    ensures v.Double? ==> (IsFiniteText(Lossy(v.lexeme), rules) <==> Finite(Lossy(v.lexeme), rules))
    ensures v.Map? ==> (TextKeys(v.entries) <==> StringKeys(v.entries)) && (Keyed(v.entries) <==> AsObject(v.entries))
  {
    hide Valid, IsUtf8, Lossy, DecimalFloat, IsDecimalText, Keyed, AsObject, TextKeys, StringKeys;
    if HoldsOctets(v) {
      Utf8Iff(OctetsOf(v));
    }
    if v.Double? {
      DecimalFloatIff(Lossy(v.lexeme));
    }
    if v.Map? {
      KeyedIff(v.entries);
    }
  }

  function InnerNotices(v: Resp.Value, rules: Rules): seq<Notice> {
    match v
    case Array(items) => AllNotices(items, rules)
    case Set(items) => AllNotices(items, rules)
    case Push(items) => AllNotices(items, rules)
    case Map(entries) => if AsObject(entries) then ValueNotices(entries, rules) else PairNotices(entries, rules)
    case Attribute(_, value) => Notices(value, rules)
    case _ => []
  }

  lemma {:induction false} NoticesSplit(v: Resp.Value, rules: Rules)
    ensures Notices(v, rules) == Announced(v, rules) + InnerNotices(v, rules)
  {
    hide Valid, IsUtf8, Lossy, Finite, IsFiniteText, Keyed, TextKeys, StringKeys, DistinctKeyTexts, AllNotices, PairNotices,
         ValueNotices;
    OwnNotices(v, rules);
  }

  /** The notices are those of the places written, in order. */
  lemma {:induction false} NoticesByPlace(v: Resp.Value, rules: Rules)
    ensures Notices(v, rules) == AnnouncedAll(Written(v), rules)
    decreases v, 0
  {
    hide Notices, Announced, AnnouncedAll, Keyed, AsObject, WrittenItems, WrittenEntries, AllNotices, PairNotices, ValueNotices;
    NoticesSplit(v, rules);
    AnnouncedOne(v, Written(v)[1..], rules);
    assert Written(v) == [v] + Written(v)[1..];
    NothingAnnounced(rules);
    match v
    case Array(items) => ItemNotices(items, rules);
    case Set(items) => ItemNotices(items, rules);
    case Push(items) => ItemNotices(items, rules);
    case Map(entries) => KeyedIff(entries); MapNotices(entries, Keyed(entries), rules);
    case Attribute(_, value) => NoticesByPlace(value, rules);
    case _ =>
  }

  lemma {:induction false} NothingAnnounced(rules: Rules)
    ensures AnnouncedAll([], rules) == []
  {
  }

  lemma {:induction false} ItemNotices(items: seq<Resp.Value>, rules: Rules)
    ensures AllNotices(items, rules) == AnnouncedAll(WrittenItems(items), rules)
    decreases items, 1
  {
    hide Notices, Written, AnnouncedAll;
    NothingAnnounced(rules);
    if items != [] {
      NoticesByPlace(items[0], rules);
      ItemNotices(items[1..], rules);
      AnnouncedAppend(Written(items[0]), WrittenItems(items[1..]), rules);
    }
  }

  lemma {:induction false} EntryAnnounced(e: Resp.Entry, valueOnly: bool, rules: Rules)
    ensures (if valueOnly then ValNotices(e, rules) else EntryNotices(e, rules)) == AnnouncedAll(WrittenEntry(e, valueOnly), rules)
    decreases e, 1
  {
    hide Notices, Written, AnnouncedAll;
    NoticesByPlace(e.val, rules);
    if valueOnly {
      assert [] + Written(e.val) == Written(e.val);
    } else {
      NoticesByPlace(e.key, rules);
      AnnouncedAppend(Written(e.key), Written(e.val), rules);
    }
  }

  lemma {:induction false} MapNotices(entries: seq<Resp.Entry>, valueOnly: bool, rules: Rules)
    ensures (if valueOnly then ValueNotices(entries, rules) else PairNotices(entries, rules))
         == AnnouncedAll(WrittenEntries(entries, valueOnly), rules)
    decreases entries, 2
  {
    hide WrittenEntry, AnnouncedAll, ValNotices, EntryNotices;
    NothingAnnounced(rules);
    if entries != [] {
      EntryAnnounced(entries[0], valueOnly, rules);
      MapNotices(entries[1..], valueOnly, rules);
      AnnouncedAppend(WrittenEntry(entries[0], valueOnly), WrittenEntries(entries[1..], valueOnly), rules);
    }
  }

  lemma {:induction false} RefusedAppend(r: Option<Notice>, a: seq<Resp.Value>, s: Option<Notice>, c: seq<Resp.Value>, rules: Rules)
    requires RefusedFor(r, a, rules) && RefusedFor(s, c, rules)
    ensures RefusedFor(Or(r, s), a + c, rules)
  {
    hide HoldsOther, OctetsOf;
    var places := a + c;
    if r.Some? {
      var k :| 0 <= k < |a| && HoldsOther(a[k]) && r.value == NonUtf8(|OctetsOf(a[k])|) && forall j :: 0 <= j < k ==> !HoldsOther(a[j]);
      assert places[k] == a[k] && forall j :: 0 <= j < k ==> !HoldsOther(places[j]);
    } else if s.Some? {
      var k :| 0 <= k < |c| && HoldsOther(c[k]) && s.value == NonUtf8(|OctetsOf(c[k])|) && forall j :: 0 <= j < k ==> !HoldsOther(c[j]);
      assert places[|a| + k] == c[k];
      assert forall j :: 0 <= j < |a| + k ==> !HoldsOther(places[j]);
    }
  }

  lemma {:induction false} NothingRefused(rules: Rules)
    ensures RefusedFor(None, [], rules)
  {
  }

  function OwnRefusal(v: Resp.Value, rules: Rules): Option<Notice> {
    if HoldsOctets(v) then StringRefusal(OctetsOf(v), rules) else None
  }

  function InnerRefusal(v: Resp.Value, rules: Rules): Option<Notice> {
    match v
    case Array(items) => AllRefusal(items, rules)
    case Set(items) => AllRefusal(items, rules)
    case Push(items) => AllRefusal(items, rules)
    case Map(entries) => if AsObject(entries) then ValueRefusal(entries, rules) else PairRefusal(entries, rules)
    case Attribute(_, value) => Refusal(value, rules)
    case _ => None
  }

  lemma {:induction false} RefusalSplit(v: Resp.Value, rules: Rules)
    ensures Refusal(v, rules) == Or(OwnRefusal(v, rules), InnerRefusal(v, rules)) && RefusedFor(OwnRefusal(v, rules), [v], rules)
  {
    hide Valid, IsUtf8, AsObject, AllRefusal, PairRefusal, ValueRefusal;
    if HoldsOctets(v) {
      Utf8Iff(OctetsOf(v));
      if OwnRefusal(v, rules).Some? {
        assert HoldsOther([v][0]);
      }
    }
  }

  /** A refusal names the first place written whose octets are not UTF-8. */
  lemma {:induction false} RefusalByPlace(v: Resp.Value, rules: Rules)
    ensures RefusedFor(Refusal(v, rules), Written(v), rules)
    decreases v, 0
  {
    hide RefusedFor, Refusal, OwnRefusal, Keyed, AsObject, WrittenItems, WrittenEntries, AllRefusal, PairRefusal, ValueRefusal;
    RefusalSplit(v, rules);
    NothingRefused(rules);
    match v {
      case Array(items) => ItemRefusals(items, rules);
      case Set(items) => ItemRefusals(items, rules);
      case Push(items) => ItemRefusals(items, rules);
      case Map(entries) => KeyedIff(entries); MapRefusals(entries, Keyed(entries), rules);
      case Attribute(_, value) => RefusalByPlace(value, rules);
      case _ =>
    }
    assert Written(v) == [v] + Written(v)[1..];
    RefusedAppend(OwnRefusal(v, rules), [v], InnerRefusal(v, rules), Written(v)[1..], rules);
  }

  lemma {:induction false} ItemRefusals(items: seq<Resp.Value>, rules: Rules)
    ensures RefusedFor(AllRefusal(items, rules), WrittenItems(items), rules)
    decreases items, 1
  {
    hide Refusal, Written, RefusedFor;
    NothingRefused(rules);
    if items != [] {
      RefusalByPlace(items[0], rules);
      ItemRefusals(items[1..], rules);
      RefusedAppend(Refusal(items[0], rules), Written(items[0]), AllRefusal(items[1..], rules), WrittenItems(items[1..]), rules);
    }
  }

  lemma {:induction false} EntryRefused(e: Resp.Entry, valueOnly: bool, rules: Rules)
    ensures RefusedFor(if valueOnly then ValRefusal(e, rules) else EntryRefusal(e, rules), WrittenEntry(e, valueOnly), rules)
    decreases e, 1
  {
    hide Refusal, Written, RefusedFor;
    RefusalByPlace(e.val, rules);
    if valueOnly {
      assert [] + Written(e.val) == Written(e.val);
    } else {
      RefusalByPlace(e.key, rules);
      RefusedAppend(Refusal(e.key, rules), Written(e.key), Refusal(e.val, rules), Written(e.val), rules);
    }
  }

  lemma {:induction false} MapRefusals(entries: seq<Resp.Entry>, valueOnly: bool, rules: Rules)
    ensures RefusedFor(if valueOnly then ValueRefusal(entries, rules) else PairRefusal(entries, rules),
                       WrittenEntries(entries, valueOnly), rules)
    decreases entries, 2
  {
    hide WrittenEntry, RefusedFor, ValRefusal, EntryRefusal;
    NothingRefused(rules);
    if entries != [] {
      var e := entries[0];
      EntryRefused(e, valueOnly, rules);
      MapRefusals(entries[1..], valueOnly, rules);
      RefusedAppend(if valueOnly then ValRefusal(e, rules) else EntryRefusal(e, rules), WrittenEntry(e, valueOnly),
                    if valueOnly then ValueRefusal(entries[1..], rules) else PairRefusal(entries[1..], rules),
                    WrittenEntries(entries[1..], valueOnly), rules);
    }
  }
}
