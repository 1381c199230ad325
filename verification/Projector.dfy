/**
  `json_projection::render` as it runs: one pass over the value that writes text and, as it goes, pushes
  notices and records the first refusal.
 */
module Projector {
  import opened Prelude
  import opened Utf8
  import opened Base64
  import opened JsonDom
  import opened JsonText
  import opened EventJson
  import opened JsonProjection
  import ProjectionReading
  import Resp = RespValue

  /** `json_string`: the loop over characters with its growing buffer. */
  method WriteString(t: Text) returns (out: Bytes)
    ensures out == JsonString(t)
  {
    hide EscapeChar;
    out := [QUOTE];
    for k := 0 to |t|
      invariant out + EscapeAll(t[k..]) == [QUOTE] + EscapeAll(t)
    {
      assert t[k..][0] == t[k] && t[k..][1..] == t[k + 1..];
      out := out + EscapeChar(t[k]);
    }
    assert t[|t|..] == [];
    out := out + [QUOTE];
  }

  class Projector {
    const rules: Rules
    var notices: seq<Notice>
    var refused: Option<Notice>

    constructor (rules: Rules)
      ensures this.rules == rules && notices == [] && refused == None
    {
      this.rules := rules;
      notices := [];
      refused := None;
    }

    method StringOrBytes(b: Bytes) returns (json: Bytes)
      modifies this
      ensures json == PrintJson(StringContent(b, rules))
      ensures notices == old(notices) + StringNotices(b, rules)
      ensures refused == Or(old(refused), StringRefusal(b, rules))
    {
      hide Valid, Encode64, JsonString;
      if Valid(b) {
        json := WriteString(Decode(b));
        return;
      }
      if rules.strict {
        if refused.None? {
          refused := Some(NonUtf8(|b|));
        }
        return NULL;
      }
      notices := notices + [NonUtf8(|b|)];
      json := WrapBase64(b);
    }

    method WrapBase64(b: Bytes) returns (json: Bytes)
      ensures json == PrintJson(JObject([JMember(BYTES, JString(PlainText(Encode64(b))))]))
    {
      hide Encode64, JsonString, PrintMember;
      var code := EncodeChunks(b);
      Base64IsPlain(b);
      json := [OPEN_BRACE] + Label(BYTES) + [QUOTE] + code + [QUOTE, CLOSE_BRACE];
      var m := JMember(BYTES, JString(PlainText(code)));
      LabelPrints(BYTES);
      MemberPrints(m);
      OneMember(m);
      QuotePlain(code);
      RegroupMember([OPEN_BRACE], Label(BYTES), [QUOTE], code, [CLOSE_BRACE]);
      assert [QUOTE, CLOSE_BRACE] == [QUOTE] + [CLOSE_BRACE];
    }

    method Double(lexeme: Bytes) returns (json: Bytes)
      modifies this
      ensures json == PrintJson(DoubleContent(lexeme, rules))
      ensures notices == old(notices) + Notices(Resp.Double(lexeme), rules)
      ensures refused == old(refused)
    {
      hide Finite, Lossy, JsonString;
      var text := Lossy(lexeme);
      if Finite(text, rules) {
        json := Utf8.EncodeAll(text);
      } else {
        notices := notices + [NonFiniteDouble(text)];
        json := WriteString(text);
      }
    }

    method ErrorObject(b: Bytes) returns (json: Bytes)
      ensures json == PrintJson(JObject([JMember(ERROR, JString(Lossy(b)))]))
    {
      hide Lossy, JsonString, PrintMember;
      var s := WriteString(Lossy(b));
      json := [OPEN_BRACE] + Label(ERROR) + s + [CLOSE_BRACE];
      LabelPrints(ERROR);
      MemberPrints(JMember(ERROR, JString(Lossy(b))));
      OneMember(JMember(ERROR, JString(Lossy(b))));
      assert [OPEN_BRACE] + Label(ERROR) + s == [OPEN_BRACE] + (Label(ERROR) + s);
    }

    method Render(v: Resp.Value) returns (json: Bytes)
      modifies this
      ensures json == PrintJson(Projected(v, rules))
      ensures notices == old(notices) + Notices(v, rules)
      ensures refused == Or(old(refused), Refusal(v, rules))
      decreases v, 0
    {
      hide StringContent, DoubleContent, StringNotices, StringRefusal, Lossy, ShowInt, PrintItems, PrintMembers, JsonString,
           AsObject, Finite, ProjectedAll, AllNotices, AllRefusal, ERROR;
      match v
      case Simple(b) => json := StringOrBytes(b);
      case Bulk(b) => json := StringOrBytes(b);
      case Integer(n) => json := ShowInt(n);
      case Double(lexeme) => json := Double(lexeme);
      case BigNumber(d) => json := WriteString(Lossy(d));
      case Boolean(t) => json := if t then TRUE else FALSE;
      case Null(_) => json := NULL;
      case Array(items) => json := List(items);
      case Set(items) => json := List(items);
      case Push(items) => json := List(items);
      case Map(entries) => json := RenderMap(entries);
      case Verbatim(format, data) =>
        notices := notices + [VerbatimFormatDiscarded(Lossy(format))];
        json := StringOrBytes(data);
      case Error(b) => json := ErrorObject(b);
      case BulkError(b) => json := ErrorObject(b);
      case Attribute(_, value) =>
        notices := notices + [AttributeDiscarded];
        json := Render(value);
    }

    method List(items: seq<Resp.Value>) returns (json: Bytes)
      modifies this
      ensures json == PrintJson(JArray(ProjectedAll(items, rules)))
      ensures notices == old(notices) + AllNotices(items, rules)
      ensures refused == Or(old(refused), AllRefusal(items, rules))
      decreases items, 1
    {
      hide Projected, PrintJson, PrintItems, Notices, Refusal;
      var parts: seq<Bytes> := [];
      assert items[0..] == items;
      for k := 0 to |items|
        invariant |parts| == k && forall j :: 0 <= j < k ==> parts[j] == PrintJson(ProjectedAll(items, rules)[j])
        invariant notices + AllNotices(items[k..], rules) == old(notices) + AllNotices(items, rules)
        invariant Or(refused, AllRefusal(items[k..], rules)) == Or(old(refused), AllRefusal(items, rules))
      {
        assert items[k..][0] == items[k] && items[k..][1..] == items[k + 1..];
        ProjectedAllAt(items, rules, k);
        var part := Render(items[k]);
        parts := parts + [part];
      }
      assert items[|items|..] == [];
      JoinPrints(parts, ProjectedAll(items, rules));
      PrintArray(ProjectedAll(items, rules));
      json := [OPEN_BRACKET] + Join(parts) + [CLOSE_BRACKET];
    }

    /** One `[key,value]` of a map that cannot be an object. */
    method PairText(e: Resp.Entry) returns (json: Bytes)
      modifies this
      ensures json == PrintJson(ProjectedPair(e, rules))
      ensures notices == old(notices) + EntryNotices(e, rules)
      ensures refused == Or(old(refused), EntryRefusal(e, rules))
      decreases e, 1
    {
      hide Projected, PrintJson, Notices, Refusal;
      var k := Render(e.key);
      var v := Render(e.val);
      TwoItems(Projected(e.key, rules), Projected(e.val, rules));
      json := [OPEN_BRACKET] + k + [COMMA] + v + [CLOSE_BRACKET];
    }

    method Pairs(entries: seq<Resp.Entry>) returns (json: Bytes)
      modifies this
      ensures json == PrintJson(JArray(ProjectedPairs(entries, rules)))
      ensures notices == old(notices) + PairNotices(entries, rules)
      ensures refused == Or(old(refused), PairRefusal(entries, rules))
      decreases entries, 2
    {
      hide ProjectedPair, PrintJson, PrintItems, EntryNotices, EntryRefusal;
      var parts: seq<Bytes> := [];
      assert entries[0..] == entries;
      for k := 0 to |entries|
        invariant |parts| == k && forall j :: 0 <= j < k ==> parts[j] == PrintJson(ProjectedPairs(entries, rules)[j])
        invariant notices + PairNotices(entries[k..], rules) == old(notices) + PairNotices(entries, rules)
        invariant Or(refused, PairRefusal(entries[k..], rules)) == Or(old(refused), PairRefusal(entries, rules))
      {
        assert entries[k..][0] == entries[k] && entries[k..][1..] == entries[k + 1..];
        ProjectedPairsAt(entries, rules, k);
        var part := PairText(entries[k]);
        parts := parts + [part];
      }
      assert entries[|entries|..] == [];
      JoinPrints(parts, ProjectedPairs(entries, rules));
      PrintArray(ProjectedPairs(entries, rules));
      json := [OPEN_BRACKET] + Join(parts) + [CLOSE_BRACKET];
    }

    /** One `"key":value` of a map that is an object. */
    method MemberText(e: Resp.Entry) returns (json: Bytes)
      requires IsStringKey(e.key)
      modifies this
      ensures json == PrintMember(ProjectedMember(e, rules))
      ensures notices == old(notices) + ValNotices(e, rules)
      ensures refused == Or(old(refused), ValRefusal(e, rules))
      decreases e, 1
    {
      hide Projected, PrintJson, Notices, Refusal, JsonString, KeyText;
      var k := WriteString(KeyText(e.key));
      var v := Render(e.val);
      json := k + [COLON] + v;
    }

    method Members(entries: seq<Resp.Entry>) returns (json: Bytes)
      requires StringKeys(entries)
      modifies this
      ensures json == PrintJson(JObject(ProjectedMembers(entries, rules)))
      ensures notices == old(notices) + ValueNotices(entries, rules)
      ensures refused == Or(old(refused), ValueRefusal(entries, rules))
      decreases entries, 2
    {
      hide ProjectedMember, PrintJson, PrintMember, ValNotices, ValRefusal, IsStringKey;
      var parts: seq<Bytes> := [];
      assert entries[0..] == entries;
      for k := 0 to |entries|
        invariant |parts| == k && forall j :: 0 <= j < k ==> parts[j] == PrintMember(ProjectedMembers(entries, rules)[j])
        invariant notices + ValueNotices(entries[k..], rules) == old(notices) + ValueNotices(entries, rules)
        invariant Or(refused, ValueRefusal(entries[k..], rules)) == Or(old(refused), ValueRefusal(entries, rules))
      {
        assert entries[k..][0] == entries[k] && entries[k..][1..] == entries[k + 1..];
        ProjectedMembersAt(entries, rules, k);
        var part := MemberText(entries[k]);
        parts := parts + [part];
      }
      assert entries[|entries|..] == [];
      JoinPrintsMembers(parts, ProjectedMembers(entries, rules));
      PrintObject(ProjectedMembers(entries, rules));
      json := [OPEN_BRACE] + Join(parts) + [CLOSE_BRACE];
    }

    method RenderMap(entries: seq<Resp.Entry>) returns (json: Bytes)
      modifies this
      ensures json == PrintJson(Projected(Resp.Map(entries), rules))
      ensures notices == old(notices) + Notices(Resp.Map(entries), rules)
      ensures refused == Or(old(refused), Refusal(Resp.Map(entries), rules))
      decreases entries, 3
    {
      hide PrintJson, ProjectedPairs, ProjectedMembers, PairNotices, ValueNotices, PairRefusal, ValueRefusal, IsStringKey, KeyText;
      if !StringKeys(entries) {
        notices := notices + [NonStringMapKey];
        json := Pairs(entries);
      } else if !DistinctKeyTexts(entries) {
        notices := notices + [DuplicateMapKeys];
        json := Pairs(entries);
      } else {
        json := Members(entries);
      }
    }
  }

  lemma {:induction false} JoinPrintsMembers(parts: seq<Bytes>, members: seq<JMember>)
    requires |parts| == |members| && forall k :: 0 <= k < |members| ==> parts[k] == PrintMember(members[k])
    ensures Join(parts) == PrintMembers(members)
    decreases |members|
  {
    hide PrintMember;
    if |members| > 1 {
      JoinPrintsMembers(parts[1..], members[1..]);
    }
  }

  lemma {:induction false} PrintObject(members: seq<JMember>)
    ensures PrintJson(JObject(members)) == [OPEN_BRACE] + PrintMembers(members) + [CLOSE_BRACE]
  {
  }

  datatype Projection = Projection(json: Bytes, notices: seq<Notice>, refused: Option<Notice>)

  /** `project`. */
  method Project(v: Resp.Value, rules: Rules) returns (p: Projection)
    ensures p == Projection(PrintJson(Projected(v, rules)), Notices(v, rules), Refusal(v, rules))
    ensures ProjectionReading.Tells(p.json, v, rules)
    ensures p.notices == ProjectionReading.AnnouncedAll(ProjectionReading.Written(v), rules)
    ensures ProjectionReading.RefusedFor(p.refused, ProjectionReading.Written(v), rules)
  {
    hide Projected, PrintJson, Notices, Refusal, ProjectionReading.Tells, ProjectionReading.Written, ProjectionReading.RefusedFor,
         ProjectionReading.AnnouncedAll;
    ProjectionReading.ProjectionTells(v, rules);
    ProjectionReading.NoticesByPlace(v, rules);
    ProjectionReading.RefusalByPlace(v, rules);
    var r := new Projector(rules);
    var json := r.Render(v);
    p := Projection(json, r.notices, r.refused);
    assert [] + Notices(v, rules) == Notices(v, rules);
  }
}
