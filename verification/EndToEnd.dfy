/** From the wire to standard output: what holds of everything the decoder can hand to the printers. */
module EndToEnd {
  import opened Prelude
  import opened RespValue
  import opened Decoder
  import opened DecoderLaws
  import opened DecoderRoundTrip
  import JsonDom
  import JsonText
  import EventJson
  import JsonRoundTrip
  import JsonProjection
  import Resp3
  import Emitter

  /** A decoded value is no deeper than the budget. */
  lemma {:induction false} FitsBoundsDepth(v: Value, levels: nat, budget: Budget)
    requires Fits(v, levels, budget)
    ensures Depth(v) <= levels
    decreases v, 0
  {
    match v
    case Array(items) => ItemsBoundDepth(items, levels - 1, budget);
    case Set(items) => ItemsBoundDepth(items, levels - 1, budget);
    case Push(items) => ItemsBoundDepth(items, levels - 1, budget);
    case Map(entries) => EntriesBoundDepth(entries, levels - 1, budget);
    case Attribute(attrs, value) =>
      EntriesBoundDepth(attrs, levels - 1, budget);
      FitsBoundsDepth(value, levels - 1, budget);
    case _ =>
  }

  lemma {:induction false} ItemsBoundDepth(items: seq<Value>, levels: nat, budget: Budget)
    requires forall k :: 0 <= k < |items| ==> Fits(items[k], levels, budget)
    ensures MaxDepth(items) <= levels
    decreases items, 1
  {
    hide Fits;
    if items != [] {
      FitsBoundsDepth(items[0], levels, budget);
      ItemsBoundDepth(items[1..], levels, budget);
    }
  }

  lemma {:induction false} EntryBoundsDepth(e: Entry, levels: nat, budget: Budget)
    requires FitEntry(e, levels, budget)
    ensures EntryDepth(e) <= levels
    decreases e, 1
  {
    hide Fits;
    FitsBoundsDepth(e.key, levels, budget);
    FitsBoundsDepth(e.val, levels, budget);
  }

  lemma {:induction false} EntriesBoundDepth(entries: seq<Entry>, levels: nat, budget: Budget)
    requires forall k :: 0 <= k < |entries| ==> FitEntry(entries[k], levels, budget)
    ensures MaxEntryDepth(entries) <= levels
    decreases entries, 2
  {
    hide FitEntry;
    if entries != [] {
      EntryBoundsDepth(entries[0], levels, budget);
      EntriesBoundDepth(entries[1..], levels, budget);
    }
  }

  /**
    Every frame the decoder can produce is reported as one event that the repository's own parser reads
    back, under a limit that depends on the decoder's budget alone.
   */
  lemma {:induction false} DecodedEventParses(stream: Bytes, pos: nat, budget: Budget, seqNo: nat)
    requires pos <= |stream| && ParseValue(stream, pos, 0, budget).Got?
    ensures var v := ParseValue(stream, pos, 0, budget).value;
            var line := Emitter.EventLine(seqNo, v);
            var r := JsonDom.ParseDocument(line, 3 * budget.maxDepth + 1);
            && Emitter.LF !in line
            && r.Ok? && JsonText.ReadJson(r.value.source, r.value.root) == Some(Emitter.EventContent(seqNo, v))
  {
    hide ParseValue, Fits, Depth, Emitter.EventLine, Emitter.EventContent, JsonDom.ParseDocument, JsonText.ReadJson,
         JsonText.PrintJson, JsonText.Lexical, JsonText.Levels;
    var v := ParseValue(stream, pos, 0, budget).value;
    ValueFits(stream, pos, 0, budget);
    FitsBoundsDepth(v, budget.maxDepth, budget);
    Emitter.EventIsOneLine(seqNo, v);
    Emitter.EventLinePrints(seqNo, v);
    EventFits(seqNo, v, 3 * budget.maxDepth + 1);
    JsonRoundTrip.PrintThenParse(Emitter.EventContent(seqNo, v), 3 * budget.maxDepth + 1);
  }

  lemma {:induction false} EventFits(seqNo: nat, v: Value, max: nat)
    requires max >= 3 * Depth(v) + 1
    ensures JsonText.Lexical(Emitter.EventContent(seqNo, v)) && JsonText.Levels(Emitter.EventContent(seqNo, v), max)
  {
    hide Depth, EventJson.Content, EventJson.ShowInt, JsonText.IsNumber, Emitter.TypeName, Emitter.Kind;
    EventJson.IntegerIsNumber(1);
    EventJson.IntegerIsNumber(seqNo);
    EventJson.ContentIsLexical(v);
    EventJson.ContentLevels(v);
    EventJson.LevelsGrow(EventJson.Content(v), 3 * Depth(v), max - 1);
  }

  lemma {:induction false} DrainedFit(buf: Bytes, budget: Budget)
    ensures forall k :: 0 <= k < |DrainFreely(buf, budget).values| ==>
      Fits(DrainFreely(buf, budget).values[k], budget.maxDepth, budget)
    decreases |buf|
  {
    hide ParseValue, Fits, DrainFreely;
    FreelyOnce(buf, budget);
    match ParseValue(buf, 0, 0, budget)
    case Got(v, end) =>
      ValueFits(buf, 0, 0, budget);
      DrainedFit(buf[end..], budget);
    case _ =>
  }

  /** Whatever is fed, and even where it overruns the buffer, the values that come out fit the budget. */
  lemma {:induction false} FedFit(pieces: seq<Bytes>, budget: Budget)
    ensures forall k :: 0 <= k < |Fed(pieces, [], budget).values| ==>
      Fits(Fed(pieces, [], budget).values[k], budget.maxDepth, budget)
  {
    hide Fits, DrainFreely, Fed, WithinLimit, Joined;
    DrainedFit([] + Joined(pieces), budget);
    LongStreams(pieces, [], budget);
  }

  /**
    The whole pipeline, with streams of any length: whatever arrives, in whatever pieces, writing the decoded
    frames with `--output resp` and decoding standard output, in any pieces that fit the buffer, gives the
    replies, normalised and in order, with every push left out.
   */
  lemma {:induction false} RespPipeline(
      arriving: seq<Bytes>, leaving: seq<Bytes>, budget: Budget, showPushes: bool, s: Emitter.Log, frames: seq<Emitter.Arrival>)
    requires budget.maxDepth > 0 && s.stdout == []
    requires var d := Fed(arriving, [], budget);
             |frames| == |d.values| && forall k :: 0 <= k < |frames| ==> frames[k].value == d.values[k]
    requires Joined(leaving) == Emitter.Ran(s, Emitter.Resp, Emitter.PushRoute(Emitter.Resp, showPushes), frames).stdout
    requires WithinLimit(leaving, [], budget)
    ensures Fed(leaving, [], budget) == Drained(Resp3.NormalItems(Emitter.ReplyValues(frames)), [], None)
  {
    hide Fed, Fits, Joined, WithinLimit, Emitter.Ran, Resp3.NormalItems, Emitter.ReplyValues;
    FedFit(arriving, budget);
    Emitter.RespOutputDecodes(showPushes, s, frames, leaving, budget);
  }

  /**
    A server can make `--json` write text that is not JSON: the decoder accepts the double `.5`, and no
    limit makes its projection parse.
   */
  lemma {:induction false} DecodedDoubleThatIsNotJson(budget: Budget, rules: JsonProjection.Rules)
    requires budget.maxDepth > 0 && !rules.huge([0x2E, 0x35])
    ensures var wire: Bytes := [0x2C, 0x2E, 0x35, 0x0D, 0x0A];
            ParseValue(wire, 0, 0, budget) == Got(Double([0x2E, 0x35]), 5)
    ensures forall max: nat ::
      JsonDom.ParseDocument(JsonText.PrintJson(JsonProjection.Projected(Double([0x2E, 0x35]), rules)), max).Err?
  {
    hide ParseValue, JsonDom.ParseDocument, JsonText.PrintJson, JsonProjection.Projected, JsonProjection.DoublesAreJson;
    PointFiveDecodes(budget);
    JsonProjection.FiniteDoubleThatIsNotJson(rules);
  }

  lemma {:induction false} PointFiveDecodes(budget: Budget)
    requires budget.maxDepth > 0
    ensures var wire: Bytes := [0x2C, 0x2E, 0x35, 0x0D, 0x0A];
            ParseValue(wire, 0, 0, budget) == Got(Double([0x2E, 0x35]), 5)
  {
    hide Blob, ParseList, ParseMap, ParseAttribute;
    var wire: Bytes := [0x2C, 0x2E, 0x35, 0x0D, 0x0A];
    var p: Bytes := [0x2E, 0x35];
    assert wire[1..3] == p;
    BreakAt(wire, 1, 3);
    assert Line(wire, 1) == Got(p, 5);
    assert FloatSyntax.DecimalRun(FloatSyntax.Plain(p), 2) == 2;
    assert FloatSyntax.DecimalRun(FloatSyntax.Plain(p), 1) == 2;
    assert FloatSyntax.IsFloat(p);
  }
}
