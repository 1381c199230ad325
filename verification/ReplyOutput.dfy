/** What the modes for people and for blobs write, said of the octets. */
module ReplyOutput {
  import opened Prelude
  import opened Utf8
  import opened RespValue
  import opened Emitter
  import opened PushFrames
  import opened JsonReading
  import Decimal
  import EventJson
  import EventReading
  import PlainText

  // ---------------------------------------------------------------- plain text

  /** The places of a value that write a line: scalars and empty aggregates, a key before its value. */
  function Leaves(v: Value): seq<Value>
    decreases v, 0
  {
    match v
    case Array(items) => if items == [] then [v] else AllLeaves(items)
    case Set(items) => if items == [] then [v] else AllLeaves(items)
    case Push(items) => if items == [] then [v] else AllLeaves(items)
    case Map(entries) => if entries == [] then [v] else EntryLeaves(entries)
    case Attribute(_, value) => Leaves(value)
    case _ => [v]
  }

  function AllLeaves(items: seq<Value>): seq<Value>
    decreases items, 1
  {
    if items == [] then [] else Leaves(items[0]) + AllLeaves(items[1..])
  }

  function PairLeaves(e: Entry): seq<Value>
    decreases e, 1
  {
    Leaves(e.key) + Leaves(e.val)
  }

  function EntryLeaves(entries: seq<Entry>): seq<Value>
    decreases entries, 2
  {
    if entries == [] then [] else PairLeaves(entries[0]) + EntryLeaves(entries[1..])
  }

  ghost predicate OctetsSay(b: Bytes, out: Bytes) {
    out == if IsUtf8(b) then b else EncodeAll(Lossy(b))
  }

  /** What one such place writes. */
  ghost predicate LeafSays(v: Value, out: Bytes) {
    match v
    case Integer(n) => IsNumeral(out, n)
    case Boolean(truth) => out == Ascii(if truth then "1" else "0")
    case Simple(b) => OctetsSay(b, out)
    case Bulk(b) => OctetsSay(b, out)
    case Error(b) => OctetsSay(b, out)
    case BulkError(b) => OctetsSay(b, out)
    case Double(b) => OctetsSay(b, out)
    case BigNumber(b) => OctetsSay(b, out)
    case Verbatim(_, b) => OctetsSay(b, out)
    case _ => out == []
  }

  ghost predicate LeavesSay(places: seq<Value>, outs: seq<Bytes>) {
    |outs| == |places| && forall k :: 0 <= k < |places| ==> LeafSays(places[k], outs[k])
  }

  /** Line feeds between the lines. */
  function LinesOf(outs: seq<Bytes>): Bytes {
    if outs == [] then [] else if |outs| == 1 then outs[0] else outs[0] + [0x0A] + LinesOf(outs[1..])
  }

  /** `out` is one line for each leaf of `v`. */
  ghost predicate IsPlainText(v: Value, out: Bytes) {
    exists outs :: LeavesSay(Leaves(v), outs) && out == LinesOf(outs)
  }

  lemma {:induction false} LinesAppend(a: seq<Bytes>, c: seq<Bytes>)
    requires a != [] && c != []
    ensures LinesOf(a + c) == LinesOf(a) + [0x0A] + LinesOf(c)
    decreases |a|
  {
    if |a| == 1 {
      assert (a + c)[1..] == c;
    } else {
      LinesAppend(a[1..], c);
      assert (a + c)[1..] == a[1..] + c;
      assert a[0] + [0x0A] + (LinesOf(a[1..]) + [0x0A] + LinesOf(c)) == a[0] + [0x0A] + LinesOf(a[1..]) + [0x0A] + LinesOf(c);
    }
  }

  lemma {:induction false} EncodeConcat(a: Text, c: Text)
    ensures EncodeAll(a + c) == EncodeAll(a) + EncodeAll(c)
    decreases |a|
  {
    if a == [] {
      assert a + c == c;
    } else {
      EncodeConcat(a[1..], c);
      assert (a + c)[1..] == a[1..] + c;
    }
  }

  lemma {:induction false} EncodeBetween(a: Text, c: Text)
    ensures EncodeAll(a + [PlainText.NEWLINE] + c) == EncodeAll(a) + [0x0A] + EncodeAll(c)
  {
    hide EncodeAll;
    EncodeConcat(a + [PlainText.NEWLINE], c);
    EncodeConcat(a, [PlainText.NEWLINE]);
    AsciiEncodes([PlainText.NEWLINE]);
  }

  lemma {:induction false} SomeLeaves(v: Value)
    ensures Leaves(v) != []
    decreases v
  {
    match v
    case Array(items) => if items != [] { SomeLeaves(items[0]); }
    case Set(items) => if items != [] { SomeLeaves(items[0]); }
    case Push(items) => if items != [] { SomeLeaves(items[0]); }
    case Map(entries) => if entries != [] { SomeLeaves(entries[0].key); assert PairLeaves(entries[0]) != []; }
    case Attribute(_, value) => SomeLeaves(value);
    case _ =>
  }

  lemma {:induction false} TwoSay(x: seq<Value>, a: seq<Bytes>, y: seq<Value>, c: seq<Bytes>)
    requires LeavesSay(x, a) && LeavesSay(y, c)
    ensures LeavesSay(x + y, a + c)
  {
    hide LeafSays;
  }

  lemma {:induction false} LossySays(b: Bytes)
    ensures OctetsSay(b, EncodeAll(Lossy(b)))
  {
    hide Lossy, EncodeAll, Valid, Decode;
    Utf8Iff(b);
    if Valid(b) {
      LossyKeepsValid(b);
      EncodeOfDecode(b);
    }
  }

  lemma {:induction false} ShownIsAscii(n: int)
    requires -0x8000_0000_0000_0000 <= n < 0x8000_0000_0000_0000
    ensures IsNumeral(EncodeAll(EventJson.ShowInt(n)), n)
  {
    hide EncodeAll, Decimal.DecimalValue;
    AsciiEncodes(EventJson.ShowInt(n));
    IntegerShows(n);
  }

  predicate IsLeaf(v: Value) {
    match v
    case Array(items) => items == []
    case Set(items) => items == []
    case Push(items) => items == []
    case Map(entries) => entries == []
    case Attribute(_, _) => false
    case _ => true
  }

  lemma {:induction false} LeafIsPlain(v: Value)
    requires IsLeaf(v)
    ensures LeafSays(v, EncodeAll(PlainText.RawText(v)))
  {
    hide Lossy, EncodeAll, OctetsSay, EventJson.ShowInt, IsNumeral;
    AsciiEncodes([0x31]);
    AsciiEncodes([0x30]);
    AsciiEncodes([]);
    match v
    case Integer(n) => ShownIsAscii(n);
    case Simple(b) => LossySays(b);
    case Bulk(b) => LossySays(b);
    case Error(b) => LossySays(b);
    case BulkError(b) => LossySays(b);
    case Double(b) => LossySays(b);
    case BigNumber(b) => LossySays(b);
    case Verbatim(_, b) => LossySays(b);
    case _ =>
  }

  /** Raw text is one line for each leaf. */
  lemma {:induction false} RawIsPlain(v: Value) returns (outs: seq<Bytes>)
    ensures LeavesSay(Leaves(v), outs) && EncodeAll(PlainText.RawText(v)) == LinesOf(outs)
    decreases v, 0
  {
    hide EncodeAll, LeafSays, PlainText.RawText;
    if IsLeaf(v) {
      LeafIsPlain(v);
      outs := [EncodeAll(PlainText.RawText(v))];
      assert Leaves(v) == [v];
    } else {
      RawOfList(v);
      match v
      case Array(items) => outs := ItemsArePlain(items);
      case Set(items) => outs := ItemsArePlain(items);
      case Push(items) => outs := ItemsArePlain(items);
      case Map(entries) => outs := EntriesArePlain(entries);
      case Attribute(_, value) => outs := RawIsPlain(value);
    }
  }

  lemma {:induction false} RawOfList(v: Value)
    ensures v.Array? || v.Set? || v.Push? ==> PlainText.RawText(v) == PlainText.Joined(PlainText.RawTexts(v.items), PlainText.NEWLINE)
    ensures v.Map? ==> PlainText.RawText(v) == PlainText.Joined(PlainText.RawPairs(v.entries), PlainText.NEWLINE)
    ensures v.Attribute? ==> PlainText.RawText(v) == PlainText.RawText(v.value)
  {
  }

  lemma {:induction false} JoinedMore(first: Text, rest: seq<Text>)
    ensures PlainText.Joined([first], PlainText.NEWLINE) == first
    ensures rest != [] ==>
              EncodeAll(PlainText.Joined([first] + rest, PlainText.NEWLINE))
              == EncodeAll(first) + [0x0A] + EncodeAll(PlainText.Joined(rest, PlainText.NEWLINE))
  {
    hide EncodeAll;
    if rest != [] {
      assert ([first] + rest)[1..] == rest;
      EncodeBetween(first, PlainText.Joined(rest, PlainText.NEWLINE));
    }
  }

  lemma {:induction false} RawTextsMore(items: seq<Value>)
    requires items != []
    ensures PlainText.RawTexts(items) == [PlainText.RawText(items[0])] + PlainText.RawTexts(items[1..])
    ensures if |items| == 1 then PlainText.RawTexts(items) == [PlainText.RawText(items[0])] else PlainText.RawTexts(items[1..]) != []
  {
    hide PlainText.RawText;
  }

  lemma {:induction false} RawPairsMore(entries: seq<Entry>)
    requires entries != []
    ensures PlainText.RawPairs(entries) == [PlainText.RawPair(entries[0])] + PlainText.RawPairs(entries[1..])
    ensures if |entries| == 1 then PlainText.RawPairs(entries) == [PlainText.RawPair(entries[0])] else PlainText.RawPairs(entries[1..]) != []
  {
    hide PlainText.RawPair;
  }

  lemma {:induction false} ItemsArePlain(items: seq<Value>) returns (outs: seq<Bytes>)
    requires items != []
    ensures outs != [] && LeavesSay(AllLeaves(items), outs)
    ensures EncodeAll(PlainText.Joined(PlainText.RawTexts(items), PlainText.NEWLINE)) == LinesOf(outs)
    decreases items, 1
  {
    hide EncodeAll, LeafSays, PlainText.RawText, Leaves, PlainText.Joined, LinesOf;
    SomeLeaves(items[0]);
    var first := RawIsPlain(items[0]);
    JoinedMore(PlainText.RawText(items[0]), PlainText.RawTexts(items[1..]));
    RawTextsMore(items);
    if |items| == 1 {
      outs := first;
      assert items[1..] == [] && Leaves(items[0]) + [] == Leaves(items[0]);
    } else {
      var rest := ItemsArePlain(items[1..]);
      outs := first + rest;
      TwoSay(Leaves(items[0]), first, AllLeaves(items[1..]), rest);
      LinesAppend(first, rest);
    }
  }

  lemma {:induction false} PairIsPlain(e: Entry) returns (outs: seq<Bytes>)
    ensures outs != [] && LeavesSay(PairLeaves(e), outs) && EncodeAll(PlainText.RawPair(e)) == LinesOf(outs)
    decreases e, 1
  {
    hide EncodeAll, LeafSays, PlainText.RawText, Leaves, LinesOf;
    SomeLeaves(e.key);
    SomeLeaves(e.val);
    var k := RawIsPlain(e.key);
    var v := RawIsPlain(e.val);
    outs := k + v;
    TwoSay(Leaves(e.key), k, Leaves(e.val), v);
    LinesAppend(k, v);
    EncodeBetween(PlainText.RawText(e.key), PlainText.RawText(e.val));
  }

  lemma {:induction false} EntriesArePlain(entries: seq<Entry>) returns (outs: seq<Bytes>)
    requires entries != []
    ensures outs != [] && LeavesSay(EntryLeaves(entries), outs)
    ensures EncodeAll(PlainText.Joined(PlainText.RawPairs(entries), PlainText.NEWLINE)) == LinesOf(outs)
    decreases entries, 2
  {
    hide EncodeAll, LeafSays, PlainText.RawPair, PairLeaves, PlainText.Joined, LinesOf;
    var first := PairIsPlain(entries[0]);
    JoinedMore(PlainText.RawPair(entries[0]), PlainText.RawPairs(entries[1..]));
    RawPairsMore(entries);
    if |entries| == 1 {
      outs := first;
      assert entries[1..] == [] && PairLeaves(entries[0]) + [] == PairLeaves(entries[0]);
    } else {
      var rest := EntriesArePlain(entries[1..]);
      outs := first + rest;
      TwoSay(PairLeaves(entries[0]), first, EntryLeaves(entries[1..]), rest);
      LinesAppend(first, rest);
    }
  }

  // ---------------------------------------------------------------- one reply

  predicate Direct(mode: Mode) {
    mode.Pretty? || mode.Raw? || mode.Json? || mode.Blob?
  }

  /** What a reply adds to standard output: plain text or JSON and a line feed, or the octets of a blob alone. */
  ghost predicate Adds(mode: Mode, v: Value, out: Bytes) {
    match mode
    case Json => exists text, t :: EventReading.Shows(v, t) && IsTreeOf(text, t) && out == text + [0x0A]
    case Blob => if v.Bulk? then out == v.data else out == []
    case _ => exists text :: IsPlainText(v, text) && out == text + [0x0A]
  }

  lemma {:induction false} ReplyAdds(mode: Mode, seqNo: nat, v: Value)
    requires Direct(mode)
    ensures Adds(mode, v, ReplyOut(mode, seqNo, v))
  {
    hide EventLine, EventJson.JsonValue, EncodeAll, PlainText.RawText, EventReading.Shows, IsTreeOf, LeavesSay, LinesOf;
    if mode.Json? {
      EventReading.JsonValueTells(v);
    } else if mode.Raw? || mode.Pretty? {
      var outs := RawIsPlain(v);
      assert IsPlainText(v, EncodeAll(PlainText.RawText(v)));
    }
  }

  // ---------------------------------------------------------------- runs

  function Flat(outs: seq<Bytes>): Bytes {
    if outs == [] then [] else Flat(outs[..|outs| - 1]) + outs[|outs| - 1]
  }

  /** One output for each frame whose core is no push. */
  ghost predicate AllAdd(mode: Mode, replies: seq<Sent>, outs: seq<Bytes>) {
    |outs| == |replies| && forall k :: 0 <= k < |outs| ==> Adds(mode, Wrapped(replies[k].layers, replies[k].core), outs[k])
  }

  lemma {:induction false} LastFrame(sent: seq<Sent>)
    requires sent != [] && Peeled(sent)
    ensures var n := |sent| - 1; var fs := Frames(sent);
            |fs| == n + 1 && fs[..n] == Frames(sent[..n]) && fs[n] == Frame(sent[n])
  {
    hide Frame, WithoutPushes, Pushes, PushCount, Replies;
    FramesHaveShape(sent[..|sent| - 1]);
  }

  lemma {:induction false} FlatMore(a: Bytes, outs: seq<Bytes>, last: Bytes)
    ensures a + Flat(outs + [last]) == a + Flat(outs) + last
  {
    assert (outs + [last])[..|outs|] == outs;
    assert a + (Flat(outs) + last) == a + Flat(outs) + last;
  }

  lemma {:induction false} MoreAdd(mode: Mode, replies: seq<Sent>, outs: seq<Bytes>, f: Sent, out: Bytes)
    requires AllAdd(mode, replies, outs) && Adds(mode, Wrapped(f.layers, f.core), out)
    ensures AllAdd(mode, replies + [f], outs + [out])
  {
    hide Adds, Wrapped;
  }

  /** Standard output is what the replies add, in order. */
  lemma {:induction false} RunAdds(mode: Mode, showPushes: bool, s: Log, sent: seq<Sent>) returns (outs: seq<Bytes>)
    requires Direct(mode) && Peeled(sent)
    ensures AllAdd(mode, WithoutPushes(sent), outs)
    ensures Ran(s, mode, PushRoute(mode, showPushes), Frames(sent)).stdout == s.stdout + Flat(outs)
    decreases |sent|
  {
    hide Adds, AllAdd, ReplyOut, Routed, IsPush, Wrapped, Flat, Frames, PushRoute;
    outs := [];
    if sent == [] {
      NothingRan(mode, s);
    } else {
      var n, route := |sent| - 1, PushRoute(mode, showPushes);
      outs := RunAdds(mode, showPushes, s, sent[..n]);
      LastFrame(sent);
      PushIff(sent[n].layers, sent[n].core);
      ReplyModeOut(Ran(s, mode, route, Frames(sent[..n])), mode, showPushes, Frame(sent[n]));
      if !sent[n].core.Push? {
        var v := Wrapped(sent[n].layers, sent[n].core);
        ReplyAdds(mode, 0, v);
        FlatMore(s.stdout, outs, ReplyOut(mode, 0, v));
        MoreAdd(mode, WithoutPushes(sent[..n]), outs, sent[n], ReplyOut(mode, 0, v));
        outs := outs + [ReplyOut(mode, 0, v)];
      }
    }
  }

  lemma {:induction false} NothingRan(mode: Mode, s: Log)
    ensures AllAdd(mode, [], []) && Frames([]) == [] && s.stdout + Flat([]) == s.stdout
  {
  }
}
