/** Where arriving frames go: replies and events on standard output, pushes wherever the mode sends them. */
module Emitter {
  import opened Prelude
  import opened Utf8
  import opened Decimal
  import opened Base64
  import opened JsonDom
  import opened JsonText
  import opened JsonRoundTrip
  import opened EventJson
  import opened RespValue
  import PlainText
  import Resp3
  import Decoder
  import DecoderLaws
  import DecoderRoundTrip

  const LF: Byte := 0x0A

  datatype Mode = Pretty | Raw | Json | Csv | TypedJson | Ndjson | Resp | Blob

  datatype Route = DiscardCounted | StderrNdjson | StdoutEvent

  /** A frame as it arrived, with the octets that carried it. */
  datatype Arrival = Arrival(value: Value, wire: Bytes)

  predicate IsEventStream(mode: Mode) {
    mode.Ndjson? || mode.TypedJson?
  }

  function PushRoute(mode: Mode, showPushes: bool): Route {
    if IsEventStream(mode) then StdoutEvent else if showPushes then StderrNdjson else DiscardCounted
  }

  // ---------------------------------------------------------------- events

  const V: Text := [0x76]
  const KIND: Text := [0x6B, 0x69, 0x6E, 0x64]
  const SEQ: Text := [0x73, 0x65, 0x71]
  const TYPE: Text := [0x74, 0x79, 0x70, 0x65]
  const PUSH: Text := [0x70, 0x75, 0x73, 0x68]
  const REPLY: Text := [0x72, 0x65, 0x70, 0x6C, 0x79]

  function TypeName(v: Value): Text {
    match v
    case Simple(_) => [0x73, 0x69, 0x6D, 0x70, 0x6C, 0x65]
    case Error(_) => [0x65, 0x72, 0x72, 0x6F, 0x72]
    case Integer(_) => [0x69, 0x6E, 0x74, 0x65, 0x67, 0x65, 0x72]
    case Bulk(_) => [0x62, 0x75, 0x6C, 0x6B]
    case Null(_) => [0x6E, 0x75, 0x6C, 0x6C]
    case Array(_) => [0x61, 0x72, 0x72, 0x61, 0x79]
    case Boolean(_) => [0x62, 0x6F, 0x6F, 0x6C, 0x65, 0x61, 0x6E]
    case Double(_) => [0x64, 0x6F, 0x75, 0x62, 0x6C, 0x65]
    case BigNumber(_) => [0x62, 0x69, 0x67, 0x6E, 0x75, 0x6D, 0x62, 0x65, 0x72]
    case BulkError(_) => [0x62, 0x75, 0x6C, 0x6B, 0x65, 0x72, 0x72, 0x6F, 0x72]
    case Verbatim(_, _) => [0x76, 0x65, 0x72, 0x62, 0x61, 0x74, 0x69, 0x6D]
    case Map(_) => [0x6D, 0x61, 0x70]
    case Set(_) => [0x73, 0x65, 0x74]
    case Attribute(_, _) => [0x61, 0x74, 0x74, 0x72, 0x69, 0x62, 0x75, 0x74, 0x65]
    case Push(_) => PUSH
  }

  lemma {:induction false} TypeNameIsPlain(v: Value)
    ensures IsPlain(TypeName(v))
  {
  }

  function Kind(v: Value): (t: Text)
    ensures IsPlain(t)
  {
    if IsPush(v) then PUSH else REPLY
  }

  function Quoted(t: Text): Bytes
    requires IsPlain(t)
  {
    [QUOTE] + t + [QUOTE]
  }

  /** `event_line`: the kind is the second member, so that a line can be dispatched early. */
  function EventLine(seqNo: nat, v: Value): Bytes {
    TypeNameIsPlain(v);
    [OPEN_BRACE] + (Label(V) + ShowInt(1)) + [COMMA] + (Label(KIND) + Quoted(Kind(v))) + [COMMA]
    + (Label(SEQ) + ShowInt(seqNo)) + [COMMA] + (Label(TYPE) + Quoted(TypeName(v))) + [COMMA]
    + (Label(VALUE) + JsonValue(v)) + [CLOSE_BRACE]
  }

  // ---------------------------------------------------------------- one frame

  const NEEDS_BLOB: Bytes :=
    [0x2D, 0x2D, 0x62, 0x79, 0x74, 0x65, 0x73, 0x20, 0x72, 0x65, 0x71, 0x75, 0x69, 0x72, 0x65, 0x73, 0x20, 0x61, 0x20,
     0x73, 0x69, 0x6E, 0x67, 0x6C, 0x65, 0x20, 0x62, 0x6C, 0x6F, 0x62, 0x20, 0x72, 0x65, 0x70, 0x6C, 0x79, 0x0A]

  /** What a reply adds to standard output. */
  function ReplyOut(mode: Mode, seqNo: nat, v: Value): Bytes {
    match mode
    case Ndjson => EventLine(seqNo, v) + [LF]
    case TypedJson => EventLine(seqNo, v) + [LF]
    case Resp => Resp3.Encode(v)
    case Blob => if v.Bulk? then v.data else []
    case Json => JsonValue(v) + [LF]
    case Csv => EncodeAll(PlainText.CsvLine(v)) + [LF]
    case Pretty => EncodeAll(PlainText.RawText(v)) + [LF]
    case Raw => EncodeAll(PlainText.RawText(v)) + [LF]
  }

  function ReplyErr(mode: Mode, v: Value): Bytes {
    if mode.Blob? && !v.Bulk? then NEEDS_BLOB else []
  }

  datatype Log = Log(stdout: Bytes, stderr: Bytes, trace: Option<Bytes>, pushes: nat, replies: nat, seqNo: nat)

  const SUPPRESSED_ONE: Bytes :=
    [0x20, 0x70, 0x75, 0x73, 0x68, 0x20, 0x66, 0x72, 0x61, 0x6D, 0x65, 0x20,
     0x73, 0x75, 0x70, 0x70, 0x72, 0x65, 0x73, 0x73, 0x65, 0x64, 0x0A]
  const SUPPRESSED_MANY: Bytes :=
    [0x20, 0x70, 0x75, 0x73, 0x68, 0x20, 0x66, 0x72, 0x61, 0x6D, 0x65, 0x73, 0x20,
     0x73, 0x75, 0x70, 0x70, 0x72, 0x65, 0x73, 0x73, 0x65, 0x64, 0x0A]

  function Suppression(n: nat): Bytes {
    ShowInt(n) + if n == 1 then SUPPRESSED_ONE else SUPPRESSED_MANY
  }

  class Emitter {
    const mode: Mode
    const route: Route
    var stdout: Bytes
    var stderr: Bytes
    var trace: Option<Bytes>
    var pushes: nat
    var replies: nat
    var seqNo: nat

    constructor (mode: Mode, showPushes: bool)
      ensures this.mode == mode && this.route == PushRoute(mode, showPushes)
      ensures State() == Log([], [], None, 0, 0, 0)
    {
      this.mode, this.route := mode, PushRoute(mode, showPushes);
      stdout, stderr, trace := [], [], None;
      pushes, replies, seqNo := 0, 0, 0;
    }

    function State(): Log
      reads this
    {
      Log(stdout, stderr, trace, pushes, replies, seqNo)
    }

    method TraceWire()
      modifies this
      ensures State() == old(State()).(trace := Some([]))
    {
      trace := Some([]);
    }

    method Accept(a: Arrival)
      modifies this
      ensures State() == Routed(old(State()), mode, route, a)
    {
      hide EventLine, Resp3.Encode, JsonValue, IsPush, EncodeAll, PlainText.CsvLine, PlainText.RawText;
      if trace.Some? {
        trace := Some(trace.value + a.wire);
      }
      seqNo := seqNo + 1;
      if IsPush(a.value) {
        pushes := pushes + 1;
        if route.StderrNdjson? {
          stderr := stderr + (EventLine(seqNo, a.value) + [LF]);
        } else if route.StdoutEvent? {
          stdout := stdout + (EventLine(seqNo, a.value) + [LF]);
        }
        return;
      }
      replies := replies + 1;
      match mode {
        case Ndjson => stdout := stdout + (EventLine(seqNo, a.value) + [LF]);
        case TypedJson => stdout := stdout + (EventLine(seqNo, a.value) + [LF]);
        case Resp =>
          var sink := new Resp3.Sink();
          sink.Write(a.value);
          assert [] + Resp3.Encode(a.value) == Resp3.Encode(a.value);
          stdout := stdout + sink.out;
        case Blob =>
          if a.value.Bulk? {
            stdout := stdout + a.value.data;
          } else {
            stderr := stderr + NEEDS_BLOB;
          }
        case Json => stdout := stdout + (JsonValue(a.value) + [LF]);
        case Csv => stdout := stdout + (EncodeAll(PlainText.CsvLine(a.value)) + [LF]);
        case Pretty => stdout := stdout + (EncodeAll(PlainText.RawText(a.value)) + [LF]);
        case Raw => stdout := stdout + (EncodeAll(PlainText.RawText(a.value)) + [LF]);
      }
      NothingAdded(stdout, stderr);
    }

    method Finish()
      modifies this
      ensures State() == Finished(old(State()), route)
    {
      if route.DiscardCounted? && pushes > 0 {
        stderr := stderr + Suppression(pushes);
      }
    }
  }

  lemma {:induction false} NothingAdded(a: Bytes, b: Bytes)
    ensures a + [] == a && b + [] == b
  {
  }

  /** What `accept` does to the emitter. */
  function Routed(s: Log, mode: Mode, route: Route, a: Arrival): Log {
    var n := s.seqNo + 1;
    var s1 := s.(seqNo := n, trace := if s.trace.Some? then Some(s.trace.value + a.wire) else None);
    if IsPush(a.value) then
      var line := EventLine(n, a.value) + [LF];
      match route
      case DiscardCounted => s1.(pushes := s.pushes + 1)
      case StderrNdjson => s1.(pushes := s.pushes + 1, stderr := s.stderr + line)
      case StdoutEvent => s1.(pushes := s.pushes + 1, stdout := s.stdout + line)
    else
      s1.(replies := s.replies + 1, stdout := s.stdout + ReplyOut(mode, n, a.value),
          stderr := s.stderr + ReplyErr(mode, a.value))
  }

  function Finished(s: Log, route: Route): Log {
    if route.DiscardCounted? && s.pushes > 0 then s.(stderr := s.stderr + Suppression(s.pushes)) else s
  }

  /** The emitter after these frames. */
  function Ran(s: Log, mode: Mode, route: Route, frames: seq<Arrival>): Log {
    if frames == [] then s
    else Routed(Ran(s, mode, route, frames[..|frames| - 1]), mode, route, frames[|frames| - 1])
  }

  // ---------------------------------------------------------------- non-interference

  /** The frames that are no pushes, attributed pushes included among the pushes. */
  function Replies(frames: seq<Arrival>): seq<Arrival> {
    if frames == [] then []
    else
      var rest := Replies(frames[..|frames| - 1]);
      if IsPush(frames[|frames| - 1].value) then rest else rest + [frames[|frames| - 1]]
  }

  /**
    In every reply mode, whatever `--show-pushes` says, standard output is what it would have been had
    no push arrived.
   */
  lemma {:induction false} PushesDoNotInterfere(
      mode: Mode, showPushes: bool, s: Log, t: Log, frames: seq<Arrival>)
    requires !IsEventStream(mode) && s.stdout == t.stdout
    ensures var route := PushRoute(mode, showPushes);
            Ran(s, mode, route, frames).stdout == Ran(t, mode, route, Replies(frames)).stdout
    decreases |frames|
  {
    hide ReplyOut, Routed, IsPush;
    if frames != [] {
      var n, route := |frames| - 1, PushRoute(mode, showPushes);
      PushesDoNotInterfere(mode, showPushes, s, t, frames[..n]);
      var replies := Replies(frames[..n]);
      ReplyModeOut(Ran(s, mode, route, frames[..n]), mode, showPushes, frames[n]);
      if !IsPush(frames[n].value) {
        ReplyModeOut(Ran(t, mode, route, replies), mode, showPushes, frames[n]);
        assert Replies(frames)[..|replies|] == replies;
      }
    }
  }

  /** In a reply mode a frame's number plays no part, and a push adds nothing. */
  lemma {:induction false} ReplyModeOut(s: Log, mode: Mode, showPushes: bool, a: Arrival)
    requires !IsEventStream(mode)
    ensures Routed(s, mode, PushRoute(mode, showPushes), a).stdout
         == if IsPush(a.value) then s.stdout else s.stdout + ReplyOut(mode, 0, a.value)
  {
    hide EventLine, Resp3.Encode, JsonValue, IsPush;
  }

  // ---------------------------------------------------------------- counting

  function Wires(frames: seq<Arrival>): Bytes {
    if frames == [] then [] else Wires(frames[..|frames| - 1]) + frames[|frames| - 1].wire
  }

  function Pushes(frames: seq<Arrival>): nat {
    if frames == [] then 0
    else Pushes(frames[..|frames| - 1]) + if IsPush(frames[|frames| - 1].value) then 1 else 0
  }

  lemma {:induction false} FrameIsCounted(s: Log, mode: Mode, route: Route, a: Arrival)
    ensures var t := Routed(s, mode, route, a);
            && t.seqNo == s.seqNo + 1
            && t.pushes == s.pushes + (if IsPush(a.value) then 1 else 0)
            && t.replies == s.replies + (if IsPush(a.value) then 0 else 1)
            && t.trace == if s.trace.Some? then Some(s.trace.value + a.wire) else None
  {
    hide EventLine, ReplyOut, ReplyErr, IsPush;
  }

  /** Every frame is counted once, and the wire trace is exactly what came down the socket. */
  lemma {:induction false} EveryFrameIsCounted(mode: Mode, route: Route, s: Log, frames: seq<Arrival>)
    ensures var t := Ran(s, mode, route, frames);
            && t.seqNo == s.seqNo + |frames|
            && t.pushes == s.pushes + Pushes(frames)
            && t.pushes + t.replies == s.pushes + s.replies + |frames|
            && t.trace == if s.trace.Some? then Some(s.trace.value + Wires(frames)) else None
    decreases |frames|
  {
    hide Routed, IsPush;
    if frames == [] {
      assert s.trace.Some? ==> s.trace.value + [] == s.trace.value;
    } else {
      var n := |frames| - 1;
      EveryFrameIsCounted(mode, route, s, frames[..n]);
      FrameIsCounted(Ran(s, mode, route, frames[..n]), mode, route, frames[n]);
      assert s.trace.Some? ==>
        s.trace.value + (Wires(frames[..n]) + frames[n].wire) == s.trace.value + Wires(frames[..n]) + frames[n].wire;
    }
  }

  // ---------------------------------------------------------------- event streams

  /** One event for each frame, numbered in arrival order. */
  function Events(from: nat, frames: seq<Arrival>): seq<Bytes> {
    if frames == [] then []
    else Events(from, frames[..|frames| - 1]) + [EventLine(from + |frames|, frames[|frames| - 1].value)]
  }

  function Terminated(lines: seq<Bytes>): Bytes {
    if lines == [] then [] else Terminated(lines[..|lines| - 1]) + (lines[|lines| - 1] + [LF])
  }

  lemma {:induction false} EventsAreWritten(mode: Mode, showPushes: bool, s: Log, frames: seq<Arrival>)
    requires IsEventStream(mode)
    ensures Ran(s, mode, PushRoute(mode, showPushes), frames).stdout == s.stdout + Terminated(Events(s.seqNo, frames))
    decreases |frames|
  {
    hide EventLine, IsPush;
    if frames == [] {
      assert s.stdout + [] == s.stdout;
    } else {
      var n := |frames| - 1;
      var route := PushRoute(mode, showPushes);
      EventsAreWritten(mode, showPushes, s, frames[..n]);
      EveryFrameIsCounted(mode, route, s, frames[..n]);
      var lines, line := Events(s.seqNo, frames[..n]), EventLine(s.seqNo + |frames|, frames[n].value);
      assert (lines + [line])[..|lines|] == lines;
      assert s.stdout + (Terminated(lines) + (line + [LF])) == s.stdout + Terminated(lines) + (line + [LF]);
    }
  }

  function FirstFeed(b: Bytes): (j: nat)
    ensures j <= |b| && (j < |b| ==> b[j] == LF) && forall k :: 0 <= k < j ==> b[k] != LF
  {
    if b != [] && b[0] != LF then 1 + FirstFeed(b[1..]) else 0
  }

  /** A text split at its line feeds, as a reader of events splits it. */
  function Lines(b: Bytes): seq<Bytes>
    decreases |b|
  {
    if b == [] then []
    else
      var j := FirstFeed(b);
      if j == |b| then [b] else [b[..j]] + Lines(b[j + 1..])
  }

  lemma {:induction false} TerminatedFront(lines: seq<Bytes>)
    requires lines != []
    ensures Terminated(lines) == lines[0] + [LF] + Terminated(lines[1..])
    decreases |lines|
  {
    var n := |lines| - 1;
    if n == 0 {
      assert lines[..0] == [] && lines[1..] == [];
    } else {
      TerminatedFront(lines[..n]);
      assert lines[..n][1..] == lines[1..][..n - 1];
      var middle, last := Terminated(lines[1..n]), lines[n] + [LF];
      assert lines[..n][1..] == lines[1..n];
      assert lines[0] + [LF] + middle + last == lines[0] + [LF] + (middle + last);
    }
  }

  lemma {:induction false} LinesOfTerminated(lines: seq<Bytes>)
    requires forall k :: 0 <= k < |lines| ==> LF !in lines[k]
    ensures Lines(Terminated(lines)) == lines
    decreases |lines|
  {
    hide Terminated;
    if lines == [] {
      assert Terminated([]) == [] by { NoLines(); }
    } else {
      TerminatedFront(lines);
      LinesOfTerminated(lines[1..]);
      var b, line := Terminated(lines), lines[0];
      assert b[|line|] == LF && b[..|line|] == line && b[|line| + 1..] == Terminated(lines[1..]);
      FeedIs(b, |line|);
    }
  }

  lemma {:induction false} NoLines()
    ensures Terminated([]) == []
  {
  }

  lemma {:induction false} FeedIs(b: Bytes, n: nat)
    requires n < |b| && b[n] == LF && LF !in b[..n]
    ensures FirstFeed(b) == n
  {
    forall k | 0 <= k < n ensures b[k] != LF {
      assert b[k] == b[..n][k];
    }
  }

  lemma {:induction false} EventsAre(from: nat, frames: seq<Arrival>)
    ensures |Events(from, frames)| == |frames|
    ensures forall k :: 0 <= k < |frames| ==> Events(from, frames)[k] == EventLine(from + k + 1, frames[k].value)
    decreases |frames|
  {
    hide EventLine;
    if frames != [] {
      EventsAre(from, frames[..|frames| - 1]);
    }
  }

  /**
    In the event modes, standard output split at its line feeds is exactly one event for each frame, in
    arrival order and numbered from one, pushes and replies alike.
   */
  lemma {:induction false} OneLinePerFrame(mode: Mode, showPushes: bool, s: Log, frames: seq<Arrival>)
    requires IsEventStream(mode) && s.stdout == [] && s.seqNo == 0
    ensures var lines := Lines(Ran(s, mode, PushRoute(mode, showPushes), frames).stdout);
            |lines| == |frames| && forall k :: 0 <= k < |frames| ==> lines[k] == EventLine(k + 1, frames[k].value)
  {
    hide EventLine, Lines, Terminated, Ran, Events;
    EventsAreWritten(mode, showPushes, s, frames);
    var lines := Events(0, frames);
    EventsAre(0, frames);
    forall k | 0 <= k < |lines| ensures LF !in lines[k] {
      EventIsOneLine(k + 1, frames[k].value);
    }
    LinesOfTerminated(lines);
    NothingFirst(Terminated(lines));
  }

  lemma {:induction false} NothingFirst(b: Bytes)
    ensures [] + b == b
  {
  }

  // ---------------------------------------------------------------- an event is one line

  predicate IsOneLine(b: Bytes) {
    LF !in b
  }

  lemma {:induction false} EscapedIsOneLine(t: Text)
    ensures IsOneLine(EscapeAll(t))
  {
    if t != [] {
      EscapedIsOneLine(t[1..]);
      CharIsOneLine(t[0]);
    }
  }

  lemma {:induction false} CharIsOneLine(c: Scalar)
    ensures IsOneLine(EscapeChar(c))
  {
    hide Encode;
    if c >= 0x20 {
      if c < 0x80 {
        assert Encode(c) == [c];
      } else {
        assert forall k :: 0 <= k < |Encode(c)| ==> Encode(c)[k] >= 0x80;
      }
    }
  }

  lemma {:induction false} BytesAreOneLine(b: Bytes)
    ensures IsOneLine(BytesJson(b))
  {
    hide EscapeAll, Encode64, Valid;
    if Valid(b) {
      EscapedIsOneLine(Decode(b));
    } else {
      Base64IsPlain(b);
      PlainIsOneLine(Encode64(b));
    }
  }

  lemma {:induction false} PlainIsOneLine(t: Text)
    requires IsPlain(t)
    ensures IsOneLine(t)
  {
  }

  lemma {:induction false} JoinIsOneLine(parts: seq<Bytes>)
    requires forall k :: 0 <= k < |parts| ==> IsOneLine(parts[k])
    ensures IsOneLine(Join(parts))
    decreases |parts|
  {
    if |parts| > 1 {
      JoinIsOneLine(parts[1..]);
    }
  }

  lemma {:induction false} NumberIsOneLine(n: int)
    ensures IsOneLine(ShowInt(n))
  {
    hide Show;
  }

  lemma {:induction false} LabelIsOneLine(key: Text)
    requires IsPlain(key)
    ensures IsOneLine(Label(key))
  {
  }

  lemma {:induction false} JsonIsOneLine(v: Value)
    ensures IsOneLine(JsonValue(v))
    decreases v, 0
  {
    hide BytesJson, Join, ShowInt, Label;
    LabelIsOneLine(FORMAT);
    LabelIsOneLine(DATA);
    LabelIsOneLine(ATTRIBUTES);
    LabelIsOneLine(VALUE);
    match v
    case Simple(b) => BytesAreOneLine(b);
    case Error(b) => BytesAreOneLine(b);
    case BulkError(b) => BytesAreOneLine(b);
    case Bulk(b) => BytesAreOneLine(b);
    case Double(b) => BytesAreOneLine(b);
    case BigNumber(b) => BytesAreOneLine(b);
    case Integer(n) => NumberIsOneLine(n);
    case Null(_) =>
    case Boolean(_) =>
    case Verbatim(format, data) => BytesAreOneLine(format); BytesAreOneLine(data);
    case Array(items) => ItemsAreOneLine(items);
    case Set(items) => ItemsAreOneLine(items);
    case Push(items) => ItemsAreOneLine(items);
    case Map(entries) => PairsAreOneLine(entries);
    case Attribute(attrs, value) => PairsAreOneLine(attrs); JsonIsOneLine(value);
  }

  lemma {:induction false} ItemsAreOneLine(items: seq<Value>)
    ensures IsOneLine(Join(JsonValues(items)))
    decreases items, 2
  {
    hide Join;
    EachIsOneLine(items);
    JoinIsOneLine(JsonValues(items));
  }

  lemma {:induction false} EachIsOneLine(items: seq<Value>)
    ensures forall k :: 0 <= k < |JsonValues(items)| ==> IsOneLine(JsonValues(items)[k])
    decreases items, 1
  {
    hide JsonValue, IsOneLine;
    if items != [] {
      JsonIsOneLine(items[0]);
      EachIsOneLine(items[1..]);
    }
  }

  lemma {:induction false} PairsAreOneLine(entries: seq<Entry>)
    ensures IsOneLine(Join(JsonPairs(entries)))
    decreases entries, 3
  {
    hide Join;
    EachPairIsOneLine(entries);
    JoinIsOneLine(JsonPairs(entries));
  }

  lemma {:induction false} PairIsOneLine(e: Entry)
    ensures IsOneLine(JsonPair(e))
    decreases e, 1
  {
    hide JsonValue;
    JsonIsOneLine(e.key);
    JsonIsOneLine(e.val);
  }

  lemma {:induction false} EachPairIsOneLine(entries: seq<Entry>)
    ensures forall k :: 0 <= k < |JsonPairs(entries)| ==> IsOneLine(JsonPairs(entries)[k])
    decreases entries, 2
  {
    hide JsonPair, IsOneLine;
    if entries != [] {
      PairIsOneLine(entries[0]);
      EachPairIsOneLine(entries[1..]);
    }
  }

  lemma {:induction false} EventIsOneLine(seqNo: nat, v: Value)
    ensures LF !in EventLine(seqNo, v)
  {
    hide JsonValue, ShowInt, Label, TypeName, Kind;
    LabelIsOneLine(V);
    LabelIsOneLine(KIND);
    LabelIsOneLine(SEQ);
    LabelIsOneLine(TYPE);
    LabelIsOneLine(VALUE);
    NumberIsOneLine(1);
    NumberIsOneLine(seqNo);
    PlainIsOneLine(Kind(v));
    TypeNameIsPlain(v);
    PlainIsOneLine(TypeName(v));
    JsonIsOneLine(v);
  }

  // ---------------------------------------------------------------- an event is a document

  function EventContent(seqNo: nat, v: Value): Json {
    JObject([
      JMember(V, JNumber(ShowInt(1))), JMember(KIND, JString(Kind(v))), JMember(SEQ, JNumber(ShowInt(seqNo))),
      JMember(TYPE, JString(TypeName(v))), JMember(VALUE, Content(v))])
  }

  lemma {:induction false} MembersMore(m: JMember, rest: seq<JMember>)
    requires rest != []
    ensures PrintMembers([m] + rest) == PrintMember(m) + [COMMA] + PrintMembers(rest)
  {
    hide PrintMember;
    assert ([m] + rest)[1..] == rest;
  }

  lemma {:induction false} FiveMembers(a: JMember, b: JMember, c: JMember, d: JMember, e: JMember)
    ensures PrintJson(JObject([a, b, c, d, e]))
         == [OPEN_BRACE] + PrintMember(a) + [COMMA] + PrintMember(b) + [COMMA] + PrintMember(c) + [COMMA]
            + PrintMember(d) + [COMMA] + PrintMember(e) + [CLOSE_BRACE]
  {
    hide PrintMember, PrintMembers;
    assert [a, b, c, d, e] == [a] + [b, c, d, e];
    MembersMore(a, [b, c, d, e]);
    assert [b, c, d, e] == [b] + [c, d, e];
    MembersMore(b, [c, d, e]);
    assert [c, d, e] == [c] + [d, e];
    MembersMore(c, [d, e]);
    assert [d, e] == [d] + [e];
    MembersMore(d, [e]);
    LastMember(e);
    RegroupFive([OPEN_BRACE], PrintMember(a), [COMMA], PrintMember(b), PrintMember(c), PrintMember(d), PrintMember(e), [CLOSE_BRACE]);
  }

  lemma {:induction false} LastMember(m: JMember)
    ensures PrintMembers([m]) == PrintMember(m)
  {
  }

  lemma {:induction false} RegroupFive(
      o: Bytes, a: Bytes, m: Bytes, b: Bytes, c: Bytes, d: Bytes, e: Bytes, z: Bytes)
    ensures o + (a + m + (b + m + (c + m + (d + m + e)))) + z == o + a + m + b + m + c + m + d + m + e + z
  {
    assert c + m + (d + m + e) == c + m + d + m + e;
    assert b + m + (c + m + d + m + e) == b + m + c + m + d + m + e;
    assert a + m + (b + m + c + m + d + m + e) == a + m + b + m + c + m + d + m + e;
    assert o + (a + m + b + m + c + m + d + m + e) == o + a + m + b + m + c + m + d + m + e;
  }

  lemma {:induction false} StringMember(key: Text, t: Text)
    requires IsPlain(key) && IsPlain(t)
    ensures PrintMember(JMember(key, JString(t))) == Label(key) + Quoted(t)
  {
    hide JsonString;
    LabelPrints(key);
    QuotePlain(t);
  }

  lemma {:induction false} NumberMember(key: Text, n: int)
    requires IsPlain(key)
    ensures PrintMember(JMember(key, JNumber(ShowInt(n)))) == Label(key) + ShowInt(n)
  {
    hide JsonString, ShowInt;
    LabelPrints(key);
  }

  lemma {:induction false} EventLinePrints(seqNo: nat, v: Value)
    ensures EventLine(seqNo, v) == PrintJson(EventContent(seqNo, v))
  {
    hide JsonValue, ShowInt, Label, TypeName, Kind, Content, PrintJson, PrintMember, Quoted, IsPlain, JsonString;
    PlainNames();
    TypeNameIsPlain(v);
    NumberMember(V, 1);
    StringMember(KIND, Kind(v));
    NumberMember(SEQ, seqNo);
    StringMember(TYPE, TypeName(v));
    JsonValuePrints(v);
    LabelPrints(VALUE);
    MemberPrints(JMember(VALUE, Content(v)));
    FiveMembers(
      JMember(V, JNumber(ShowInt(1))), JMember(KIND, JString(Kind(v))), JMember(SEQ, JNumber(ShowInt(seqNo))),
      JMember(TYPE, JString(TypeName(v))), JMember(VALUE, Content(v)));
  }

  lemma {:induction false} PlainNames()
    ensures IsPlain(V) && IsPlain(KIND) && IsPlain(SEQ) && IsPlain(TYPE) && IsPlain(VALUE)
  {
  }

  /**
    Every event is a document of the repository's own parser, and reads back as the version, the kind,
    the number, the type and the content of the frame.
   */
  lemma {:induction false} EventLineParses(seqNo: nat, v: Value)
    ensures var r := ParseDocument(EventLine(seqNo, v), 3 * Depth(v) + 1);
            r.Ok? && ReadJson(r.value.source, r.value.root) == Some(EventContent(seqNo, v))
  {
    hide Content, EventLine, ParseDocument, ReadJson, ShowInt, IsNumber, Kind, TypeName;
    EventLinePrints(seqNo, v);
    IntegerIsNumber(1);
    IntegerIsNumber(seqNo);
    ContentIsLexical(v);
    ContentLevels(v);
    PrintThenParse(EventContent(seqNo, v), 3 * Depth(v) + 1);
  }

  // ---------------------------------------------------------------- re-encoded replies

  function ReplyValues(frames: seq<Arrival>): seq<Value> {
    if frames == [] then []
    else
      var rest := ReplyValues(frames[..|frames| - 1]);
      var v := frames[|frames| - 1].value;
      if IsPush(v) then rest else rest + [v]
  }

  lemma {:induction false} EncodeItemsMore(items: seq<Value>, v: Value)
    ensures Resp3.EncodeItems(items + [v]) == Resp3.EncodeItems(items) + Resp3.Encode(v)
  {
    hide Resp3.Encode;
    if items == [] {
      assert Resp3.EncodeItems([v]) == Resp3.Encode(v) + Resp3.EncodeItems([]);
    } else {
      assert (items + [v])[1..] == items[1..] + [v];
      EncodeItemsMore(items[1..], v);
    }
  }

  lemma {:induction false} RepliesAreEncoded(showPushes: bool, s: Log, frames: seq<Arrival>)
    ensures Ran(s, Resp, PushRoute(Resp, showPushes), frames).stdout
         == s.stdout + Resp3.EncodeItems(ReplyValues(frames))
    decreases |frames|
  {
    hide EventLine, Resp3.Encode, Resp3.EncodeItems, IsPush;
    if frames == [] {
      NoItems();
      NothingAdded(s.stdout, []);
    } else {
      var n := |frames| - 1;
      RepliesAreEncoded(showPushes, s, frames[..n]);
      var before, v := ReplyValues(frames[..n]), frames[n].value;
      EncodeItemsMore(before, v);
      assert s.stdout + (Resp3.EncodeItems(before) + Resp3.Encode(v))
          == s.stdout + Resp3.EncodeItems(before) + Resp3.Encode(v);
    }
  }

  lemma {:induction false} NoItems()
    ensures Resp3.EncodeItems([]) == []
  {
  }

  lemma {:induction false} DrainEncoded(v: Value, rest: Bytes, budget: Decoder.Budget)
    requires DecoderRoundTrip.Fits(v, budget.maxDepth, budget)
    ensures DecoderLaws.DrainFreely(Resp3.Encode(v) + rest, budget)
         == DecoderLaws.Preceded([Resp3.Normal(v)], DecoderLaws.DrainFreely(rest, budget))
  {
    hide Decoder.ParseValue, Resp3.Encode, Resp3.Normal, DecoderRoundTrip.Fits, DecoderLaws.DrainFreely;
    var b := Resp3.Encode(v) + rest;
    assert Carries(b, 0, Resp3.Encode(v));
    DecoderRoundTrip.EncodedReads(v, b, 0, 0, budget);
    DecoderLaws.FreelyOnce(b, budget);
    assert b[|Resp3.Encode(v)|..] == rest;
  }

  lemma {:induction false} DrainItems(items: seq<Value>, budget: Decoder.Budget)
    requires budget.maxDepth > 0 && forall k :: 0 <= k < |items| ==> DecoderRoundTrip.Fits(items[k], budget.maxDepth, budget)
    ensures DecoderLaws.DrainFreely(Resp3.EncodeItems(items), budget)
         == DecoderLaws.Drained(Resp3.NormalItems(items), [], None)
    decreases |items|
  {
    hide Decoder.ParseValue, Resp3.Encode, Resp3.Normal, DecoderRoundTrip.Fits, DecoderLaws.DrainFreely;
    if items == [] {
      DecoderLaws.FreelyOnce([], budget);
      NothingToRead(budget);
    } else {
      DrainEncoded(items[0], Resp3.EncodeItems(items[1..]), budget);
      DrainItems(items[1..], budget);
    }
  }

  lemma {:induction false} NothingToRead(budget: Decoder.Budget)
    requires budget.maxDepth > 0
    ensures Decoder.ParseValue([], 0, 0, budget) == Decoder.More
  {
  }

  /**
    `--output resp` is a stream of frames again: a decoder reads from standard output exactly the replies, in
    order and with their nulls normalised, and no push. It may get it at once, if that fits its buffer, or in
    any pieces that do.
   */
  lemma {:induction false} RespOutputDecodes(
      showPushes: bool, s: Log, frames: seq<Arrival>, pieces: seq<Bytes>, budget: Decoder.Budget)
    requires s.stdout == [] && budget.maxDepth > 0
    requires forall k :: 0 <= k < |frames| ==> DecoderRoundTrip.Fits(frames[k].value, budget.maxDepth, budget)
    ensures var out := Ran(s, Resp, PushRoute(Resp, showPushes), frames).stdout;
            var replies := DecoderLaws.Drained(Resp3.NormalItems(ReplyValues(frames)), [], None);
            && DecoderLaws.DrainFreely(out, budget) == replies
            && (|out| <= budget.maxFrameBytes ==> DecoderLaws.Drain(out, budget) == replies)
            && (DecoderLaws.Joined(pieces) == out && DecoderLaws.WithinLimit(pieces, [], budget) ==>
                  DecoderLaws.Fed(pieces, [], budget) == replies)
  {
    hide Ran, Resp3.EncodeItems, Resp3.NormalItems, DecoderRoundTrip.Fits, DecoderLaws.Drain, DecoderLaws.DrainFreely,
         DecoderLaws.Fed, DecoderLaws.WithinLimit, DecoderLaws.Joined;
    RepliesAreEncoded(showPushes, s, frames);
    var out := Resp3.EncodeItems(ReplyValues(frames));
    NothingFirst(out);
    RepliesFit(frames, budget);
    DrainItems(ReplyValues(frames), budget);
    if |out| <= budget.maxFrameBytes {
      DecoderLaws.FreelyWithinLimit(out, budget);
    }
    NothingFirst(DecoderLaws.Joined(pieces));
    DecoderLaws.LongStreams(pieces, [], budget);
  }

  lemma {:induction false} RepliesFit(frames: seq<Arrival>, budget: Decoder.Budget)
    requires forall k :: 0 <= k < |frames| ==> DecoderRoundTrip.Fits(frames[k].value, budget.maxDepth, budget)
    ensures forall k :: 0 <= k < |ReplyValues(frames)| ==>
      DecoderRoundTrip.Fits(ReplyValues(frames)[k], budget.maxDepth, budget)
    decreases |frames|
  {
    hide DecoderRoundTrip.Fits, IsPush;
    if frames != [] {
      RepliesFit(frames[..|frames| - 1], budget);
    }
  }

  // ---------------------------------------------------------------- CSV

  lemma {:induction false} EncodeAllMore(t: Text, more: Text)
    ensures EncodeAll(t + more) == EncodeAll(t) + EncodeAll(more)
  {
    hide Encode;
    if t == [] {
      assert t + more == more;
    } else {
      assert (t + more)[1..] == t[1..] + more;
      EncodeAllMore(t[1..], more);
      assert Encode(t[0]) + (EncodeAll(t[1..]) + EncodeAll(more)) == Encode(t[0]) + EncodeAll(t[1..]) + EncodeAll(more);
    }
  }

  lemma {:induction false} FeedIsAscii(t: Text)
    ensures EncodeAll(t + [LF]) == EncodeAll(t) + [LF]
  {
    EncodeAllMore(t, [LF]);
    assert [LF][1..] == [] && EncodeAll([]) == [];
    assert Encode(LF) == [LF];
    assert EncodeAll([LF]) == Encode(LF) + EncodeAll([LF][1..]);
  }

  lemma {:induction false} RepliesAreTabulated(showPushes: bool, s: Log, frames: seq<Arrival>)
    ensures Ran(s, Csv, PushRoute(Csv, showPushes), frames).stdout
         == s.stdout + EncodeAll(PlainText.Sheet(ReplyValues(frames)))
    decreases |frames|
  {
    hide EventLine, Resp3.Encode, IsPush, EncodeAll, PlainText.Sheet, PlainText.CsvLine;
    if frames == [] {
      EmptySheet();
      NothingAdded(s.stdout, []);
    } else {
      var n := |frames| - 1;
      RepliesAreTabulated(showPushes, s, frames[..n]);
      var before, v := ReplyValues(frames[..n]), frames[n].value;
      var sheet, line := PlainText.Sheet(before), PlainText.CsvLine(v);
      PlainText.SheetMore(before, v);
      EncodeAllMore(sheet, line + [LF]);
      FeedIsAscii(line);
      assert s.stdout + (EncodeAll(sheet) + (EncodeAll(line) + [LF])) == s.stdout + EncodeAll(sheet) + (EncodeAll(line) + [LF]);
    }
  }

  lemma {:induction false} EmptySheet()
    ensures EncodeAll(PlainText.Sheet([])) == []
  {
  }

  /**
    `--csv` is a table again: a CSV reader finds in standard output one record for each reply, in order, and
    every cell as it was exactly when no reply's last cell is unquoted and ends in a carriage return.
   */
  lemma {:induction false} CsvOutputReadsBack(showPushes: bool, s: Log, frames: seq<Arrival>)
    requires s.stdout == []
    ensures var out, vs := Ran(s, Csv, PushRoute(Csv, showPushes), frames).stdout, ReplyValues(frames);
            && Valid(out) && PlainText.Records(Decode(out)) == Some(PlainText.RowsKept(vs))
            && (PlainText.Records(Decode(out)) == Some(PlainText.Rows(vs))
                <==> forall k :: 0 <= k < |vs| ==> !PlainText.LosesInRow(vs[k]))
  {
    hide Ran, EncodeAll, Valid, Decode, PlainText.Sheet, PlainText.Records, PlainText.Rows, PlainText.RowsKept, PlainText.LosesInRow;
    RepliesAreTabulated(showPushes, s, frames);
    var sheet := PlainText.Sheet(ReplyValues(frames));
    NothingFirst(EncodeAll(sheet));
    DecodeOfEncode(sheet);
    PlainText.SheetReads(ReplyValues(frames));
    PlainText.SheetReadsBackIff(ReplyValues(frames));
  }
}
