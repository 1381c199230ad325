/** Which frames are pushes, by their shape, and where they go. */
module PushFrames {
  import opened Prelude
  import opened RespValue
  import opened Emitter
  import EventJson
  import Resp3

  /** Attribute layers around a value that is no attribute, outermost first, and the octets that carried it all. */
  datatype Sent = Sent(layers: seq<seq<Entry>>, core: Value, wire: Bytes)

  function Wrapped(layers: seq<seq<Entry>>, core: Value): Value {
    if layers == [] then core else Attribute(layers[0], Wrapped(layers[1..], core))
  }

  function Frame(f: Sent): Arrival {
    Arrival(Wrapped(f.layers, f.core), f.wire)
  }

  function Frames(sent: seq<Sent>): seq<Arrival> {
    if sent == [] then [] else Frames(sent[..|sent| - 1]) + [Frame(sent[|sent| - 1])]
  }

  predicate Peeled(sent: seq<Sent>) {
    forall k :: 0 <= k < |sent| ==> !sent[k].core.Attribute?
  }

  /** A frame is a push exactly when the value behind its attributes is one. */
  lemma {:induction false} PushIff(layers: seq<seq<Entry>>, core: Value)
    requires !core.Attribute?
    ensures IsPush(Wrapped(layers, core)) <==> core.Push?
  {
    if layers != [] {
      PushIff(layers[1..], core);
    }
  }

  /** Every value is some layers around one that is no attribute. */
  lemma {:induction false} EveryValueIsWrapped(v: Value) returns (layers: seq<seq<Entry>>, core: Value)
    ensures v == Wrapped(layers, core) && !core.Attribute?
    decreases v
  {
    if v.Attribute? {
      var inner;
      inner, core := EveryValueIsWrapped(v.value);
      layers := [v.attrs] + inner;
      assert layers[1..] == inner;
    } else {
      layers, core := [], v;
    }
  }

  /** On the wire a push is what begins with `>` behind its attributes. */
  lemma {:induction false} PushOctet(core: Value)
    requires !core.Attribute?
    ensures Resp3.Encode(core) != [] && (Resp3.Encode(core)[0] == '>' as int <==> core.Push?)
  {
    hide Resp3.EncodeItems, Resp3.EncodeEntries, Numeral;
  }

  // ---------------------------------------------------------------- one frame

  function Complaint(): Bytes {
    Ascii("--bytes requires a single blob reply\n")
  }

  /**
    Where a frame goes. A push never becomes a reply: it is written as an event to standard output in the
    event modes, to standard error in the others when pushes are shown, and nowhere when they are not. A reply
    never becomes a push.
   */
  lemma {:induction false} OneFrameIsRouted(s: Log, mode: Mode, showPushes: bool, f: Sent)
    requires !f.core.Attribute?
    ensures var v := Wrapped(f.layers, f.core);
            var t := Routed(s, mode, PushRoute(mode, showPushes), Frame(f));
            var event := EventLine(s.seqNo + 1, v) + [0x0A];
            && t.seqNo == s.seqNo + 1
            && t.trace == (if s.trace.Some? then Some(s.trace.value + f.wire) else None)
            && (f.core.Push? ==>
                  && t.pushes == s.pushes + 1 && t.replies == s.replies
                  && t.stdout == s.stdout + (if (mode.Ndjson? || mode.TypedJson?) then event else [])
                  && t.stderr == s.stderr + (if !mode.Ndjson? && !mode.TypedJson? && showPushes then event else []))
            && (!f.core.Push? ==>
                  && t.pushes == s.pushes && t.replies == s.replies + 1
                  && ((mode.Ndjson? || mode.TypedJson?) ==> t.stdout == s.stdout + event)
                  && t.stderr == s.stderr + (if mode.Blob? && !v.Bulk? then Complaint() else []))
  {
    hide EventLine, ReplyOut, IsPush;
    PushIff(f.layers, f.core);
    BlobComplaint();
    EventReply(mode, s.seqNo + 1, Wrapped(f.layers, f.core));
    NothingAdded(s.stdout, s.stderr);
  }

  lemma {:induction false} BlobComplaint()
    ensures NEEDS_BLOB == Complaint()
  {
  }

  lemma {:induction false} EventReply(mode: Mode, seqNo: nat, v: Value)
    ensures (mode.Ndjson? || mode.TypedJson?) ==> ReplyOut(mode, seqNo, v) == EventLine(seqNo, v) + [0x0A]
  {
    hide EventLine;
  }

  // ---------------------------------------------------------------- whole runs

  function WithoutPushes(sent: seq<Sent>): seq<Sent> {
    if sent == [] then []
    else
      var rest, last := WithoutPushes(sent[..|sent| - 1]), sent[|sent| - 1];
      if last.core.Push? then rest else rest + [last]
  }

  function PushCount(sent: seq<Sent>): nat {
    if sent == [] then 0 else PushCount(sent[..|sent| - 1]) + if sent[|sent| - 1].core.Push? then 1 else 0
  }

  lemma {:induction false} FramesHaveShape(sent: seq<Sent>)
    requires Peeled(sent)
    ensures |Frames(sent)| == |sent| && Replies(Frames(sent)) == Frames(WithoutPushes(sent))
    ensures Pushes(Frames(sent)) == PushCount(sent)
    decreases |sent|
  {
    hide IsPush;
    if sent != [] {
      var n := |sent| - 1;
      FramesHaveShape(sent[..n]);
      PushIff(sent[n].layers, sent[n].core);
      assert Frames(sent)[..n] == Frames(sent[..n]) && Frames(sent)[n] == Frame(sent[n]);
      var kept := WithoutPushes(sent[..n]);
      assert (kept + [sent[n]])[..|kept|] == kept;
    }
  }

  /**
    Non-interference by shape: in every mode but the event modes, standard output is what it would have been
    without the frames whose core is a push.
   */
  lemma {:induction false} OutputIgnoresPushes(mode: Mode, showPushes: bool, s: Log, t: Log, sent: seq<Sent>)
    requires !mode.Ndjson? && !mode.TypedJson? && s.stdout == t.stdout && Peeled(sent)
    ensures var route := PushRoute(mode, showPushes);
            Ran(s, mode, route, Frames(sent)).stdout == Ran(t, mode, route, Frames(WithoutPushes(sent))).stdout
  {
    hide Ran, Frames, WithoutPushes, PushCount, Replies;
    FramesHaveShape(sent);
    PushesDoNotInterfere(mode, showPushes, s, t, Frames(sent));
  }

  /** The counters by shape. */
  lemma {:induction false} ShapesAreCounted(mode: Mode, route: Route, s: Log, sent: seq<Sent>)
    requires Peeled(sent)
    ensures var t := Ran(s, mode, route, Frames(sent));
            t.pushes == s.pushes + PushCount(sent) && t.replies == s.replies + (|sent| - PushCount(sent))
  {
    hide Ran, Frames, PushCount, Replies, WithoutPushes, Pushes;
    FramesHaveShape(sent);
    EveryFrameIsCounted(mode, route, s, Frames(sent));
  }

  /** What is said at the end: nothing, unless pushes were dropped. */
  lemma {:induction false} DroppedPushesAreReported(mode: Mode, showPushes: bool, s: Log)
    ensures var t := Finished(s, PushRoute(mode, showPushes));
            && t.stdout == s.stdout
            && t.stderr == s.stderr +
                 if (mode.Ndjson? || mode.TypedJson?) || showPushes || s.pushes == 0 then []
                 else EventJson.ShowInt(s.pushes) + Ascii(if s.pushes == 1 then " push frame suppressed\n" else " push frames suppressed\n")
  {
    NothingAdded(s.stdout, s.stderr);
    SuppressionTexts();
  }

  lemma {:induction false} SuppressionTexts()
    ensures SUPPRESSED_ONE == Ascii(" push frame suppressed\n")
    ensures SUPPRESSED_MANY == Ascii(" push frames suppressed\n")
  {
  }
}
