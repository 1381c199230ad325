/** What a caller may rely on when bytes arrive in pieces, and that decoding undoes re-encoding. */
module DecoderLaws {
  import opened Prelude
  import opened RespValue
  import opened Decoder

  // ---------------------------------------------------------------- nothing that was decided changes

  /** A step that needed no further bytes stays what it is when there are more. */
  predicate Stable<T(==)>(before: Step<T>, after: Step<T>) {
    before.More? || after == before
  }

  lemma {:induction false} BreakIsStable(b: Bytes, more: Bytes, i: nat)
    requires i <= |b|
    ensures FirstBreak(b, i) < |b| ==> FirstBreak(b + more, i) == FirstBreak(b, i)
    decreases |b| - i
  {
    if i < |b| && b[i] != CR && b[i] != LF {
      assert (b + more)[i] == b[i];
      BreakIsStable(b, more, i + 1);
    }
  }

  lemma {:induction false} LineIsStable(b: Bytes, more: Bytes, pos: nat)
    requires pos <= |b|
    ensures Stable(Line(b, pos), Line(b + more, pos))
  {
    hide FirstBreak;
    var j := FirstBreak(b, pos);
    if j < |b| {
      BreakIsStable(b, more, pos);
      assert (b + more)[pos..j] == b[pos..j];
    }
  }

  lemma {:induction false} OctetsAreStable(b: Bytes, more: Bytes, pos: nat, n: nat)
    requires pos <= |b|
    ensures Stable(Octets(b, pos, n), Octets(b + more, pos, n))
  {
    if pos + n + 2 <= |b| {
      assert (b + more)[pos + n..pos + n + 2] == b[pos + n..pos + n + 2];
      assert (b + more)[pos..pos + n] == b[pos..pos + n];
    }
  }

  lemma {:induction false} ChunksAreStable(b: Bytes, more: Bytes, pos: nat, taken: nat, budget: Budget)
    requires pos <= |b|
    ensures Stable(Chunks(b, pos, taken, budget), Chunks(b + more, pos, taken, budget))
    decreases |b| - pos
  {
    hide Line, Octets, Length;
    if pos < |b| && b[pos] == 0x3B {
      LineIsStable(b, more, pos + 1);
      if Line(b, pos + 1).Got? {
        var at := Line(b, pos + 1).end;
        var length := Length(Line(b, pos + 1).value, budget.maxBulkBytes);
        if length.Ok? && length.value.Some? && length.value.value > 0 {
          var n := length.value.value;
          OctetsAreStable(b, more, at, n);
          if Octets(b, at, n).Got? {
            ChunksAreStable(b, more, Octets(b, at, n).end, taken + n, budget);
          }
        }
      }
    }
  }

  lemma {:induction false} BlobIsStable(b: Bytes, more: Bytes, tag: Byte, header: Bytes, at: nat, budget: Budget)
    requires at <= |b|
    ensures Stable(Blob(b, tag, header, at, budget), Blob(b + more, tag, header, at, budget))
  {
    hide Chunks, Octets, Length;
    if tag == 0x24 && header == [MARK] {
      ChunksAreStable(b, more, at, 0, budget);
    } else {
      var length := Length(header, budget.maxBulkBytes);
      if length.Ok? && length.value.Some? {
        OctetsAreStable(b, more, at, length.value.value);
      }
    }
  }

  /** Decoding a value is final: neither a value nor an error changes when more bytes arrive. */
  lemma {:induction false} ValueIsStable(b: Bytes, more: Bytes, pos: nat, depth: nat, budget: Budget)
    requires pos <= |b|
    ensures Stable(ParseValue(b, pos, depth, budget), ParseValue(b + more, pos, depth, budget))
    decreases |b| - pos, 0
  {
    hide Line, Scalar, Blob, ParseList, ParseMap, ParseAttribute, IsLineTag, IsBlobTag, IsListTag;
    if depth < budget.maxDepth && pos < |b| {
      assert (b + more)[pos] == b[pos];
      LineIsStable(b, more, pos + 1);
      if Line(b, pos + 1).Got? {
        var line, at := Line(b, pos + 1).value, Line(b, pos + 1).end;
        BlobIsStable(b, more, b[pos], line, at, budget);
        ListIsStable(b, more, b[pos], line, at, depth, budget);
        MapIsStable(b, more, line, at, depth, budget);
        AttributeIsStable(b, more, line, at, depth, budget);
      }
    }
  }

  lemma {:induction false} ListIsStable(
      b: Bytes, more: Bytes, tag: Byte, header: Bytes, at: nat, depth: nat, budget: Budget)
    requires at <= |b|
    ensures Stable(ParseList(b, tag, header, at, depth, budget), ParseList(b + more, tag, header, at, depth, budget))
    decreases |b| - at, 3
  {
    hide Items, StreamItems, Length;
    StreamItemsAreStable(b, more, at, 0, depth + 1, budget);
    var length := Length(header, budget.maxElements);
    if length.Ok? && length.value.Some? {
      ItemsAreStable(b, more, at, length.value.value, depth + 1, budget);
    }
  }

  lemma {:induction false} MapIsStable(b: Bytes, more: Bytes, header: Bytes, at: nat, depth: nat, budget: Budget)
    requires at <= |b|
    ensures Stable(ParseMap(b, header, at, depth, budget), ParseMap(b + more, header, at, depth, budget))
    decreases |b| - at, 3
  {
    hide Entries, StreamEntries, Length;
    StreamEntriesAreStable(b, more, at, 0, depth + 1, budget);
    var length := Length(header, budget.maxElements);
    if length.Ok? && length.value.Some? {
      EntriesAreStable(b, more, at, length.value.value, depth + 1, budget);
    }
  }

  lemma {:induction false} AttributeIsStable(
      b: Bytes, more: Bytes, header: Bytes, at: nat, depth: nat, budget: Budget)
    requires at <= |b|
    ensures Stable(ParseAttribute(b, header, at, depth, budget), ParseAttribute(b + more, header, at, depth, budget))
    decreases |b| - at, 3
  {
    hide Entries, ParseValue, Length;
    var length := Length(header, budget.maxElements);
    if length.Ok? && length.value.Some? {
      var n := length.value.value;
      EntriesAreStable(b, more, at, n, depth + 1, budget);
      if Entries(b, at, n, depth + 1, budget).Got? {
        ValueIsStable(b, more, Entries(b, at, n, depth + 1, budget).end, depth + 1, budget);
      }
    }
  }

  lemma {:induction false} ItemsAreStable(b: Bytes, more: Bytes, pos: nat, n: nat, depth: nat, budget: Budget)
    requires pos <= |b|
    ensures Stable(Items(b, pos, n, depth, budget), Items(b + more, pos, n, depth, budget))
    decreases |b| - pos, 1
  {
    hide ParseValue;
    if n > 0 {
      ValueIsStable(b, more, pos, depth, budget);
      if ParseValue(b, pos, depth, budget).Got? {
        ItemsAreStable(b, more, ParseValue(b, pos, depth, budget).end, n - 1, depth, budget);
      }
    }
  }

  lemma {:induction false} PairIsStable(b: Bytes, more: Bytes, pos: nat, depth: nat, budget: Budget)
    requires pos <= |b|
    ensures Stable(ParsePair(b, pos, depth, budget), ParsePair(b + more, pos, depth, budget))
    decreases |b| - pos, 1
  {
    hide ParseValue;
    ValueIsStable(b, more, pos, depth, budget);
    if ParseValue(b, pos, depth, budget).Got? {
      ValueIsStable(b, more, ParseValue(b, pos, depth, budget).end, depth, budget);
    }
  }

  lemma {:induction false} EntriesAreStable(b: Bytes, more: Bytes, pos: nat, n: nat, depth: nat, budget: Budget)
    requires pos <= |b|
    ensures Stable(Entries(b, pos, n, depth, budget), Entries(b + more, pos, n, depth, budget))
    decreases |b| - pos, 2
  {
    hide ParsePair;
    if n > 0 {
      PairIsStable(b, more, pos, depth, budget);
      if ParsePair(b, pos, depth, budget).Got? {
        EntriesAreStable(b, more, ParsePair(b, pos, depth, budget).end, n - 1, depth, budget);
      }
    }
  }

  lemma {:induction false} TerminatorIsStable(b: Bytes, more: Bytes, pos: nat)
    requires pos < |b|
    ensures Stable(Terminator(b, pos), Terminator(b + more, pos))
  {
    hide Line;
    LineIsStable(b, more, pos + 1);
  }

  lemma {:induction false} StreamItemsAreStable(
      b: Bytes, more: Bytes, pos: nat, taken: nat, depth: nat, budget: Budget)
    requires pos <= |b|
    ensures Stable(StreamItems(b, pos, taken, depth, budget), StreamItems(b + more, pos, taken, depth, budget))
    decreases |b| - pos, 1
  {
    hide ParseValue, Terminator;
    if pos < |b| {
      assert (b + more)[pos] == b[pos];
      TerminatorIsStable(b, more, pos);
      ValueIsStable(b, more, pos, depth, budget);
      if ParseValue(b, pos, depth, budget).Got? {
        StreamItemsAreStable(b, more, ParseValue(b, pos, depth, budget).end, taken + 1, depth, budget);
      }
    }
  }

  lemma {:induction false} StreamEntriesAreStable(
      b: Bytes, more: Bytes, pos: nat, taken: nat, depth: nat, budget: Budget)
    requires pos <= |b|
    ensures Stable(StreamEntries(b, pos, taken, depth, budget), StreamEntries(b + more, pos, taken, depth, budget))
    decreases |b| - pos, 2
  {
    hide ParsePair, Terminator;
    if pos < |b| {
      assert (b + more)[pos] == b[pos];
      TerminatorIsStable(b, more, pos);
      PairIsStable(b, more, pos, depth, budget);
      if ParsePair(b, pos, depth, budget).Got? {
        StreamEntriesAreStable(b, more, ParsePair(b, pos, depth, budget).end, taken + 1, depth, budget);
      }
    }
  }

  // ---------------------------------------------------------------- feeding in pieces

  /** Decoding until the buffer has no whole value: the values, what is left, and the error if there was one. */
  datatype Drained = Drained(values: seq<Value>, rest: Bytes, error: Option<DecodeError>)

  function Drain(buf: Bytes, budget: Budget): Drained
    decreases |buf|
  {
    match Attempt(buf, budget)
    case More => Drained([], buf, None)
    case Fail(e) => Drained([], buf, Some(e))
    case Got(v, end) => Preceded([v], Drain(buf[end..], budget))
  }

  function Preceded(values: seq<Value>, d: Drained): Drained {
    Drained(values + d.values, d.rest, d.error)
  }

  /** The decoder fed one piece after the other, drained after each; an error is the end of it. */
  function Fed(pieces: seq<Bytes>, buf: Bytes, budget: Budget): Drained
    decreases |pieces|
  {
    if pieces == [] then Drain(buf, budget)
    else
      var now := Drain(buf, budget);
      if now.error.Some? then now
      else Preceded(now.values, Fed(pieces[1..], now.rest + pieces[0], budget))
  }

  function Joined(pieces: seq<Bytes>): Bytes {
    if pieces == [] then [] else pieces[0] + Joined(pieces[1..])
  }

  /** Draining and then feeding more is the same as having had it all. */
  lemma {:induction false} DrainOfMore(buf: Bytes, more: Bytes, budget: Budget)
    requires |buf| + |more| <= budget.maxFrameBytes
    ensures var now := Drain(buf, budget);
            var all := Drain(buf + more, budget);
            if now.error.Some? then all.values == now.values && all.error == now.error
            else
              && |now.rest| <= |buf|
              && all == Preceded(now.values, Drain(now.rest + more, budget))
    decreases |buf|
  {
    hide Attempt, Drain;
    AttemptIsStable(buf, more, budget);
    DrainOnce(buf, budget);
    match Attempt(buf, budget)
    case More => NothingBefore(Drain(buf + more, budget));
    case Fail(e) => DrainOnce(buf + more, budget);
    case Got(v, end) =>
      DrainOnce(buf + more, budget);
      assert (buf + more)[end..] == buf[end..] + more;
      DrainOfMore(buf[end..], more, budget);
      var d := Drain(buf[end..], budget);
      Before([v], d.values, Drain(d.rest + more, budget));
  }

  lemma {:induction false} AttemptIsStable(buf: Bytes, more: Bytes, budget: Budget)
    requires |buf| + |more| <= budget.maxFrameBytes
    ensures Stable(Attempt(buf, budget), Attempt(buf + more, budget))
  {
    hide ParseValue;
    ValueIsStable(buf, more, 0, 0, budget);
  }

  lemma {:induction false} DrainOnce(buf: Bytes, budget: Budget)
    ensures Drain(buf, budget) == (
      match Attempt(buf, budget)
      case More => Drained([], buf, None)
      case Fail(e) => Drained([], buf, Some(e))
      case Got(v, end) => Preceded([v], Drain(buf[end..], budget)))
  {
    hide Attempt;
  }

  lemma {:induction false} NothingBefore(d: Drained)
    ensures Preceded([], d) == d
  {
    assert [] + d.values == d.values;
  }

  lemma {:induction false} Before(a: seq<Value>, b: seq<Value>, d: Drained)
    ensures Preceded(a, Preceded(b, d)) == Preceded(a + b, d)
  {
    assert a + (b + d.values) == a + b + d.values;
  }

  /**
    Incremental decoding: however a stream is cut into pieces, the decoder gives the same values and the
    same error as for the whole of it in one piece.
   */
  lemma {:induction false} PiecesDoNotMatter(pieces: seq<Bytes>, buf: Bytes, budget: Budget)
    requires |buf| + |Joined(pieces)| <= budget.maxFrameBytes
    ensures var whole, fed := Drain(buf + Joined(pieces), budget), Fed(pieces, buf, budget);
            fed.values == whole.values && fed.error == whole.error && (fed.error.None? ==> fed.rest == whole.rest)
    decreases |pieces|
  {
    hide Attempt, Drain;
    if pieces == [] {
      assert buf + [] == buf;
    } else {
      DrainOfMore(buf, Joined(pieces), budget);
      var now := Drain(buf, budget);
      if now.error.None? {
        PiecesDoNotMatter(pieces[1..], now.rest + pieces[0], budget);
        assert now.rest + pieces[0] + Joined(pieces[1..]) == now.rest + (pieces[0] + Joined(pieces[1..]));
      }
    }
  }

  // ---------------------------------------------------------------- streams longer than the buffer

  /** What is decoded when the buffer has no limit. */
  function DrainFreely(buf: Bytes, budget: Budget): Drained
    decreases |buf|
  {
    match ParseValue(buf, 0, 0, budget)
    case More => Drained([], buf, None)
    case Fail(e) => Drained([], buf, Some(e))
    case Got(v, end) => Preceded([v], DrainFreely(buf[end..], budget))
  }

  lemma {:induction false} FreelyOnce(buf: Bytes, budget: Budget)
    ensures DrainFreely(buf, budget) == (
      match ParseValue(buf, 0, 0, budget)
      case More => Drained([], buf, None)
      case Fail(e) => Drained([], buf, Some(e))
      case Got(v, end) => Preceded([v], DrainFreely(buf[end..], budget)))
  {
    hide ParseValue;
  }

  lemma {:induction false} FreelyWithinLimit(buf: Bytes, budget: Budget)
    requires |buf| <= budget.maxFrameBytes
    ensures Drain(buf, budget) == DrainFreely(buf, budget)
    decreases |buf|
  {
    hide ParseValue, Drain, DrainFreely;
    DrainOnce(buf, budget);
    FreelyOnce(buf, budget);
    match ParseValue(buf, 0, 0, budget)
    case Got(v, end) => FreelyWithinLimit(buf[end..], budget);
    case _ =>
  }

  lemma {:induction false} FreelyOfMore(buf: Bytes, more: Bytes, budget: Budget)
    ensures var now := DrainFreely(buf, budget);
            var all := DrainFreely(buf + more, budget);
            if now.error.Some? then all.values == now.values && all.error == now.error
            else all == Preceded(now.values, DrainFreely(now.rest + more, budget))
    decreases |buf|
  {
    hide ParseValue, DrainFreely;
    ValueIsStable(buf, more, 0, 0, budget);
    FreelyOnce(buf, budget);
    match ParseValue(buf, 0, 0, budget)
    case More => NothingBefore(DrainFreely(buf + more, budget));
    case Fail(e) => FreelyOnce(buf + more, budget);
    case Got(v, end) =>
      FreelyOnce(buf + more, budget);
      assert (buf + more)[end..] == buf[end..] + more;
      FreelyOfMore(buf[end..], more, budget);
      var d := DrainFreely(buf[end..], budget);
      Before([v], d.values, DrainFreely(d.rest + more, budget));
  }

  /** What is left over and the next piece never exceed the buffer limit. */
  predicate WithinLimit(pieces: seq<Bytes>, buf: Bytes, budget: Budget)
    decreases |pieces|
  {
    && |buf| <= budget.maxFrameBytes
    && (pieces != [] && Drain(buf, budget).error.None? ==>
          WithinLimit(pieces[1..], Drain(buf, budget).rest + pieces[0], budget))
  }

  /**
    A stream of any length: as long as what is left over and the next piece fit the buffer, feeding it in
    pieces gives the values and the error of the whole as a decoder without limit reads it. Where they do not
    fit, decoding ends with the budget error and the values so far.
   */
  lemma {:induction false} LongStreams(pieces: seq<Bytes>, buf: Bytes, budget: Budget)
    ensures var whole, fed := DrainFreely(buf + Joined(pieces), budget), Fed(pieces, buf, budget);
            if WithinLimit(pieces, buf, budget) then
              fed.values == whole.values && fed.error == whole.error && (fed.error.None? ==> fed.rest == whole.rest)
            else
              fed.error == Some(OverBudget) && fed.values <= whole.values
    decreases |pieces|
  {
    hide ParseValue, Drain, DrainFreely;
    if |buf| > budget.maxFrameBytes {
      DrainOnce(buf, budget);
    } else {
      FreelyWithinLimit(buf, budget);
      var now := Drain(buf, budget);
      if pieces == [] {
        assert buf + [] == buf;
      } else {
        FreelyOfMore(buf, Joined(pieces), budget);
        if now.error.None? {
          LongStreams(pieces[1..], now.rest + pieces[0], budget);
          assert now.rest + pieces[0] + Joined(pieces[1..]) == now.rest + (pieces[0] + Joined(pieces[1..]));
          LaterPrefix(now.values, Fed(pieces[1..], now.rest + pieces[0], budget).values,
                      DrainFreely(now.rest + Joined(pieces), budget).values);
        }
      }
    }
  }

  lemma {:induction false} LaterPrefix(front: seq<Value>, a: seq<Value>, b: seq<Value>)
    ensures a <= b ==> front + a <= front + b
  {
  }
}
