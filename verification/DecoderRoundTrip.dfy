/** Re-encoding a decoded value and decoding that again gives the value back, with every null in one form. */
module DecoderRoundTrip {
  import opened Prelude
  import opened Decimal
  import opened FloatSyntax
  import opened RespValue
  import opened Decoder
  import Resp3

  predicate NoBreak(s: Bytes) {
    forall k :: 0 <= k < |s| ==> s[k] != CR && s[k] != LF
  }

  /** What the decoder can have produced with `levels` of nesting left. */
  predicate Fits(v: Value, levels: nat, budget: Budget)
    decreases v, 0
  {
    && levels > 0
    && match v
       case Simple(b) => NoBreak(b)
       case Error(b) => NoBreak(b)
       case Bulk(b) => |b| <= budget.maxBulkBytes
       case BulkError(b) => |b| <= budget.maxBulkBytes
       case Double(b) => NoBreak(b) && IsFloat(b)
       case BigNumber(b) => IsBigNumber(b)
       case Verbatim(format, data) => |format| == 3 && |data| + 4 <= budget.maxBulkBytes
       case Array(items) => FitItems(items, levels - 1, budget)
       case Set(items) => FitItems(items, levels - 1, budget)
       case Push(items) => FitItems(items, levels - 1, budget)
       case Map(entries) => FitEntries(entries, levels - 1, budget)
       case Attribute(attrs, value) => FitEntries(attrs, levels - 1, budget) && Fits(value, levels - 1, budget)
       case _ => true
  }

  predicate FitItems(items: seq<Value>, levels: nat, budget: Budget)
    decreases items, 1
  {
    |items| <= budget.maxElements && forall k :: 0 <= k < |items| ==> Fits(items[k], levels, budget)
  }

  predicate FitEntry(e: Entry, levels: nat, budget: Budget)
    decreases e, 1
  {
    Fits(e.key, levels, budget) && Fits(e.val, levels, budget)
  }

  predicate FitEntries(entries: seq<Entry>, levels: nat, budget: Budget)
    decreases entries, 2
  {
    |entries| <= budget.maxElements && forall k :: 0 <= k < |entries| ==> FitEntry(entries[k], levels, budget)
  }

  // ---------------------------------------------------------------- what is decoded fits

  lemma {:induction false} ChunksFit(b: Bytes, pos: nat, taken: nat, budget: Budget)
    requires pos <= |b| && taken <= budget.maxBulkBytes && Chunks(b, pos, taken, budget).Got?
    ensures taken + |Chunks(b, pos, taken, budget).value| <= budget.maxBulkBytes
    decreases |b| - pos
  {
    hide Line, Octets, Length;
    var at := Line(b, pos + 1).end;
    var n := Length(Line(b, pos + 1).value, budget.maxBulkBytes).value.value;
    if n > 0 {
      ChunksFit(b, Octets(b, at, n).end, taken + n, budget);
    }
  }

  lemma {:induction false} BlobFits(b: Bytes, tag: Byte, header: Bytes, at: nat, levels: nat, budget: Budget)
    requires at <= |b| && levels > 0 && Blob(b, tag, header, at, budget).Got?
    ensures Fits(Blob(b, tag, header, at, budget).value, levels, budget)
  {
    hide Chunks, Octets, Integer64;
    if tag == 0x24 && header == [MARK] {
      ChunksFit(b, at, 0, budget);
    }
  }

  lemma {:induction false} ScalarFits(tag: Byte, line: Bytes, end: nat, levels: nat, budget: Budget)
    requires levels > 0 && NoBreak(line) && Scalar(tag, line, end).Got?
    ensures Fits(Scalar(tag, line, end).value, levels, budget)
  {
    hide IsFloat, IsBigNumber, Integer64;
  }

  lemma {:induction false} LineHasNoBreak(b: Bytes, pos: nat)
    requires pos <= |b| && Line(b, pos).Got?
    ensures NoBreak(Line(b, pos).value)
  {
    hide FirstBreak;
  }

  lemma {:induction false} ValueFits(b: Bytes, pos: nat, depth: nat, budget: Budget)
    requires pos <= |b| && ParseValue(b, pos, depth, budget).Got?
    ensures depth < budget.maxDepth && Fits(ParseValue(b, pos, depth, budget).value, budget.maxDepth - depth, budget)
    decreases |b| - pos, 0
  {
    hide Line, Scalar, Blob, ParseList, ParseMap, ParseAttribute, Fits;
    var line, at := Line(b, pos + 1).value, Line(b, pos + 1).end;
    LineHasNoBreak(b, pos + 1);
    if IsLineTag(b[pos]) {
      ScalarFits(b[pos], line, at, budget.maxDepth - depth, budget);
    } else if IsBlobTag(b[pos]) {
      BlobFits(b, b[pos], line, at, budget.maxDepth - depth, budget);
    } else if IsListTag(b[pos]) {
      ListFits(b, b[pos], line, at, depth, budget);
    } else if b[pos] == 0x25 {
      MapFits(b, line, at, depth, budget);
    } else {
      AttributeFits(b, line, at, depth, budget);
    }
  }

  lemma {:induction false} ListFits(b: Bytes, tag: Byte, header: Bytes, at: nat, depth: nat, budget: Budget)
    requires at <= |b| && depth < budget.maxDepth && ParseList(b, tag, header, at, depth, budget).Got?
    ensures Fits(ParseList(b, tag, header, at, depth, budget).value, budget.maxDepth - depth, budget)
    decreases |b| - at, 3
  {
    hide Items, StreamItems, Integer64, FitItems;
    if header == [MARK] {
      StreamItemsFit(b, at, 0, depth + 1, budget);
    } else {
      var length := Length(header, budget.maxElements);
      if length.value.Some? {
        ItemsFit(b, at, length.value.value, depth + 1, budget);
      }
    }
  }

  lemma {:induction false} MapFits(b: Bytes, header: Bytes, at: nat, depth: nat, budget: Budget)
    requires at <= |b| && depth < budget.maxDepth && ParseMap(b, header, at, depth, budget).Got?
    ensures Fits(ParseMap(b, header, at, depth, budget).value, budget.maxDepth - depth, budget)
    decreases |b| - at, 3
  {
    hide Entries, StreamEntries, Integer64, FitEntries;
    if header == [MARK] {
      StreamEntriesFit(b, at, 0, depth + 1, budget);
    } else {
      var length := Length(header, budget.maxElements);
      if length.value.Some? {
        EntriesFit(b, at, length.value.value, depth + 1, budget);
      }
    }
  }

  lemma {:induction false} AttributeFits(b: Bytes, header: Bytes, at: nat, depth: nat, budget: Budget)
    requires at <= |b| && depth < budget.maxDepth && ParseAttribute(b, header, at, depth, budget).Got?
    ensures Fits(ParseAttribute(b, header, at, depth, budget).value, budget.maxDepth - depth, budget)
    decreases |b| - at, 3
  {
    hide Entries, ParseValue, Integer64, FitEntries;
    var n := Length(header, budget.maxElements).value.value;
    EntriesFit(b, at, n, depth + 1, budget);
    ValueFits(b, Entries(b, at, n, depth + 1, budget).end, depth + 1, budget);
  }

  lemma {:induction false} ItemsFit(b: Bytes, pos: nat, n: nat, depth: nat, budget: Budget)
    requires pos <= |b| && depth <= budget.maxDepth && Items(b, pos, n, depth, budget).Got?
    ensures |Items(b, pos, n, depth, budget).value| == n
    ensures n <= budget.maxElements ==>
      FitItems(Items(b, pos, n, depth, budget).value, budget.maxDepth - depth, budget)
    decreases |b| - pos, 1
  {
    hide ParseValue, Fits;
    if n > 0 {
      ValueFits(b, pos, depth, budget);
      ItemsFit(b, ParseValue(b, pos, depth, budget).end, n - 1, depth, budget);
    }
  }

  lemma {:induction false} PairFits(b: Bytes, pos: nat, depth: nat, budget: Budget)
    requires pos <= |b| && ParsePair(b, pos, depth, budget).Got?
    ensures depth < budget.maxDepth && FitEntry(ParsePair(b, pos, depth, budget).value, budget.maxDepth - depth, budget)
    decreases |b| - pos, 1
  {
    hide ParseValue, Fits;
    ValueFits(b, pos, depth, budget);
    ValueFits(b, ParseValue(b, pos, depth, budget).end, depth, budget);
  }

  lemma {:induction false} EntriesFit(b: Bytes, pos: nat, n: nat, depth: nat, budget: Budget)
    requires pos <= |b| && depth <= budget.maxDepth && Entries(b, pos, n, depth, budget).Got?
    ensures |Entries(b, pos, n, depth, budget).value| == n
    ensures n <= budget.maxElements ==>
      FitEntries(Entries(b, pos, n, depth, budget).value, budget.maxDepth - depth, budget)
    decreases |b| - pos, 2
  {
    hide ParsePair, FitEntry;
    if n > 0 {
      PairFits(b, pos, depth, budget);
      EntriesFit(b, ParsePair(b, pos, depth, budget).end, n - 1, depth, budget);
    }
  }

  lemma {:induction false} StreamItemsFit(b: Bytes, pos: nat, taken: nat, depth: nat, budget: Budget)
    requires pos <= |b| && depth <= budget.maxDepth && taken <= budget.maxElements
    requires StreamItems(b, pos, taken, depth, budget).Got?
    ensures taken + |StreamItems(b, pos, taken, depth, budget).value| <= budget.maxElements
    ensures FitItems(StreamItems(b, pos, taken, depth, budget).value, budget.maxDepth - depth, budget)
    decreases |b| - pos, 1
  {
    hide ParseValue, Fits, Terminator;
    if b[pos] != 0x2E {
      ValueFits(b, pos, depth, budget);
      StreamItemsFit(b, ParseValue(b, pos, depth, budget).end, taken + 1, depth, budget);
    }
  }

  lemma {:induction false} StreamEntriesFit(b: Bytes, pos: nat, taken: nat, depth: nat, budget: Budget)
    requires pos <= |b| && depth <= budget.maxDepth && taken <= budget.maxElements
    requires StreamEntries(b, pos, taken, depth, budget).Got?
    ensures taken + |StreamEntries(b, pos, taken, depth, budget).value| <= budget.maxElements
    ensures FitEntries(StreamEntries(b, pos, taken, depth, budget).value, budget.maxDepth - depth, budget)
    decreases |b| - pos, 2
  {
    hide ParsePair, FitEntry, Terminator;
    if b[pos] != 0x2E {
      PairFits(b, pos, depth, budget);
      StreamEntriesFit(b, ParsePair(b, pos, depth, budget).end, taken + 1, depth, budget);
    }
  }

  // ---------------------------------------------------------------- what is encoded is read

  lemma {:induction false} BreakAt(b: Bytes, i: nat, j: nat)
    requires i <= j < |b| && (b[j] == CR || b[j] == LF) && NoBreak(b[i..j])
    ensures FirstBreak(b, i) == j
    decreases j - i
  {
    if i < j {
      assert b[i] == b[i..j][0];
      assert b[i + 1..j] == b[i..j][1..];
      BreakAt(b, i + 1, j);
    }
  }

  /** A tagged line is read, and leaves the reader behind it. */
  lemma {:induction false} TaggedLineReads(b: Bytes, pos: nat, tag: Byte, p: Bytes)
    requires Carries(b, pos, Resp3.Line(tag, p)) && NoBreak(p)
    ensures pos < |b| && b[pos] == tag && Line(b, pos + 1) == Got(p, pos + |p| + 3)
  {
    hide FirstBreak;
    var t := Resp3.Line(tag, p);
    CarriesParts(b, pos, [tag] + p, Resp3.CRLF);
    CarriesParts(b, pos, [tag], p);
    CarriesAt(b, pos, t, 0);
    CarriesAt(b, pos, t, |p| + 1);
    CarriesAt(b, pos, t, |p| + 2);
    BreakAt(b, pos + 1, pos + 1 + |p|);
  }

  lemma {:induction false} NumeralReads(n: int, cap: Size)
    ensures -0x8000_0000_0000_0000 <= n < 0x8000_0000_0000_0000 ==> Integer64(Numeral(n)) == Some(n)
    ensures 0 <= n <= cap ==> Length(Numeral(n), cap) == Ok(Some(n))
    ensures NoBreak(Numeral(n)) && Numeral(n) != [MARK]
  {
    NumeralRoundTrip(n);
    var s := Numeral(n);
    if n < 0 {
      assert s[1..] == Show(-n);
      DigitsShown(-n);
    } else {
      DigitsShown(n);
    }
  }

  lemma {:induction false} DigitsShown(n: nat)
    ensures IsDigits(Bytes0(Show(n)))
  {
  }

  function Bytes0(s: seq<Digit>): Bytes {
    s
  }

  lemma {:induction false} OctetsRead(b: Bytes, pos: nat, data: Bytes)
    requires Carries(b, pos, data + Resp3.CRLF)
    ensures pos <= |b| && Octets(b, pos, |data|) == Got(data, pos + |data| + 2)
  {
    CarriesParts(b, pos, data, Resp3.CRLF);
  }

  /** A blob: its header line, and the octets behind it. */
  lemma {:induction false} BlobReads(b: Bytes, pos: nat, tag: Byte, data: Bytes, budget: Budget)
    requires Carries(b, pos, Resp3.Line(tag, Numeral(|data|)) + (data + Resp3.CRLF)) && |data| <= budget.maxBulkBytes
    ensures pos < |b| && b[pos] == tag
    ensures var header := Numeral(|data|);
            && Line(b, pos + 1) == Got(header, pos + |header| + 3)
            && header != [MARK] && Length(header, budget.maxBulkBytes) == Ok(Some(|data|))
            && pos + |header| + 3 <= |b|
            && Octets(b, pos + |header| + 3, |data|) == Got(data, pos + |header| + 3 + |data| + 2)
  {
    hide Numeral, Line, Octets, Length, Integer64;
    CarriesParts(b, pos, Resp3.Line(tag, Numeral(|data|)), data + Resp3.CRLF);
    NumeralReads(|data|, budget.maxBulkBytes);
    TaggedLineReads(b, pos, tag, Numeral(|data|));
    OctetsRead(b, pos + |Numeral(|data|)| + 3, data);
  }

  /** A header line and `n` parts behind it. */
  lemma {:induction false} HeaderReads(b: Bytes, pos: nat, tag: Byte, n: nat, body: Bytes, budget: Budget)
    requires Carries(b, pos, Resp3.Line(tag, Numeral(n)) + body) && n <= budget.maxElements
    ensures pos < |b| && b[pos] == tag
    ensures var header := Numeral(n);
            && Line(b, pos + 1) == Got(header, pos + |header| + 3)
            && header != [MARK] && Length(header, budget.maxElements) == Ok(Some(n))
            && Carries(b, pos + |header| + 3, body) && |Resp3.Line(tag, header)| == |header| + 3
  {
    hide Numeral, Line, Length, Integer64;
    CarriesParts(b, pos, Resp3.Line(tag, Numeral(n)), body);
    NumeralReads(n, budget.maxElements);
    TaggedLineReads(b, pos, tag, Numeral(n));
  }

  lemma {:induction false} DigitsHaveNoBreak(s: Bytes)
    requires IsBigNumber(s)
    ensures NoBreak(s)
  {
    if s[0] == 0x2D {
      assert forall k :: 1 <= k < |s| ==> s[k] == s[1..][k - 1];
    }
  }

  lemma {:induction false} LineValueReads(v: Value, b: Bytes, pos: nat, depth: nat, budget: Budget)
    requires depth <= budget.maxDepth && Fits(v, budget.maxDepth - depth, budget)
    requires v.Simple? || v.Error? || v.Integer? || v.Null? || v.Boolean? || v.Double? || v.BigNumber?
    requires Carries(b, pos, Resp3.Encode(v))
    ensures pos <= |b| && ParseValue(b, pos, depth, budget) == Got(Resp3.Normal(v), pos + |Resp3.Encode(v)|)
  {
    hide Numeral, Line, Blob, ParseList, ParseMap, ParseAttribute, IsFloat, IsBigNumber, Integer64, Resp3.Line;
    match v
    case Simple(p) => LineLength(0x2B, p); TaggedLineReads(b, pos, 0x2B, p);
    case Error(p) => LineLength(0x2D, p); TaggedLineReads(b, pos, 0x2D, p);
    case Integer(n) =>
      NumeralReads(n, 0);
      LineLength(0x3A, Numeral(n));
      TaggedLineReads(b, pos, 0x3A, Numeral(n));
    case Null(_) => LineLength(0x5F, []); TaggedLineReads(b, pos, 0x5F, []);
    case Boolean(t) =>
      var p: Bytes := [if t then 0x74 else 0x66];
      LineLength(0x23, p);
      TaggedLineReads(b, pos, 0x23, p);
    case Double(p) => LineLength(0x2C, p); TaggedLineReads(b, pos, 0x2C, p);
    case BigNumber(p) => DigitsHaveNoBreak(p); LineLength(0x28, p); TaggedLineReads(b, pos, 0x28, p);
  }

  lemma {:induction false} LineLength(tag: Byte, p: Bytes)
    ensures |Resp3.Line(tag, p)| == |p| + 3
  {
  }

  lemma {:induction false} BlobValueReads(v: Value, b: Bytes, pos: nat, depth: nat, budget: Budget)
    requires depth <= budget.maxDepth && Fits(v, budget.maxDepth - depth, budget)
    requires v.Bulk? || v.BulkError? || v.Verbatim?
    requires Carries(b, pos, Resp3.Encode(v))
    ensures pos <= |b| && ParseValue(b, pos, depth, budget) == Got(Resp3.Normal(v), pos + |Resp3.Encode(v)|)
  {
    hide Numeral, Line, Scalar, Chunks, ParseList, ParseMap, ParseAttribute, Integer64, Length, Octets, Resp3.Line;
    var tag := if v.Bulk? then 0x24 else if v.BulkError? then 0x21 else 0x3D;
    var data := if v.Verbatim? then v.format + [0x3A] + v.data else v.data;
    var head := Resp3.Line(tag, Numeral(|data|));
    LineLength(tag, Numeral(|data|));
    assert Resp3.Encode(v) == head + (data + Resp3.CRLF) by {
      if v.Verbatim? {
        Resp3.VerbatimBytes(head, v.format, v.data, []);
        assert head + v.format + [0x3A] + v.data + Resp3.CRLF + [] == head + v.format + [0x3A] + v.data + Resp3.CRLF;
        assert head + (data + Resp3.CRLF) + [] == head + (data + Resp3.CRLF);
      } else {
        Resp3.Regroup(head, data, Resp3.CRLF);
      }
    }
    BlobReads(b, pos, tag, data, budget);
    if v.Verbatim? {
      assert data[..3] == v.format && data[4..] == v.data && data[3] == 0x3A;
    }
  }

  /** Wherever the encoding of a value that fits stands in a buffer, the decoder reads that value there. */
  lemma {:induction false} EncodedReads(v: Value, b: Bytes, pos: nat, depth: nat, budget: Budget)
    requires depth <= budget.maxDepth && Fits(v, budget.maxDepth - depth, budget)
    requires Carries(b, pos, Resp3.Encode(v))
    ensures pos <= |b| && ParseValue(b, pos, depth, budget) == Got(Resp3.Normal(v), pos + |Resp3.Encode(v)|)
    decreases v, 4
  {
    hide ParseValue, Resp3.Encode, Resp3.Normal;
    if v.Array? || v.Set? || v.Push? {
      ListReads(v, b, pos, depth, budget);
    } else if v.Map? {
      MapReads(v.entries, b, pos, depth, budget);
    } else if v.Attribute? {
      AttributeReads(v.attrs, v.value, b, pos, depth, budget);
    } else if v.Bulk? || v.BulkError? || v.Verbatim? {
      BlobValueReads(v, b, pos, depth, budget);
    } else {
      LineValueReads(v, b, pos, depth, budget);
    }
  }

  lemma {:induction false} ListReads(v: Value, b: Bytes, pos: nat, depth: nat, budget: Budget)
    requires v.Array? || v.Set? || v.Push?
    requires depth <= budget.maxDepth && Fits(v, budget.maxDepth - depth, budget)
    requires Carries(b, pos, Resp3.Encode(v))
    ensures pos <= |b| && ParseValue(b, pos, depth, budget) == Got(Resp3.Normal(v), pos + |Resp3.Encode(v)|)
    decreases v, 3
  {
    hide Numeral, Line, Scalar, Blob, ParseMap, ParseAttribute, Integer64, Length, Items, StreamItems,
         Resp3.Line, Resp3.EncodeItems, Resp3.NormalItems, FitItems;
    var tag := if v.Array? then 0x2A else if v.Set? then 0x7E else 0x3E;
    var body := Resp3.EncodeItems(v.items);
    FitCount(v.items, budget.maxDepth - depth - 1, budget);
    HeaderReads(b, pos, tag, |v.items|, body, budget);
    ItemsRead(v.items, b, pos + |Numeral(|v.items|)| + 3, depth + 1, budget);
  }

  lemma {:induction false} FitCount(items: seq<Value>, levels: nat, budget: Budget)
    requires FitItems(items, levels, budget)
    ensures |items| <= budget.maxElements
  {
  }

  lemma {:induction false} MapReads(entries: seq<Entry>, b: Bytes, pos: nat, depth: nat, budget: Budget)
    requires depth < budget.maxDepth && FitEntries(entries, budget.maxDepth - depth - 1, budget)
    requires Carries(b, pos, Resp3.Encode(Map(entries)))
    ensures pos <= |b|
    ensures ParseValue(b, pos, depth, budget) == Got(Resp3.Normal(Map(entries)), pos + |Resp3.Encode(Map(entries))|)
    decreases Map(entries), 3
  {
    hide Numeral, Line, Scalar, Blob, ParseList, ParseAttribute, Integer64, Length, Entries, StreamEntries,
         Resp3.Line, Resp3.EncodeEntries, Resp3.NormalEntries, FitEntry;
    HeaderReads(b, pos, 0x25, |entries|, Resp3.EncodeEntries(entries), budget);
    EntriesRead(entries, b, pos + |Numeral(|entries|)| + 3, depth + 1, budget);
  }

  lemma {:induction false} AttributeReads(
      attrs: seq<Entry>, value: Value, b: Bytes, pos: nat, depth: nat, budget: Budget)
    requires depth < budget.maxDepth && FitEntries(attrs, budget.maxDepth - depth - 1, budget)
    requires Fits(value, budget.maxDepth - depth - 1, budget)
    requires Carries(b, pos, Resp3.Encode(Attribute(attrs, value)))
    ensures var v := Attribute(attrs, value);
            pos <= |b| && ParseValue(b, pos, depth, budget) == Got(Resp3.Normal(v), pos + |Resp3.Encode(v)|)
    decreases Attribute(attrs, value), 3
  {
    hide Numeral, Line, Scalar, Blob, ParseList, ParseMap, Integer64, Length, Entries,
         Resp3.Line, Resp3.EncodeEntries, Resp3.NormalEntries, FitEntry, Fits;
    var whole := Attribute(attrs, value);
    var head, body, tail := Resp3.Line(0x7C, Numeral(|attrs|)), Resp3.EncodeEntries(attrs), Resp3.Encode(value);
    Resp3.Regroup(head, body, tail);
    HeaderReads(b, pos, 0x7C, |attrs|, body + tail, budget);
    var at := pos + |Numeral(|attrs|)| + 3;
    CarriesParts(b, at, body, tail);
    assert attrs == whole.attrs;
    EntriesRead(attrs, b, at, depth + 1, budget);
    EncodedReads(value, b, at + |body|, depth + 1, budget);
  }

  lemma {:induction false} ItemsRead(items: seq<Value>, b: Bytes, pos: nat, depth: nat, budget: Budget)
    requires depth <= budget.maxDepth && FitItems(items, budget.maxDepth - depth, budget)
    requires Carries(b, pos, Resp3.EncodeItems(items))
    ensures pos <= |b|
    ensures Items(b, pos, |items|, depth, budget) == Got(Resp3.NormalItems(items), pos + |Resp3.EncodeItems(items)|)
    decreases items, 1
  {
    hide ParseValue, Resp3.Encode, Resp3.Normal, Fits;
    if items != [] {
      CarriesParts(b, pos, Resp3.Encode(items[0]), Resp3.EncodeItems(items[1..]));
      EncodedReads(items[0], b, pos, depth, budget);
      ItemsRead(items[1..], b, pos + |Resp3.Encode(items[0])|, depth, budget);
    }
  }

  lemma {:induction false} PairReads(e: Entry, b: Bytes, pos: nat, depth: nat, budget: Budget)
    requires depth <= budget.maxDepth && FitEntry(e, budget.maxDepth - depth, budget)
    requires Carries(b, pos, Resp3.EncodeEntry(e))
    ensures pos <= |b|
    ensures ParsePair(b, pos, depth, budget) == Got(Resp3.NormalEntry(e), pos + |Resp3.EncodeEntry(e)|)
    decreases e, 1
  {
    hide ParseValue, Resp3.Encode, Resp3.Normal, Fits;
    CarriesParts(b, pos, Resp3.Encode(e.key), Resp3.Encode(e.val));
    EncodedReads(e.key, b, pos, depth, budget);
    EncodedReads(e.val, b, pos + |Resp3.Encode(e.key)|, depth, budget);
  }

  lemma {:induction false} EntriesRead(entries: seq<Entry>, b: Bytes, pos: nat, depth: nat, budget: Budget)
    requires depth <= budget.maxDepth && FitEntries(entries, budget.maxDepth - depth, budget)
    requires Carries(b, pos, Resp3.EncodeEntries(entries))
    ensures pos <= |b|
    ensures Entries(b, pos, |entries|, depth, budget)
         == Got(Resp3.NormalEntries(entries), pos + |Resp3.EncodeEntries(entries)|)
    decreases entries, 2
  {
    hide ParsePair, Resp3.EncodeEntry, Resp3.NormalEntry, FitEntry;
    if entries != [] {
      CarriesParts(b, pos, Resp3.EncodeEntry(entries[0]), Resp3.EncodeEntries(entries[1..]));
      PairReads(entries[0], b, pos, depth, budget);
      EntriesRead(entries[1..], b, pos + |Resp3.EncodeEntry(entries[0])|, depth, budget);
    }
  }

  /**
    Decode, re-encode, decode: for every stream the decoder read a value from, the re-encoding of that
    value, whatever follows it, decodes to the same value with its nulls in the RESP3 form, and exactly
    the re-encoding is consumed.
   */
  lemma {:induction false} ReencodedDecodes(stream: Bytes, pos: nat, budget: Budget, rest: Bytes)
    requires pos <= |stream| && ParseValue(stream, pos, 0, budget).Got?
    ensures var v := ParseValue(stream, pos, 0, budget).value;
            ParseValue(Resp3.Encode(v) + rest, 0, 0, budget) == Got(Resp3.Normal(v), |Resp3.Encode(v)|)
  {
    hide ParseValue, Resp3.Encode, Resp3.Normal, Fits;
    ValueFits(stream, pos, 0, budget);
    var v := ParseValue(stream, pos, 0, budget).value;
    EncodedReads(v, Resp3.Encode(v) + rest, 0, 0, budget);
  }
}
