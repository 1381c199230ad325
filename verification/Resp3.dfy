/**
  `encode_resp3`: the normalised re-encoding of `--output resp`, and why a reader can always tell where
  one frame stops and the next begins.
 */
module Resp3 {
  import opened Prelude
  import opened RespValue

  const CR: Byte := 0x0D
  const LF: Byte := 0x0A
  const CRLF: Bytes := [0x0D, 0x0A]

  // ---------------------------------------------------------------- encoding

  function Line(tag: Byte, payload: Bytes): Bytes {
    [tag] + payload + CRLF
  }

  function Blob(tag: Byte, payload: Bytes): Bytes {
    Line(tag, Numeral(|payload|)) + payload + CRLF
  }

  /** The octets `encode_resp3` appends for `v`. */
  function Encode(v: Value): Bytes
    decreases v, 0
  {
    match v
    case Simple(b) => Line(0x2B, b)
    case Error(b) => Line(0x2D, b)
    case Integer(n) => Line(0x3A, Numeral(n))
    case Bulk(b) => Blob(0x24, b)
    case Null(_) => Line(0x5F, [])
    case Boolean(t) => Line(0x23, [if t then 0x74 else 0x66])
    case Double(lexeme) => Line(0x2C, lexeme)
    case BigNumber(d) => Line(0x28, d)
    case BulkError(b) => Blob(0x21, b)
    case Verbatim(format, data) => Line(0x3D, Numeral(|data| + 4)) + format + [0x3A] + data + CRLF
    case Array(items) => Line(0x2A, Numeral(|items|)) + EncodeItems(items)
    case Set(items) => Line(0x7E, Numeral(|items|)) + EncodeItems(items)
    case Map(entries) => Line(0x25, Numeral(|entries|)) + EncodeEntries(entries)
    case Push(items) => Line(0x3E, Numeral(|items|)) + EncodeItems(items)
    case Attribute(attrs, value) => Line(0x7C, Numeral(|attrs|)) + EncodeEntries(attrs) + Encode(value)
  }

  function EncodeItems(items: seq<Value>): Bytes
    decreases items, 1
  {
    if items == [] then [] else Encode(items[0]) + EncodeItems(items[1..])
  }

  function EncodeEntry(e: Entry): Bytes
    decreases e, 1
  {
    Encode(e.key) + Encode(e.val)
  }

  function EncodeEntries(entries: seq<Entry>): Bytes
    decreases entries, 2
  {
    if entries == [] then [] else EncodeEntry(entries[0]) + EncodeEntries(entries[1..])
  }

  /** The buffer that `encode_resp3` appends to. */
  class Sink {
    var out: Bytes

    constructor ()
      ensures out == []
    {
      out := [];
    }

    method Append(b: Bytes)
      modifies this
      ensures out == old(out) + b
    {
      out := out + b;
    }

    method Write(v: Value)
      modifies this
      ensures out == old(out) + Encode(v)
      decreases v, 0
    {
      hide Numeral, EncodeItems, EncodeEntries, Line, Blob;
      match v
      case Simple(b) => Append(Line(0x2B, b));
      case Error(b) => Append(Line(0x2D, b));
      case Integer(n) => Append(Line(0x3A, Numeral(n)));
      case Bulk(b) => Append(Blob(0x24, b));
      case Null(_) => Append(Line(0x5F, []));
      case Boolean(t) => Append(Line(0x23, [if t then 0x74 else 0x66]));
      case Double(lexeme) => Append(Line(0x2C, lexeme));
      case BigNumber(d) => Append(Line(0x28, d));
      case BulkError(b) => Append(Blob(0x21, b));
      case Verbatim(format, data) => Append(Line(0x3D, Numeral(|data| + 4)) + format + [0x3A] + data + CRLF);
      case Array(items) =>
        Append(Line(0x2A, Numeral(|items|)));
        WriteItems(items);
      case Set(items) =>
        Append(Line(0x7E, Numeral(|items|)));
        WriteItems(items);
      case Push(items) =>
        Append(Line(0x3E, Numeral(|items|)));
        WriteItems(items);
      case Map(entries) =>
        Append(Line(0x25, Numeral(|entries|)));
        WriteEntries(entries);
      case Attribute(attrs, value) =>
        Append(Line(0x7C, Numeral(|attrs|)));
        WriteEntries(attrs);
        Write(value);
    }

    method WriteItems(items: seq<Value>)
      modifies this
      ensures out == old(out) + EncodeItems(items)
      decreases items, 1
    {
      hide Encode;
      assert items[0..] == items;
      for k := 0 to |items|
        invariant out + EncodeItems(items[k..]) == old(out) + EncodeItems(items)
      {
        assert items[k..][1..] == items[k + 1..];
        Write(items[k]);
      }
    }

    method WriteEntry(e: Entry)
      modifies this
      ensures out == old(out) + EncodeEntry(e)
      decreases e, 1
    {
      hide Encode;
      Write(e.key);
      Write(e.val);
    }

    method WriteEntries(entries: seq<Entry>)
      modifies this
      ensures out == old(out) + EncodeEntries(entries)
      decreases entries, 2
    {
      hide EncodeEntry;
      assert entries[0..] == entries;
      for k := 0 to |entries|
        invariant out + EncodeEntries(entries[k..]) == old(out) + EncodeEntries(entries)
      {
        assert entries[k..][1..] == entries[k + 1..];
        WriteEntry(entries[k]);
      }
    }
  }

  // ---------------------------------------------------------------- what survives

  /** The value with every null in its RESP3 spelling. */
  function Normal(v: Value): Value
    decreases v, 0
  {
    match v
    case Null(_) => Null(Resp3Form)
    case Array(items) => Array(NormalItems(items))
    case Set(items) => Set(NormalItems(items))
    case Push(items) => Push(NormalItems(items))
    case Map(entries) => Map(NormalEntries(entries))
    case Attribute(attrs, value) => Attribute(NormalEntries(attrs), Normal(value))
    case _ => v
  }

  function NormalItems(items: seq<Value>): (r: seq<Value>)
    ensures |r| == |items|
    decreases items, 1
  {
    if items == [] then [] else [Normal(items[0])] + NormalItems(items[1..])
  }

  function NormalEntry(e: Entry): Entry
    decreases e, 1
  {
    Entry(Normal(e.key), Normal(e.val))
  }

  function NormalEntries(entries: seq<Entry>): (r: seq<Entry>)
    ensures |r| == |entries|
    decreases entries, 2
  {
    if entries == [] then [] else [NormalEntry(entries[0])] + NormalEntries(entries[1..])
  }

  /** No line of the text ends inside `b`. */
  predicate OneLine(b: Bytes) {
    forall k :: 0 <= k < |b| - 1 ==> !(b[k] == CR && b[k + 1] == LF)
  }

  /** What the wire guarantees of a decoded value: line payloads are single lines, tags have three octets. */
  predicate WireSafe(v: Value)
    decreases v, 0
  {
    match v
    case Simple(b) => OneLine(b)
    case Error(b) => OneLine(b)
    case Double(b) => OneLine(b)
    case BigNumber(b) => OneLine(b)
    case Verbatim(format, _) => |format| == 3
    case Array(items) => forall k :: 0 <= k < |items| ==> WireSafe(items[k])
    case Set(items) => forall k :: 0 <= k < |items| ==> WireSafe(items[k])
    case Push(items) => forall k :: 0 <= k < |items| ==> WireSafe(items[k])
    case Map(entries) => forall k :: 0 <= k < |entries| ==> WireSafeEntry(entries[k])
    case Attribute(attrs, value) => (forall k :: 0 <= k < |attrs| ==> WireSafeEntry(attrs[k])) && WireSafe(value)
    case _ => true
  }

  predicate WireSafeEntry(e: Entry)
    decreases e, 1
  {
    WireSafe(e.key) && WireSafe(e.val)
  }

  // ---------------------------------------------------------------- a reader

  datatype Read<+T> = Read(value: T, rest: Bytes) | Stuck

  /** The bytes before the first CR LF, and those behind it. */
  ghost function ReadLine(s: Bytes): (r: Read<Bytes>)
    ensures r.Read? ==> |r.rest| < |s| && |r.value| + |r.rest| + 2 == |s|
    decreases |s|
  {
    if |s| < 2 then Stuck
    else if s[0] == CR && s[1] == LF then Read([], s[2..])
    else
      match ReadLine(s[1..])
      case Stuck => Stuck
      case Read(line, rest) => Read([s[0]] + line, rest)
  }

  /** `n` octets and the CR LF behind them. */
  ghost function ReadBlob(s: Bytes, n: int): (r: Read<Bytes>)
    ensures r.Read? ==> |r.rest| < |s|
  {
    if 0 <= n && n + 2 <= |s| && s[n..n + 2] == CRLF then Read(s[..n], s[n + 2..]) else Stuck
  }

  /** One frame, read the way the RESP3 specification describes. */
  ghost function ReadValue(s: Bytes): (r: Read<Value>)
    ensures r.Read? ==> |r.rest| < |s|
    decreases |s|, 0
  {
    if s == [] then Stuck
    else
      match ReadLine(s[1..])
      case Stuck => Stuck
      case Read(line, rest) =>
        var n := NumeralValue(line);
        if s[0] == 0x2B then Read(Simple(line), rest)
        else if s[0] == 0x2D then Read(Error(line), rest)
        else if s[0] == 0x3A then
          if -0x8000_0000_0000_0000 <= n < 0x8000_0000_0000_0000 then Read(Integer(n), rest) else Stuck
        else if s[0] == 0x5F then Read(Null(Resp3Form), rest)
        else if s[0] == 0x23 then Read(Boolean(line == [0x74]), rest)
        else if s[0] == 0x2C then Read(Double(line), rest)
        else if s[0] == 0x28 then Read(BigNumber(line), rest)
        else if s[0] == 0x24 then
          (match ReadBlob(rest, n) case Stuck => Stuck case Read(b, r) => Read(Bulk(b), r))
        else if s[0] == 0x21 then
          (match ReadBlob(rest, n) case Stuck => Stuck case Read(b, r) => Read(BulkError(b), r))
        else if s[0] == 0x3D then
          (match ReadBlob(rest, n)
           case Stuck => Stuck
           case Read(b, r) => if |b| >= 4 && b[3] == 0x3A then Read(Verbatim(b[..3], b[4..]), r) else Stuck)
        else if n < 0 then Stuck
        else if s[0] == 0x2A then
          (match ReadItems(rest, n) case Stuck => Stuck case Read(items, r) => Read(Array(items), r))
        else if s[0] == 0x7E then
          (match ReadItems(rest, n) case Stuck => Stuck case Read(items, r) => Read(Set(items), r))
        else if s[0] == 0x3E then
          (match ReadItems(rest, n) case Stuck => Stuck case Read(items, r) => Read(Push(items), r))
        else if s[0] == 0x25 then
          (match ReadEntries(rest, n) case Stuck => Stuck case Read(entries, r) => Read(Map(entries), r))
        else if s[0] == 0x7C then
          (match ReadEntries(rest, n)
           case Stuck => Stuck
           case Read(attrs, r) =>
             match ReadValue(r)
             case Stuck => Stuck
             case Read(v, r2) => Read(Attribute(attrs, v), r2))
        else Stuck
  }

  ghost function ReadItems(s: Bytes, n: nat): (r: Read<seq<Value>>)
    ensures r.Read? ==> |r.rest| <= |s|
    decreases |s|, 1
  {
    if n == 0 then Read([], s)
    else
      match ReadValue(s)
      case Stuck => Stuck
      case Read(v, r) =>
        match ReadItems(r, n - 1)
        case Stuck => Stuck
        case Read(rest, r2) => Read([v] + rest, r2)
  }

  ghost function ReadEntries(s: Bytes, n: nat): (r: Read<seq<Entry>>)
    ensures r.Read? ==> |r.rest| <= |s|
    decreases |s|, 1
  {
    if n == 0 then Read([], s)
    else
      match ReadValue(s)
      case Stuck => Stuck
      case Read(k, r) =>
        match ReadValue(r)
        case Stuck => Stuck
        case Read(v, r2) =>
          match ReadEntries(r2, n - 1)
          case Stuck => Stuck
          case Read(rest, r3) => Read([Entry(k, v)] + rest, r3)
  }

  // ---------------------------------------------------------------- reading back

  lemma {:induction false} ReadLineOf(p: Bytes, r: Bytes)
    requires OneLine(p)
    ensures ReadLine(p + CRLF + r) == Read(p, r)
    decreases |p|
  {
    var s := p + CRLF + r;
    if p == [] {
      assert s == CRLF + r && s[2..] == r;
    } else {
      assert s[1..] == p[1..] + CRLF + r;
      ReadLineOf(p[1..], r);
      assert p == [p[0]] + p[1..];
      assert s[0] == p[0] && s[1] == (p[1..] + CRLF)[0];
    }
  }

  lemma {:induction false} NumeralIsOneLine(n: int)
    ensures OneLine(Numeral(n))
  {
  }

  /** A tagged line is split from what follows it. */
  lemma {:induction false} TaggedLine(tag: Byte, p: Bytes, r: Bytes)
    requires OneLine(p)
    ensures var s := Line(tag, p) + r; s != [] && s[0] == tag && ReadLine(s[1..]) == Read(p, r)
  {
    var s := Line(tag, p) + r;
    assert s[1..] == p + CRLF + r;
    ReadLineOf(p, r);
  }

  lemma {:induction false} ReadBlobOf(p: Bytes, r: Bytes)
    ensures ReadBlob(p + CRLF + r, |p|) == Read(p, r)
  {
    var s := p + CRLF + r;
    assert s[..|p|] == p && s[|p|..|p| + 2] == CRLF && s[|p| + 2..] == r;
  }

  lemma {:induction false} Regroup(a: Bytes, b: Bytes, c: Bytes)
    ensures (a + b) + c == a + (b + c)
  {
  }

  lemma {:induction false} BlobReads(tag: Byte, p: Bytes, r: Bytes)
    ensures var s := Blob(tag, p) + r;
            && s != [] && s[0] == tag
            && ReadLine(s[1..]) == Read(Numeral(|p|), p + CRLF + r)
            && ReadBlob(p + CRLF + r, NumeralValue(Numeral(|p|))) == Read(p, r)
  {
    hide Numeral, NumeralValue, ReadLine;
    NumeralIsOneLine(|p|);
    NumeralRoundTrip(|p|);
    ReadBlobOf(p, r);
    assert Blob(tag, p) + r == Line(tag, Numeral(|p|)) + (p + CRLF + r);
    TaggedLine(tag, Numeral(|p|), p + CRLF + r);
  }

  lemma {:induction false} HeaderReads(tag: Byte, n: nat, body: Bytes, r: Bytes)
    ensures var s := Line(tag, Numeral(n)) + body + r;
            s != [] && s[0] == tag && ReadLine(s[1..]) == Read(Numeral(n), body + r) && NumeralValue(Numeral(n)) == n
  {
    hide Numeral, NumeralValue, ReadLine;
    NumeralIsOneLine(n);
    NumeralRoundTrip(n);
    Regroup(Line(tag, Numeral(n)), body, r);
    TaggedLine(tag, Numeral(n), body + r);
  }

  predicate IsScalar(v: Value) {
    !v.Array? && !v.Set? && !v.Push? && !v.Map? && !v.Attribute?
  }

  lemma {:induction false} ScalarReads(v: Value, r: Bytes)
    requires WireSafe(v) && IsScalar(v)
    ensures ReadValue(Encode(v) + r) == Read(Normal(v), r)
  {
    hide Numeral, NumeralValue, ReadLine, ReadBlob, Line, Blob, ReadItems, ReadEntries, OneLine;
    match v
    case Simple(b) => TaggedLine(0x2B, b, r);
    case Error(b) => TaggedLine(0x2D, b, r);
    case Double(b) => TaggedLine(0x2C, b, r);
    case BigNumber(b) => TaggedLine(0x28, b, r);
    case Integer(n) => NumeralIsOneLine(n); NumeralRoundTrip(n); TaggedLine(0x3A, Numeral(n), r);
    case Null(_) => NoneIsOneLine(0); TaggedLine(0x5F, [], r);
    case Boolean(t) => NoneIsOneLine(if t then 0x74 else 0x66); TaggedLine(0x23, [if t then 0x74 else 0x66], r);
    case Bulk(b) => BlobReads(0x24, b, r);
    case BulkError(b) => BlobReads(0x21, b, r);
    case Verbatim(format, data) => VerbatimReads(format, data, r);
  }

  /** Whatever follows an encoded frame, the reader stops exactly behind it with the normalised value. */
  lemma {:induction false} ReadOfEncode(v: Value, r: Bytes)
    requires WireSafe(v)
    ensures ReadValue(Encode(v) + r) == Read(Normal(v), r)
    decreases v, 4
  {
    if IsScalar(v) {
      ScalarReads(v, r);
    } else if v.Attribute? {
      AttributeReads(v.attrs, v.value, r);
    } else if v.Map? {
      MapReads(v.entries, r);
    } else {
      ListReads(v, r);
    }
  }

  lemma {:induction false} ListReads(v: Value, r: Bytes)
    requires WireSafe(v) && (v.Array? || v.Set? || v.Push?)
    ensures ReadValue(Encode(v) + r) == Read(Normal(v), r)
    decreases v, 3
  {
    hide Numeral, NumeralValue, ReadLine, ReadBlob, Line, Blob, EncodeItems, EncodeEntries, ReadItems, ReadEntries,
         NormalItems, NormalEntries, OneLine;
    HeaderReads(if v.Array? then 0x2A else if v.Set? then 0x7E else 0x3E, |v.items|, EncodeItems(v.items), r);
    ReadItemsOf(v.items, r);
  }

  lemma {:induction false} MapReads(entries: seq<Entry>, r: Bytes)
    requires forall k :: 0 <= k < |entries| ==> WireSafeEntry(entries[k])
    ensures ReadValue(Encode(Map(entries)) + r) == Read(Normal(Map(entries)), r)
    decreases Map(entries), 3
  {
    hide Numeral, NumeralValue, ReadLine, ReadBlob, Line, Blob, EncodeItems, EncodeEntries, ReadItems, ReadEntries,
         NormalItems, NormalEntries, OneLine, WireSafeEntry;
    HeaderReads(0x25, |entries|, EncodeEntries(entries), r);
    ReadEntriesOf(entries, r);
  }

  lemma {:induction false} AttributeReads(attrs: seq<Entry>, value: Value, r: Bytes)
    requires WireSafe(value) && forall k :: 0 <= k < |attrs| ==> WireSafeEntry(attrs[k])
    ensures ReadValue(Encode(Attribute(attrs, value)) + r) == Read(Normal(Attribute(attrs, value)), r)
    decreases Attribute(attrs, value), 3
  {
    hide Numeral, NumeralValue, ReadLine, ReadBlob, Line, Blob, EncodeItems, EncodeEntries, ReadItems, ReadEntries,
         NormalItems, NormalEntries, OneLine, WireSafe, WireSafeEntry;
    var whole := Attribute(attrs, value);
    AttributeBytes(attrs, value, r);
    HeaderReads(0x7C, |attrs|, EncodeEntries(attrs), Encode(value) + r);
    assert attrs == whole.attrs;
    ReadEntriesOf(attrs, Encode(value) + r);
    ReadOfEncode(value, r);
  }

  lemma {:induction false} AttributeBytes(attrs: seq<Entry>, value: Value, r: Bytes)
    ensures Encode(Attribute(attrs, value)) + r == Line(0x7C, Numeral(|attrs|)) + EncodeEntries(attrs) + (Encode(value) + r)
  {
    hide EncodeEntries, Line, Numeral;
    Regroup(Line(0x7C, Numeral(|attrs|)) + EncodeEntries(attrs), Encode(value), r);
  }

  lemma {:induction false} NoneIsOneLine(c: Byte)
    ensures OneLine([]) && OneLine([c])
  {
  }

  lemma {:induction false} VerbatimReads(format: Bytes, data: Bytes, r: Bytes)
    requires |format| == 3
    ensures ReadValue(Encode(Verbatim(format, data)) + r) == Read(Verbatim(format, data), r)
  {
    hide Numeral, NumeralValue, ReadLine, ReadBlob, Line, ReadItems, ReadEntries;
    var p := format + [0x3A] + data;
    var n := |data| + 4;
    VerbatimBytes(Line(0x3D, Numeral(n)), format, data, r);
    HeaderReads(0x3D, n, p + CRLF, r);
    ReadBlobOf(p, r);
    assert p + CRLF + r == (p + CRLF) + r;
    assert p[..3] == format && p[4..] == data && p[3] == 0x3A;
  }

  lemma {:induction false} VerbatimBytes(head: Bytes, format: Bytes, data: Bytes, r: Bytes)
    ensures head + format + [0x3A] + data + CRLF + r == head + (format + [0x3A] + data + CRLF) + r
  {
    assert head + format + [0x3A] + data + CRLF == head + (format + [0x3A] + data + CRLF);
  }

  lemma {:induction false} ReadItemsOf(items: seq<Value>, r: Bytes)
    requires forall k :: 0 <= k < |items| ==> WireSafe(items[k])
    ensures ReadItems(EncodeItems(items) + r, |items|) == Read(NormalItems(items), r)
    decreases items, 1
  {
    hide Encode, ReadValue, Normal, WireSafe;
    if items == [] {
      assert [] + r == r;
    } else {
      Regroup(Encode(items[0]), EncodeItems(items[1..]), r);
      ReadOfEncode(items[0], EncodeItems(items[1..]) + r);
      ReadItemsOf(items[1..], r);
    }
  }

  lemma {:induction false} ReadEntriesOf(entries: seq<Entry>, r: Bytes)
    requires forall k :: 0 <= k < |entries| ==> WireSafeEntry(entries[k])
    ensures ReadEntries(EncodeEntries(entries) + r, |entries|) == Read(NormalEntries(entries), r)
    decreases entries, 2
  {
    hide Encode, ReadValue, Normal, WireSafe;
    if entries == [] {
      assert [] + r == r;
    } else {
      var rest := EncodeEntries(entries[1..]) + r;
      Regroup(EncodeEntry(entries[0]), EncodeEntries(entries[1..]), r);
      EntryReads(entries[0], rest);
      ReadEntriesOf(entries[1..], r);
    }
  }

  lemma {:induction false} EntryReads(e: Entry, r: Bytes)
    requires WireSafeEntry(e)
    ensures var a := ReadValue(EncodeEntry(e) + r);
            a.Read? && a.value == Normal(e.key) && ReadValue(a.rest) == Read(Normal(e.val), r)
    decreases e, 1
  {
    hide Encode, ReadValue, Normal, WireSafe;
    Regroup(Encode(e.key), Encode(e.val), r);
    ReadOfEncode(e.key, Encode(e.val) + r);
    ReadOfEncode(e.val, r);
  }

  /**
    Unique decodability in any context: two byte streams that start with encoded frames and are equal
    started with the same frame, up to the spelling of nulls, and went on in the same way.
   */
  lemma {:induction false} UniquelyDecodable(v: Value, r: Bytes, w: Value, q: Bytes)
    requires WireSafe(v) && WireSafe(w) && Encode(v) + r == Encode(w) + q
    ensures Normal(v) == Normal(w) && r == q
  {
    hide Encode, Normal, WireSafe, ReadValue;
    ReadOfEncode(v, r);
    ReadOfEncode(w, q);
  }

  /** Nulls are the only thing normalisation merges. */
  lemma {:induction false} SameBytesIffSameNormal(v: Value, w: Value)
    requires WireSafe(v) && WireSafe(w)
    ensures Encode(v) == Encode(w) <==> Normal(v) == Normal(w)
  {
    hide Encode, Normal, WireSafe, ReadValue;
    EncodeOfNormal(v);
    EncodeOfNormal(w);
    if Encode(v) == Encode(w) {
      UniquelyDecodable(v, [], w, []);
    }
  }

  lemma {:induction false} EncodeOfNormal(v: Value)
    ensures Encode(Normal(v)) == Encode(v)
    decreases v, 0
  {
    hide Line, Blob, Numeral, EncodeItems, EncodeEntries, NormalItems, NormalEntries;
    match v
    case Array(items) => ItemsOfNormal(items);
    case Set(items) => ItemsOfNormal(items);
    case Push(items) => ItemsOfNormal(items);
    case Map(entries) => EntriesOfNormal(entries);
    case Attribute(attrs, value) => EntriesOfNormal(attrs); EncodeOfNormal(value);
    case _ =>
  }

  lemma {:induction false} ItemsOfNormal(items: seq<Value>)
    ensures EncodeItems(NormalItems(items)) == EncodeItems(items)
    decreases items, 1
  {
    hide Encode, Normal;
    if items != [] {
      EncodeOfNormal(items[0]);
      ItemsOfNormal(items[1..]);
      assert NormalItems(items)[1..] == NormalItems(items[1..]);
    }
  }

  lemma {:induction false} EntriesOfNormal(entries: seq<Entry>)
    ensures EncodeEntries(NormalEntries(entries)) == EncodeEntries(entries)
    decreases entries, 2
  {
    hide Encode, Normal;
    if entries != [] {
      EntryOfNormal(entries[0]);
      EntriesOfNormal(entries[1..]);
      assert NormalEntries(entries)[1..] == NormalEntries(entries[1..]);
    }
  }

  lemma {:induction false} EntryOfNormal(e: Entry)
    ensures EncodeEntry(NormalEntry(e)) == EncodeEntry(e)
    decreases e, 1
  {
    hide Encode, Normal;
    EncodeOfNormal(e.key);
    EncodeOfNormal(e.val);
  }

  /**
    The condition on line payloads is needed: a payload that holds a CR LF is written with the same bytes
    as the line before it, so the first frame of a stream would not be determined.
   */
  lemma {:induction false} SplitLineIsAmbiguous(b: Bytes)
    ensures OneLine(b) <==> forall c, q :: Encode(Simple(b)) == Encode(Simple(c)) + q ==> c == b || !OneLine(c)
  {
    if OneLine(b) {
      forall c, q | Encode(Simple(b)) == Encode(Simple(c)) + q ensures c == b || !OneLine(c) {
        if OneLine(c) {
          assert Encode(Simple(b)) + [] == Encode(Simple(b));
          ReadOfEncode(Simple(b), []);
          ReadOfEncode(Simple(c), q);
        }
      }
    } else {
      var k := FirstBreak(b);
      var c, q := b[..k], b[k + 2..] + CRLF;
      assert b == c + CRLF + b[k + 2..];
      assert Encode(Simple(b)) == Encode(Simple(c)) + q;
      assert c != b && OneLine(c);
    }
  }

  /** Where the first CR LF stands. */
  lemma {:induction false} FirstBreak(b: Bytes) returns (k: nat)
    requires !OneLine(b)
    ensures k + 1 < |b| && b[k] == CR && b[k + 1] == LF && OneLine(b[..k])
  {
    k := 0;
    while !(b[k] == CR && b[k + 1] == LF)
      decreases |b| - k
      invariant k + 1 < |b|
      invariant forall j :: 0 <= j < k ==> !(b[j] == CR && b[j + 1] == LF)
    {
      k := k + 1;
    }
  }
}
