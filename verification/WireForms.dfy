/**
  Every wire spelling of a RESP value, as a derivation: the three nulls, bulk strings cut into chunks,
  aggregates that end in a dot, numerals with leading zeros. The decoder reads exactly these.
 */
module WireForms {
  import opened Prelude
  import opened Decimal
  import opened FloatSyntax
  import opened RespValue
  import opened Decoder
  import DecoderRoundTrip
  import Resp3

  datatype Chunk = Chunk(count: Bytes, data: Bytes)

  datatype Aggregate = AnArray | ASet | APush

  /** How one value is written; counts are the numerals that stand on the wire. */
  datatype Form =
    | OfSimple(text: Bytes)
    | OfError(text: Bytes)
    | OfInteger(numeral: Bytes, number: I64)
    | OfBoolean(truth: bool)
    | OfNull
    | OfDouble(lexeme: Bytes)
    | OfBigNumber(digits: Bytes)
    | OfBulk(count: Bytes, data: Bytes)
    | OfBulkError(count: Bytes, data: Bytes)
    | OfVerbatim(count: Bytes, format: Bytes, data: Bytes)
    | NoBlob(tag: char, count: Bytes)
    | OfChunks(chunks: seq<Chunk>, last: Bytes)
    | OfItems(kind: Aggregate, count: Bytes, items: seq<Form>)
    | OfStream(kind: Aggregate, items: seq<Form>)
    | OfEntries(count: Bytes, entries: seq<Pair>)
    | OfEntryStream(entries: seq<Pair>)
    | NoAggregate(tag: char, count: Bytes)
    | OfAttribute(count: Bytes, entries: seq<Pair>, value: Form)

  datatype Pair = Pair(key: Form, val: Form)

  // ---------------------------------------------------------------- what stands on the wire

  const EOL: Bytes := [0x0D, 0x0A]

  function Tagged(tag: char, text: Bytes): Bytes {
    [if tag < 128 as char then tag as int else 0] + text + EOL
  }

  function TagOf(kind: Aggregate): char {
    match kind
    case AnArray => '*'
    case ASet => '~'
    case APush => '>'
  }

  function Wire(f: Form): Bytes
    decreases f, 0
  {
    match f
    case OfSimple(text) => Tagged('+', text)
    case OfError(text) => Tagged('-', text)
    case OfInteger(numeral, _) => Tagged(':', numeral)
    case OfBoolean(truth) => Tagged('#', if truth then Ascii("t") else Ascii("f"))
    case OfNull => Tagged('_', [])
    case OfDouble(lexeme) => Tagged(',', lexeme)
    case OfBigNumber(digits) => Tagged('(', digits)
    case OfBulk(count, data) => Tagged('$', count) + (data + EOL)
    case OfBulkError(count, data) => Tagged('!', count) + (data + EOL)
    case OfVerbatim(count, format, data) => Tagged('=', count) + (format + Ascii(":") + data + EOL)
    case NoBlob(tag, count) => Tagged(tag, count)
    case OfChunks(chunks, last) => Tagged('$', Ascii("?")) + WireChunks(chunks, last)
    case OfItems(kind, count, items) => Tagged(TagOf(kind), count) + WireItems(items)
    case OfStream(kind, items) => Tagged(TagOf(kind), Ascii("?")) + (WireItems(items) + Tagged('.', []))
    case OfEntries(count, entries) => Tagged('%', count) + WirePairs(entries)
    case OfEntryStream(entries) => Tagged('%', Ascii("?")) + (WirePairs(entries) + Tagged('.', []))
    case NoAggregate(tag, count) => Tagged(tag, count)
    case OfAttribute(count, entries, value) => Tagged('|', count) + (WirePairs(entries) + Wire(value))
  }

  function WireChunks(chunks: seq<Chunk>, last: Bytes): Bytes {
    if chunks == [] then Tagged(';', last)
    else Tagged(';', chunks[0].count) + (chunks[0].data + EOL + WireChunks(chunks[1..], last))
  }

  function WireItems(items: seq<Form>): Bytes
    decreases items, 1
  {
    if items == [] then [] else Wire(items[0]) + WireItems(items[1..])
  }

  function WirePair(p: Pair): Bytes
    decreases p, 1
  {
    Wire(p.key) + Wire(p.val)
  }

  function WirePairs(pairs: seq<Pair>): Bytes
    decreases pairs, 2
  {
    if pairs == [] then [] else WirePair(pairs[0]) + WirePairs(pairs[1..])
  }

  // ---------------------------------------------------------------- what it means

  function Gathered(kind: Aggregate, values: seq<Value>): Value {
    match kind
    case AnArray => Array(values)
    case ASet => Set(values)
    case APush => Push(values)
  }

  function Meaning(f: Form): Value
    decreases f, 0
  {
    match f
    case OfSimple(text) => Simple(text)
    case OfError(text) => Error(text)
    case OfInteger(_, number) => Integer(number)
    case OfBoolean(truth) => Boolean(truth)
    case OfNull => Null(Resp3Form)
    case OfDouble(lexeme) => Double(lexeme)
    case OfBigNumber(digits) => BigNumber(digits)
    case OfBulk(_, data) => Bulk(data)
    case OfBulkError(_, data) => BulkError(data)
    case OfVerbatim(_, format, data) => Verbatim(format, data)
    case NoBlob(_, _) => Null(BulkForm)
    case OfChunks(chunks, _) => Bulk(Contents(chunks))
    case OfItems(kind, _, items) => Gathered(kind, Meanings(items))
    case OfStream(kind, items) => Gathered(kind, Meanings(items))
    case OfEntries(_, entries) => Map(PairMeanings(entries))
    case OfEntryStream(entries) => Map(PairMeanings(entries))
    case NoAggregate(_, _) => Null(ArrayForm)
    case OfAttribute(_, entries, value) => Attribute(PairMeanings(entries), Meaning(value))
  }

  function Contents(chunks: seq<Chunk>): Bytes {
    if chunks == [] then [] else chunks[0].data + Contents(chunks[1..])
  }

  function Meanings(items: seq<Form>): (vs: seq<Value>)
    ensures |vs| == |items|
    decreases items, 1
  {
    if items == [] then [] else [Meaning(items[0])] + Meanings(items[1..])
  }

  function PairMeaning(p: Pair): Entry
    decreases p, 1
  {
    Entry(Meaning(p.key), Meaning(p.val))
  }

  function PairMeanings(pairs: seq<Pair>): (es: seq<Entry>)
    ensures |es| == |pairs|
    decreases pairs, 2
  {
    if pairs == [] then [] else [PairMeaning(pairs[0])] + PairMeanings(pairs[1..])
  }

  // ---------------------------------------------------------------- which derivations are well formed

  predicate OneLine(s: Bytes) {
    forall k :: 0 <= k < |s| ==> s[k] != 0x0D && s[k] != 0x0A
  }

  /** At most `levels` deep, and within the budget. */
  predicate Formed(f: Form, levels: int, budget: Budget)
    decreases f, 0
  {
    && levels > 0
    && match f
       case OfSimple(text) => OneLine(text)
       case OfError(text) => OneLine(text)
       case OfInteger(numeral, number) => IsNumeral(numeral, number)
       case OfBoolean(_) => true
       case OfNull => true
       case OfDouble(lexeme) => IsFloat(lexeme) && OneLine(lexeme)
       case OfBigNumber(digits) => AllDigits(if Negative(digits) then digits[1..] else digits)
       case OfBulk(count, data) => IsNumeral(count, |data|) && |data| <= budget.maxBulkBytes
       case OfBulkError(count, data) => IsNumeral(count, |data|) && |data| <= budget.maxBulkBytes
       case OfVerbatim(count, format, data) =>
         |format| == 3 && IsNumeral(count, |data| + 4) && |data| + 4 <= budget.maxBulkBytes
       case NoBlob(tag, count) => (tag == '$' || tag == '!' || tag == '=') && IsNumeral(count, -1)
       case OfChunks(chunks, last) => ChunksFormed(chunks) && IsNumeral(last, 0) && |Contents(chunks)| <= budget.maxBulkBytes
       case OfItems(_, count, items) => IsNumeral(count, |items|) && ItemsFormed(items, levels - 1, budget)
       case OfStream(_, items) => ItemsFormed(items, levels - 1, budget)
       case OfEntries(count, entries) => IsNumeral(count, |entries|) && PairsFormed(entries, levels - 1, budget)
       case OfEntryStream(entries) => PairsFormed(entries, levels - 1, budget)
       case NoAggregate(tag, count) => (tag == '*' || tag == '~' || tag == '>' || tag == '%') && IsNumeral(count, -1)
       case OfAttribute(count, entries, value) =>
         IsNumeral(count, |entries|) && PairsFormed(entries, levels - 1, budget) && Formed(value, levels - 1, budget)
  }

  predicate ChunksFormed(chunks: seq<Chunk>) {
    forall k :: 0 <= k < |chunks| ==> chunks[k].data != [] && IsNumeral(chunks[k].count, |chunks[k].data|)
  }

  predicate ItemsFormed(items: seq<Form>, levels: int, budget: Budget)
    decreases items, 1
  {
    |items| <= budget.maxElements && forall k :: 0 <= k < |items| ==> Formed(items[k], levels, budget)
  }

  predicate PairFormed(p: Pair, levels: int, budget: Budget)
    decreases p, 1
  {
    Formed(p.key, levels, budget) && Formed(p.val, levels, budget)
  }

  predicate PairsFormed(pairs: seq<Pair>, levels: int, budget: Budget)
    decreases pairs, 2
  {
    |pairs| <= budget.maxElements && forall k :: 0 <= k < |pairs| ==> PairFormed(pairs[k], levels, budget)
  }

  // ---------------------------------------------------------------- lines and numerals

  lemma {:induction false} NumeralIff(s: Bytes, n: int)
    ensures Integer64(s) == Some(n) <==> IsNumeral(s, n)
  {
    hide DecimalValue;
    var digits := if s != [] && s[0] == 0x2D then s[1..] else s;
    assert IsDigits(digits) <==> AllDigits(digits);
  }

  lemma {:induction false} NumeralLength(s: Bytes, n: int, cap: nat)
    requires IsNumeral(s, n) && n <= cap
    ensures n == -1 ==> Length(s, cap) == Ok(None)
    ensures n >= 0 ==> Length(s, cap) == Ok(Some(n))
    ensures OneLine(s) && s != [MARK]
  {
    hide DecimalValue, Integer64;
    NumeralIff(s, n);
    assert Negative(s) ==> forall k :: 1 <= k < |s| ==> s[k] == s[1..][k - 1];
  }

  lemma {:induction false} LengthIsNumeral(s: Bytes, cap: nat)
    requires Length(s, cap).Ok?
    ensures Length(s, cap).value.None? ==> IsNumeral(s, -1)
    ensures Length(s, cap).value.Some? ==> IsNumeral(s, Length(s, cap).value.value) && Length(s, cap).value.value <= cap
  {
    hide Integer64, IsNumeral;
    NumeralIff(s, Integer64(s).value);
  }

  lemma {:induction false} TaggedReads(b: Bytes, pos: nat, tag: char, text: Bytes)
    requires tag < 128 as char && Carries(b, pos, Tagged(tag, text)) && OneLine(text)
    ensures pos < |b| && b[pos] == tag as int && Line(b, pos + 1) == Got(text, pos + |text| + 3)
    ensures |Tagged(tag, text)| == |text| + 3
  {
    hide Line;
    assert Tagged(tag, text) == Resp3.Line(tag as int, text);
    DecoderRoundTrip.TaggedLineReads(b, pos, tag as int, text);
  }

  /** A line that was read stands there. */
  lemma {:induction false} LineStands(b: Bytes, pos: nat)
    requires pos < |b| && Line(b, pos + 1).Got?
    ensures var line, at := Line(b, pos + 1).value, Line(b, pos + 1).end;
            && OneLine(line) && at <= |b| && b[pos..at] == [b[pos]] + line + EOL
  {
    hide FirstBreak;
    var j := FirstBreak(b, pos + 1);
    assert b[pos..j + 2] == [b[pos]] + b[pos + 1..j] + [b[j], b[j + 1]];
  }

  lemma {:induction false} OctetsStand(b: Bytes, pos: nat, n: nat)
    requires pos <= |b| && Octets(b, pos, n).Got?
    ensures b[pos..Octets(b, pos, n).end] == Octets(b, pos, n).value + EOL
  {
    assert b[pos..pos + n + 2] == b[pos..pos + n] + b[pos + n..pos + n + 2];
  }

  lemma {:induction false} SliceJoins(b: Bytes, i: nat, j: nat, k: nat)
    requires i <= j <= k <= |b|
    ensures b[i..j] + b[j..k] == b[i..k]
  {
  }

  // ---------------------------------------------------------------- what stands there is read

  /** The decoder reads this derivation at `pos` and stops behind it. */
  ghost predicate IsRead(f: Form, b: Bytes, pos: nat, depth: nat, budget: Budget) {
    pos <= |b| && ParseValue(b, pos, depth, budget) == Got(Meaning(f), pos + |Wire(f)|)
  }

  /** What the decoder does behind the first line. */
  lemma {:induction false} Dispatch(b: Bytes, pos: nat, line: Bytes, at: nat, depth: nat, budget: Budget)
    requires depth < budget.maxDepth && pos < |b| && at <= |b| && Line(b, pos + 1) == Got(line, at)
    ensures var r, tag := ParseValue(b, pos, depth, budget), b[pos];
            && (IsLineTag(tag) ==> r == Scalar(tag, line, at))
            && (tag == 0x24 || tag == 0x21 || tag == 0x3D ==> r == Blob(b, tag, line, at, budget))
            && (tag == 0x2A || tag == 0x7E || tag == 0x3E ==> r == ParseList(b, tag, line, at, depth, budget))
            && (tag == 0x25 ==> r == ParseMap(b, line, at, depth, budget))
            && (tag == 0x7C ==> r == ParseAttribute(b, line, at, depth, budget))
  {
    hide Line, Scalar, Blob, ParseList, ParseMap, ParseAttribute;
  }

  lemma {:induction false} HasLevels(f: Form, levels: int, budget: Budget)
    requires Formed(f, levels, budget)
    ensures levels > 0
  {
  }

  predicate OnOneLine(f: Form) {
    f.OfSimple? || f.OfError? || f.OfInteger? || f.OfBoolean? || f.OfNull? || f.OfDouble? || f.OfBigNumber?
  }

  lemma {:induction false} TextFormReads(f: Form, b: Bytes, pos: nat, depth: nat, budget: Budget)
    requires depth <= budget.maxDepth && Formed(f, budget.maxDepth - depth, budget) && Carries(b, pos, Wire(f))
    requires f.OfSimple? || f.OfError? || f.OfNull? || f.OfDouble?
    ensures IsRead(f, b, pos, depth, budget)
  {
    hide Line, ParseValue, IsFloat, Integer64, IsNumeral, Tagged;
    var tag := if f.OfSimple? then '+' else if f.OfError? then '-' else if f.OfNull? then '_' else ',';
    var text := if f.OfNull? then [] else if f.OfDouble? then f.lexeme else f.text;
    assert Wire(f) == Tagged(tag, text);
    TaggedReads(b, pos, tag, text);
    Dispatch(b, pos, text, pos + |text| + 3, depth, budget);
  }

  lemma {:induction false} LineFormReads(f: Form, b: Bytes, pos: nat, depth: nat, budget: Budget)
    requires depth <= budget.maxDepth && Formed(f, budget.maxDepth - depth, budget) && OnOneLine(f) && Carries(b, pos, Wire(f))
    ensures IsRead(f, b, pos, depth, budget)
  {
    hide Line, ParseValue, IsFloat, Integer64, IsNumeral, Tagged, IsRead;
    match f
    case OfInteger(numeral, number) =>
      NumeralIff(numeral, number);
      NumeralIsOneLine(numeral, number);
      TaggedReads(b, pos, ':', numeral);
      Dispatch(b, pos, numeral, pos + |numeral| + 3, depth, budget);
      ReadAs(f, b, pos, depth, budget);
    case OfBoolean(truth) =>
      var letter := if truth then Ascii("t") else Ascii("f");
      assert letter == [if truth then 0x74 else 0x66];
      TaggedReads(b, pos, '#', letter);
      Dispatch(b, pos, letter, pos + 4, depth, budget);
      ReadAs(f, b, pos, depth, budget);
    case OfBigNumber(digits) =>
      BigNumberIff(digits);
      TaggedReads(b, pos, '(', digits);
      Dispatch(b, pos, digits, pos + |digits| + 3, depth, budget);
      ReadAs(f, b, pos, depth, budget);
    case _ => TextFormReads(f, b, pos, depth, budget);
  }

  lemma {:induction false} ReadAs(f: Form, b: Bytes, pos: nat, depth: nat, budget: Budget)
    requires pos <= |b| && ParseValue(b, pos, depth, budget) == Got(Meaning(f), pos + |Wire(f)|)
    ensures IsRead(f, b, pos, depth, budget)
  {
  }

  lemma {:induction false} NumeralIsOneLine(s: Bytes, n: int)
    requires IsNumeral(s, n)
    ensures OneLine(s) && s != [MARK]
  {
    hide DecimalValue;
    assert Negative(s) ==> forall k :: 1 <= k < |s| ==> s[k] == s[1..][k - 1];
  }

  lemma {:induction false} BigNumberIff(s: Bytes)
    ensures IsBigNumber(s) <==> AllDigits(if Negative(s) then s[1..] else s)
    ensures IsBigNumber(s) ==> OneLine(s)
  {
    var digits := if s != [] && s[0] == 0x2D then s[1..] else s;
    assert IsDigits(digits) <==> AllDigits(digits);
    assert Negative(s) ==> forall k :: 1 <= k < |s| ==> s[k] == s[1..][k - 1];
  }

  /** A count line and what follows it. */
  lemma {:induction false} CountReads(b: Bytes, pos: nat, tag: char, count: Bytes, n: int, body: Bytes, cap: nat)
    requires tag < 128 as char && IsNumeral(count, n) && n <= cap && Carries(b, pos, Tagged(tag, count) + body)
    ensures pos < |b| && b[pos] == tag as int && Line(b, pos + 1) == Got(count, pos + |count| + 3)
    ensures count != [MARK] && |Tagged(tag, count)| == |count| + 3 && Carries(b, pos + |count| + 3, body)
    ensures Length(count, cap) == if n == -1 then Ok(None) else if n >= 0 then Ok(Some(n)) else Length(count, cap)
  {
    hide Line, Length, IsNumeral;
    NumeralIsOneLine(count, n);
    NumeralLength(count, n, cap);
    CarriesParts(b, pos, Tagged(tag, count), body);
    TaggedReads(b, pos, tag, count);
  }

  lemma {:induction false} MarkReads(b: Bytes, pos: nat, tag: char, body: Bytes)
    requires tag < 128 as char && Carries(b, pos, Tagged(tag, Ascii("?")) + body)
    ensures pos < |b| && b[pos] == tag as int && Line(b, pos + 1) == Got([MARK], pos + 4)
    ensures |Tagged(tag, Ascii("?"))| == 4 && Carries(b, pos + 4, body)
  {
    hide Line;
    assert Ascii("?") == [MARK];
    CarriesParts(b, pos, Tagged(tag, Ascii("?")), body);
    TaggedReads(b, pos, tag, Ascii("?"));
  }

  lemma {:induction false} OctetsAreRead(b: Bytes, pos: nat, data: Bytes)
    requires Carries(b, pos, data + EOL)
    ensures pos <= |b| && Octets(b, pos, |data|) == Got(data, pos + |data| + 2)
  {
    CarriesParts(b, pos, data, EOL);
  }

  lemma {:induction false} BlobFormReads(f: Form, b: Bytes, pos: nat, depth: nat, budget: Budget)
    requires depth <= budget.maxDepth && Formed(f, budget.maxDepth - depth, budget) && Carries(b, pos, Wire(f))
    requires f.OfBulk? || f.OfBulkError? || f.OfVerbatim?
    ensures IsRead(f, b, pos, depth, budget)
  {
    hide Line, Chunks, ParseValue, Length, Octets, IsNumeral, Tagged;
    HasLevels(f, budget.maxDepth - depth, budget);
    var tag := if f.OfBulk? then '$' else if f.OfBulkError? then '!' else '=';
    var data := if f.OfVerbatim? then f.format + Ascii(":") + f.data else f.data;
    assert Ascii(":") == [0x3A];
    assert Wire(f) == Tagged(tag, f.count) + (data + EOL);
    CountReads(b, pos, tag, f.count, |data|, data + EOL, budget.maxBulkBytes);
    OctetsAreRead(b, pos + |f.count| + 3, data);
    Dispatch(b, pos, f.count, pos + |f.count| + 3, depth, budget);
    assert f.OfVerbatim? ==> data[..3] == f.format && data[4..] == f.data && data[3] == 0x3A;
  }

  lemma {:induction false} NoneReads(f: Form, b: Bytes, pos: nat, depth: nat, budget: Budget)
    requires depth <= budget.maxDepth && Formed(f, budget.maxDepth - depth, budget) && Carries(b, pos, Wire(f))
    requires f.NoBlob? || f.NoAggregate?
    ensures IsRead(f, b, pos, depth, budget)
  {
    hide Line, ParseValue, Chunks, Length, Items, Entries, StreamItems, StreamEntries, IsNumeral, Tagged;
    HasLevels(f, budget.maxDepth - depth, budget);
    assert Tagged(f.tag, f.count) + [] == Tagged(f.tag, f.count);
    CountReads(b, pos, f.tag, f.count, -1, [], budget.maxBulkBytes);
    CountReads(b, pos, f.tag, f.count, -1, [], budget.maxElements);
    Dispatch(b, pos, f.count, pos + |f.count| + 3, depth, budget);
  }

  lemma {:induction false} OneChunkMore(
      b: Bytes, pos: nat, taken: nat, count: Bytes, at: nat, data: Bytes, next: nat, budget: Budget)
    requires pos < |b| && b[pos] == 0x3B && at <= |b| && next <= |b| && Line(b, pos + 1) == Got(count, at)
    requires data != [] && Length(count, budget.maxBulkBytes) == Ok(Some(|data|)) && Octets(b, at, |data|) == Got(data, next)
    requires pos < next && taken + |data| <= budget.maxBulkBytes && Chunks(b, next, taken + |data|, budget).Got?
    ensures var rest := Chunks(b, next, taken + |data|, budget);
            Chunks(b, pos, taken, budget) == Got(data + rest.value, rest.end)
  {
    hide Line, Length, Octets;
  }

  lemma {:induction false} LastChunk(b: Bytes, pos: nat, taken: nat, count: Bytes, at: nat, budget: Budget)
    requires pos < |b| && b[pos] == 0x3B && at <= |b| && Line(b, pos + 1) == Got(count, at)
    requires Length(count, budget.maxBulkBytes) == Ok(Some(0))
    ensures Chunks(b, pos, taken, budget) == Got([], at)
  {
    hide Line, Length, Octets;
  }

  lemma {:induction false} ChunksRead(chunks: seq<Chunk>, last: Bytes, b: Bytes, pos: nat, taken: nat, budget: Budget)
    requires ChunksFormed(chunks) && IsNumeral(last, 0) && taken + |Contents(chunks)| <= budget.maxBulkBytes
    requires Carries(b, pos, WireChunks(chunks, last))
    ensures pos <= |b| && Chunks(b, pos, taken, budget) == Got(Contents(chunks), pos + |WireChunks(chunks, last)|)
    decreases |chunks|
  {
    hide Chunks, Line, Length, Octets, IsNumeral, Tagged;
    if chunks == [] {
      assert Tagged(';', last) + [] == Tagged(';', last);
      CountReads(b, pos, ';', last, 0, [], budget.maxBulkBytes);
      LastChunk(b, pos, taken, last, pos + |last| + 3, budget);
    } else {
      var c, rest := chunks[0], WireChunks(chunks[1..], last);
      var at := pos + |c.count| + 3;
      assert c.data + EOL + rest == (c.data + EOL) + rest;
      CountReads(b, pos, ';', c.count, |c.data|, c.data + EOL + rest, budget.maxBulkBytes);
      CarriesParts(b, at, c.data + EOL, rest);
      OctetsAreRead(b, at, c.data);
      ChunksRead(chunks[1..], last, b, at + |c.data| + 2, taken + |c.data|, budget);
      OneChunkMore(b, pos, taken, c.count, at, c.data, at + |c.data| + 2, budget);
    }
  }

  lemma {:induction false} ChunkedReads(f: Form, b: Bytes, pos: nat, depth: nat, budget: Budget)
    requires depth <= budget.maxDepth && Formed(f, budget.maxDepth - depth, budget) && Carries(b, pos, Wire(f)) && f.OfChunks?
    ensures IsRead(f, b, pos, depth, budget)
  {
    hide Line, Chunks, ParseValue, Length, Octets, IsNumeral, Tagged;
    HasLevels(f, budget.maxDepth - depth, budget);
    MarkReads(b, pos, '$', WireChunks(f.chunks, f.last));
    ChunksRead(f.chunks, f.last, b, pos + 4, 0, budget);
    Dispatch(b, pos, [MARK], pos + 4, depth, budget);
  }

  /** No value begins with the dot that ends a stream. */
  lemma {:induction false} FirstIsNoDot(f: Form, levels: int, budget: Budget)
    requires Formed(f, levels, budget)
    ensures Wire(f) != [] && Wire(f)[0] != '.' as int
  {
    hide IsNumeral, ItemsFormed, PairsFormed, IsFloat, WireItems, WirePairs, WireChunks;
  }

  /** A derivation is read wherever it stands. */
  lemma {:induction false} FormReads(f: Form, b: Bytes, pos: nat, depth: nat, budget: Budget)
    requires depth <= budget.maxDepth && Formed(f, budget.maxDepth - depth, budget) && Carries(b, pos, Wire(f))
    ensures IsRead(f, b, pos, depth, budget)
    decreases f, 4
  {
    if OnOneLine(f) {
      LineFormReads(f, b, pos, depth, budget);
    } else if f.OfBulk? || f.OfBulkError? || f.OfVerbatim? {
      BlobFormReads(f, b, pos, depth, budget);
    } else if f.NoBlob? || f.NoAggregate? {
      NoneReads(f, b, pos, depth, budget);
    } else if f.OfChunks? {
      ChunkedReads(f, b, pos, depth, budget);
    } else if f.OfItems? || f.OfStream? {
      ListFormReads(f, b, pos, depth, budget);
    } else if f.OfEntries? || f.OfEntryStream? {
      MapFormReads(f, b, pos, depth, budget);
    } else {
      AttributeFormReads(f, b, pos, depth, budget);
    }
  }

  lemma {:induction false} ListFormReads(f: Form, b: Bytes, pos: nat, depth: nat, budget: Budget)
    requires depth <= budget.maxDepth && Formed(f, budget.maxDepth - depth, budget) && Carries(b, pos, Wire(f))
    requires f.OfItems? || f.OfStream?
    ensures IsRead(f, b, pos, depth, budget)
    decreases f, 3
  {
    hide Line, ParseValue, Length, Items, StreamItems, IsNumeral, Tagged, WireItems, Meanings;
    HasLevels(f, budget.maxDepth - depth, budget);
    var tag := TagOf(f.kind);
    if f.OfItems? {
      CountReads(b, pos, tag, f.count, |f.items|, WireItems(f.items), budget.maxElements);
      ItemsAreRead(f.items, b, pos + |f.count| + 3, depth + 1, budget);
      Dispatch(b, pos, f.count, pos + |f.count| + 3, depth, budget);
    } else {
      MarkReads(b, pos, tag, WireItems(f.items) + Tagged('.', []));
      StreamIsRead(f.items, b, pos + 4, 0, depth + 1, budget);
      Dispatch(b, pos, [MARK], pos + 4, depth, budget);
    }
  }

  lemma {:induction false} MapFormReads(f: Form, b: Bytes, pos: nat, depth: nat, budget: Budget)
    requires depth <= budget.maxDepth && Formed(f, budget.maxDepth - depth, budget) && Carries(b, pos, Wire(f))
    requires f.OfEntries? || f.OfEntryStream?
    ensures IsRead(f, b, pos, depth, budget)
    decreases f, 3
  {
    hide Line, ParseValue, Length, Entries, StreamEntries, IsNumeral, Tagged, WirePairs, PairMeanings;
    HasLevels(f, budget.maxDepth - depth, budget);
    if f.OfEntries? {
      CountReads(b, pos, '%', f.count, |f.entries|, WirePairs(f.entries), budget.maxElements);
      PairsAreRead(f.entries, b, pos + |f.count| + 3, depth + 1, budget);
      Dispatch(b, pos, f.count, pos + |f.count| + 3, depth, budget);
    } else {
      MarkReads(b, pos, '%', WirePairs(f.entries) + Tagged('.', []));
      PairStreamIsRead(f.entries, b, pos + 4, 0, depth + 1, budget);
      Dispatch(b, pos, [MARK], pos + 4, depth, budget);
    }
  }

  lemma {:induction false} AttributeFormReads(f: Form, b: Bytes, pos: nat, depth: nat, budget: Budget)
    requires depth <= budget.maxDepth && Formed(f, budget.maxDepth - depth, budget) && Carries(b, pos, Wire(f)) && f.OfAttribute?
    ensures IsRead(f, b, pos, depth, budget)
    decreases f, 3
  {
    hide Line, ParseValue, Length, Entries, IsNumeral, Tagged, WirePairs, PairMeanings;
    HasLevels(f, budget.maxDepth - depth, budget);
    CountReads(b, pos, '|', f.count, |f.entries|, WirePairs(f.entries) + Wire(f.value), budget.maxElements);
    var at := pos + |f.count| + 3;
    CarriesParts(b, at, WirePairs(f.entries), Wire(f.value));
    PairsAreRead(f.entries, b, at, depth + 1, budget);
    FormReads(f.value, b, at + |WirePairs(f.entries)|, depth + 1, budget);
    Dispatch(b, pos, f.count, at, depth, budget);
  }

  lemma {:induction false} ItemsAreRead(items: seq<Form>, b: Bytes, pos: nat, depth: nat, budget: Budget)
    requires depth <= budget.maxDepth && ItemsFormed(items, budget.maxDepth - depth, budget) && Carries(b, pos, WireItems(items))
    ensures pos <= |b| && Items(b, pos, |items|, depth, budget) == Got(Meanings(items), pos + |WireItems(items)|)
    decreases items, 1
  {
    hide ParseValue, Wire, Meaning, Formed;
    if items != [] {
      CarriesParts(b, pos, Wire(items[0]), WireItems(items[1..]));
      FormReads(items[0], b, pos, depth, budget);
      ItemsAreRead(items[1..], b, pos + |Wire(items[0])|, depth, budget);
    }
  }

  lemma {:induction false} DotReads(b: Bytes, pos: nat)
    requires Carries(b, pos, Tagged('.', []))
    ensures pos < |b| && b[pos] == 0x2E && Terminator(b, pos) == Got((), pos + 3) && |Tagged('.', [])| == 3
  {
    hide Line;
    TaggedReads(b, pos, '.', []);
  }

  lemma {:induction false} StreamIsRead(items: seq<Form>, b: Bytes, pos: nat, taken: nat, depth: nat, budget: Budget)
    requires depth <= budget.maxDepth && taken + |items| <= budget.maxElements
    requires ItemsFormed(items, budget.maxDepth - depth, budget) && Carries(b, pos, WireItems(items) + Tagged('.', []))
    ensures pos <= |b|
    ensures StreamItems(b, pos, taken, depth, budget) == Got(Meanings(items), pos + |WireItems(items) + Tagged('.', [])|)
    decreases items, 2
  {
    hide ParseValue, Wire, Meaning, Formed, Terminator, Tagged;
    var dot := Tagged('.', []);
    if items == [] {
      assert [] + dot == dot;
      DotReads(b, pos);
    } else {
      var first, rest := Wire(items[0]), WireItems(items[1..]) + dot;
      assert WireItems(items) + dot == first + rest;
      CarriesParts(b, pos, first, rest);
      FirstIsNoDot(items[0], budget.maxDepth - depth, budget);
      CarriesAt(b, pos, first, 0);
      FormReads(items[0], b, pos, depth, budget);
      StreamIsRead(items[1..], b, pos + |first|, taken + 1, depth, budget);
    }
  }

  lemma {:induction false} PairIsRead(p: Pair, b: Bytes, pos: nat, depth: nat, budget: Budget)
    requires depth <= budget.maxDepth && PairFormed(p, budget.maxDepth - depth, budget) && Carries(b, pos, WirePair(p))
    ensures pos <= |b| && ParsePair(b, pos, depth, budget) == Got(PairMeaning(p), pos + |WirePair(p)|)
    decreases p, 1
  {
    hide ParseValue, Wire, Meaning, Formed;
    CarriesParts(b, pos, Wire(p.key), Wire(p.val));
    FormReads(p.key, b, pos, depth, budget);
    FormReads(p.val, b, pos + |Wire(p.key)|, depth, budget);
  }

  lemma {:induction false} PairsAreRead(pairs: seq<Pair>, b: Bytes, pos: nat, depth: nat, budget: Budget)
    requires depth <= budget.maxDepth && PairsFormed(pairs, budget.maxDepth - depth, budget) && Carries(b, pos, WirePairs(pairs))
    ensures pos <= |b| && Entries(b, pos, |pairs|, depth, budget) == Got(PairMeanings(pairs), pos + |WirePairs(pairs)|)
    decreases pairs, 2
  {
    hide ParsePair, WirePair, PairMeaning, PairFormed;
    if pairs != [] {
      CarriesParts(b, pos, WirePair(pairs[0]), WirePairs(pairs[1..]));
      PairIsRead(pairs[0], b, pos, depth, budget);
      PairsAreRead(pairs[1..], b, pos + |WirePair(pairs[0])|, depth, budget);
    }
  }

  lemma {:induction false} PairStreamIsRead(pairs: seq<Pair>, b: Bytes, pos: nat, taken: nat, depth: nat, budget: Budget)
    requires depth <= budget.maxDepth && taken + |pairs| <= budget.maxElements
    requires PairsFormed(pairs, budget.maxDepth - depth, budget) && Carries(b, pos, WirePairs(pairs) + Tagged('.', []))
    ensures pos <= |b|
    ensures StreamEntries(b, pos, taken, depth, budget) == Got(PairMeanings(pairs), pos + |WirePairs(pairs) + Tagged('.', [])|)
    decreases pairs, 3
  {
    hide ParsePair, WirePair, PairMeaning, PairFormed, Terminator, Tagged;
    var dot := Tagged('.', []);
    if pairs == [] {
      assert [] + dot == dot;
      DotReads(b, pos);
    } else {
      var first, rest := WirePair(pairs[0]), WirePairs(pairs[1..]) + dot;
      assert WirePairs(pairs) + dot == first + rest;
      CarriesParts(b, pos, first, rest);
      PairStart(pairs[0], budget.maxDepth - depth, budget);
      CarriesAt(b, pos, first, 0);
      PairIsRead(pairs[0], b, pos, depth, budget);
      PairStreamIsRead(pairs[1..], b, pos + |first|, taken + 1, depth, budget);
    }
  }

  lemma {:induction false} PairStart(p: Pair, levels: int, budget: Budget)
    requires PairFormed(p, levels, budget)
    ensures WirePair(p) != [] && WirePair(p)[0] != '.' as int
  {
    hide Wire, Formed;
    FirstIsNoDot(p.key, levels, budget);
  }
}
