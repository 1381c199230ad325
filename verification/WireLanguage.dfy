/** The decoder reads nothing but the spellings of WireForms: which frames there are, and what waits for more. */
module WireLanguage {
  import opened Prelude
  import opened FloatSyntax
  import opened RespValue
  import opened Decoder
  import opened WireForms
  import DecoderLaws

  /** `f` spells `v` in what stands between these positions. */
  ghost predicate Stands(f: Form, b: Bytes, pos: nat, end: nat, v: Value, levels: int, budget: Budget) {
    pos <= end <= |b| && Formed(f, levels, budget) && Meaning(f) == v && Wire(f) == b[pos..end]
  }

  lemma {:induction false} GotHasLine(b: Bytes, pos: nat, depth: nat, budget: Budget)
    requires pos <= |b| && ParseValue(b, pos, depth, budget).Got?
    ensures depth < budget.maxDepth && pos < |b| && Line(b, pos + 1).Got?
    ensures var tag := b[pos];
            IsLineTag(tag) || tag == 0x24 || tag == 0x21 || tag == 0x3D || tag == 0x2A || tag == 0x7E || tag == 0x3E
            || tag == 0x25 || tag == 0x7C
  {
    hide Line, Scalar, Blob, ParseList, ParseMap, ParseAttribute;
  }

  lemma {:induction false} TaggedStands(b: Bytes, pos: nat, tag: char)
    requires pos < |b| && tag < 128 as char && b[pos] == tag as int && Line(b, pos + 1).Got?
    ensures var line, at := Line(b, pos + 1).value, Line(b, pos + 1).end;
            pos < at <= |b| && OneLine(line) && Tagged(tag, line) == b[pos..at]
  {
    hide Line;
    LineStands(b, pos);
  }

  lemma {:induction false} ScalarHasForm(b: Bytes, pos: nat, levels: int, budget: Budget) returns (f: Form)
    requires pos < |b| && Line(b, pos + 1).Got? && IsLineTag(b[pos]) && levels > 0
    requires Scalar(b[pos], Line(b, pos + 1).value, Line(b, pos + 1).end).Got?
    ensures var line, at := Line(b, pos + 1).value, Line(b, pos + 1).end;
            Scalar(b[pos], line, at).end == at && Stands(f, b, pos, at, Scalar(b[pos], line, at).value, levels, budget)
  {
    hide Line, IsFloat, IsNumeral, Integer64, Tagged, IsBigNumber;
    var line, at, tag := Line(b, pos + 1).value, Line(b, pos + 1).end, b[pos];
    var letter := if tag == 0x2B then '+' else if tag == 0x2D then '-' else if tag == 0x3A then ':' else if tag == 0x23 then '#'
                  else if tag == 0x5F then '_' else if tag == 0x2C then ',' else '(';
    TaggedStands(b, pos, letter);
    if tag == 0x2B {
      f := OfSimple(line);
    } else if tag == 0x2D {
      f := OfError(line);
    } else if tag == 0x3A {
      NumeralIff(line, Integer64(line).value);
      f := OfInteger(line, Integer64(line).value);
    } else if tag == 0x23 {
      assert Ascii("t") == [0x74] && Ascii("f") == [0x66];
      f := OfBoolean(line == [0x74]);
    } else if tag == 0x5F {
      f := OfNull;
    } else if tag == 0x2C {
      f := OfDouble(line);
    } else {
      BigNumberIff(line);
      f := OfBigNumber(line);
    }
  }

  lemma {:induction false} BlobHasForm(b: Bytes, pos: nat, levels: int, budget: Budget) returns (f: Form)
    requires pos < |b| && Line(b, pos + 1).Got? && levels > 0 && (b[pos] == 0x24 || b[pos] == 0x21 || b[pos] == 0x3D)
    requires Blob(b, b[pos], Line(b, pos + 1).value, Line(b, pos + 1).end, budget).Got?
    ensures var line, at := Line(b, pos + 1).value, Line(b, pos + 1).end;
            var r := Blob(b, b[pos], line, at, budget);
            Stands(f, b, pos, r.end, r.value, levels, budget)
  {
    hide Line, Chunks, Octets, Length, IsNumeral, Tagged, WireChunks, Contents, ChunksFormed;
    var line, at, tag := Line(b, pos + 1).value, Line(b, pos + 1).end, b[pos];
    var letter := if tag == 0x24 then '$' else if tag == 0x21 then '!' else '=';
    TaggedStands(b, pos, letter);
    if tag == 0x24 && line == [MARK] {
      var chunks, last := ChunksHaveForm(b, at, 0, budget);
      SliceJoins(b, pos, at, Chunks(b, at, 0, budget).end);
      assert Ascii("?") == [MARK];
      f := OfChunks(chunks, last);
    } else {
      LengthIsNumeral(line, budget.maxBulkBytes);
      var n := Length(line, budget.maxBulkBytes).value;
      if n.None? {
        f := NoBlob(letter, line);
      } else {
        var data := Octets(b, at, n.value).value;
        OctetsStand(b, at, n.value);
        SliceJoins(b, pos, at, Octets(b, at, n.value).end);
        if tag == 0x24 {
          f := OfBulk(line, data);
        } else if tag == 0x21 {
          f := OfBulkError(line, data);
        } else {
          f := OfVerbatim(line, data[..3], data[4..]);
          assert data == data[..3] + Ascii(":") + data[4..];
        }
      }
    }
  }

  lemma {:induction false} ChunksHaveForm(b: Bytes, pos: nat, taken: nat, budget: Budget)
      returns (chunks: seq<Chunk>, last: Bytes)
    requires pos <= |b| && Chunks(b, pos, taken, budget).Got? && taken <= budget.maxBulkBytes
    ensures var r := Chunks(b, pos, taken, budget);
            && ChunksFormed(chunks) && IsNumeral(last, 0) && Contents(chunks) == r.value
            && taken + |r.value| <= budget.maxBulkBytes && WireChunks(chunks, last) == b[pos..r.end]
    decreases |b| - pos
  {
    hide Line, Octets, Length, IsNumeral, Tagged;
    TaggedStands(b, pos, ';');
    var count, at := Line(b, pos + 1).value, Line(b, pos + 1).end;
    LengthIsNumeral(count, budget.maxBulkBytes);
    var n := Length(count, budget.maxBulkBytes).value.value;
    if n == 0 {
      chunks, last := [], count;
    } else {
      var next := Octets(b, at, n).end;
      OctetsStand(b, at, n);
      var rest;
      rest, last := ChunksHaveForm(b, next, taken + n, budget);
      chunks := [Chunk(count, Octets(b, at, n).value)] + rest;
      SliceJoins(b, at, next, Chunks(b, next, taken + n, budget).end);
      SliceJoins(b, pos, at, Chunks(b, next, taken + n, budget).end);
      assert chunks[1..] == rest;
    }
  }

  /** Whatever the decoder reads is the meaning of a derivation that stands there. */
  lemma {:induction false} ValueHasForm(b: Bytes, pos: nat, depth: nat, budget: Budget) returns (f: Form)
    requires pos <= |b| && ParseValue(b, pos, depth, budget).Got?
    ensures var r := ParseValue(b, pos, depth, budget);
            depth < budget.maxDepth && Stands(f, b, pos, r.end, r.value, budget.maxDepth - depth, budget)
    decreases |b| - pos, 4
  {
    hide Line, Scalar, Blob, ParseValue, ParseList, ParseMap, ParseAttribute, Stands, IsLineTag;
    GotHasLine(b, pos, depth, budget);
    var line, at, tag := Line(b, pos + 1).value, Line(b, pos + 1).end, b[pos];
    Dispatch(b, pos, line, at, depth, budget);
    if IsLineTag(tag) {
      f := ScalarHasForm(b, pos, budget.maxDepth - depth, budget);
    } else if tag == 0x24 || tag == 0x21 || tag == 0x3D {
      f := BlobHasForm(b, pos, budget.maxDepth - depth, budget);
    } else if tag == 0x2A || tag == 0x7E || tag == 0x3E {
      f := ListHasForm(b, pos, depth, budget);
    } else if tag == 0x25 {
      f := MapHasForm(b, pos, depth, budget);
    } else {
      f := AttributeHasForm(b, pos, depth, budget);
    }
  }

  lemma {:induction false} ListHasForm(b: Bytes, pos: nat, depth: nat, budget: Budget) returns (f: Form)
    requires pos < |b| && Line(b, pos + 1).Got? && depth < budget.maxDepth
    requires b[pos] == 0x2A || b[pos] == 0x7E || b[pos] == 0x3E
    requires ParseList(b, b[pos], Line(b, pos + 1).value, Line(b, pos + 1).end, depth, budget).Got?
    ensures var r := ParseList(b, b[pos], Line(b, pos + 1).value, Line(b, pos + 1).end, depth, budget);
            Stands(f, b, pos, r.end, r.value, budget.maxDepth - depth, budget)
    decreases |b| - pos, 3
  {
    hide Line, Items, StreamItems, Length, IsNumeral, Tagged, WireItems, Meanings, ItemsFormed;
    var line, at, tag := Line(b, pos + 1).value, Line(b, pos + 1).end, b[pos];
    var kind := if tag == 0x2A then AnArray else if tag == 0x7E then ASet else APush;
    TaggedStands(b, pos, TagOf(kind));
    if line == [MARK] {
      var items := StreamHasForms(b, at, 0, depth + 1, budget);
      SliceJoins(b, pos, at, StreamItems(b, at, 0, depth + 1, budget).end);
      assert Ascii("?") == [MARK];
      f := OfStream(kind, items);
    } else {
      LengthIsNumeral(line, budget.maxElements);
      var n := Length(line, budget.maxElements).value;
      if n.None? {
        f := NoAggregate(TagOf(kind), line);
      } else {
        var items := ItemsHaveForms(b, at, n.value, depth + 1, budget);
        SliceJoins(b, pos, at, Items(b, at, n.value, depth + 1, budget).end);
        f := OfItems(kind, line, items);
      }
    }
  }

  lemma {:induction false} MapHasForm(b: Bytes, pos: nat, depth: nat, budget: Budget) returns (f: Form)
    requires pos < |b| && Line(b, pos + 1).Got? && depth < budget.maxDepth && b[pos] == 0x25
    requires ParseMap(b, Line(b, pos + 1).value, Line(b, pos + 1).end, depth, budget).Got?
    ensures var r := ParseMap(b, Line(b, pos + 1).value, Line(b, pos + 1).end, depth, budget);
            Stands(f, b, pos, r.end, r.value, budget.maxDepth - depth, budget)
    decreases |b| - pos, 3
  {
    hide Line, Entries, StreamEntries, Length, IsNumeral, Tagged, WirePairs, PairMeanings, PairsFormed;
    var line, at := Line(b, pos + 1).value, Line(b, pos + 1).end;
    TaggedStands(b, pos, '%');
    if line == [MARK] {
      var entries := PairStreamHasForms(b, at, 0, depth + 1, budget);
      SliceJoins(b, pos, at, StreamEntries(b, at, 0, depth + 1, budget).end);
      assert Ascii("?") == [MARK];
      f := OfEntryStream(entries);
    } else {
      LengthIsNumeral(line, budget.maxElements);
      var n := Length(line, budget.maxElements).value;
      if n.None? {
        f := NoAggregate('%', line);
      } else {
        var entries := PairsHaveForms(b, at, n.value, depth + 1, budget);
        SliceJoins(b, pos, at, Entries(b, at, n.value, depth + 1, budget).end);
        f := OfEntries(line, entries);
      }
    }
  }

  lemma {:induction false} AttributeHasForm(b: Bytes, pos: nat, depth: nat, budget: Budget) returns (f: Form)
    requires pos < |b| && Line(b, pos + 1).Got? && depth < budget.maxDepth && b[pos] == 0x7C
    requires ParseAttribute(b, Line(b, pos + 1).value, Line(b, pos + 1).end, depth, budget).Got?
    ensures var r := ParseAttribute(b, Line(b, pos + 1).value, Line(b, pos + 1).end, depth, budget);
            Stands(f, b, pos, r.end, r.value, budget.maxDepth - depth, budget)
    decreases |b| - pos, 3
  {
    hide Line, Entries, ParseValue, Length, IsNumeral, Tagged, WirePairs, PairMeanings, PairsFormed;
    var line, at := Line(b, pos + 1).value, Line(b, pos + 1).end;
    TaggedStands(b, pos, '|');
    LengthIsNumeral(line, budget.maxElements);
    var n := Length(line, budget.maxElements).value.value;
    var entries := PairsHaveForms(b, at, n, depth + 1, budget);
    var next := Entries(b, at, n, depth + 1, budget).end;
    var value := ValueHasForm(b, next, depth + 1, budget);
    var end := ParseValue(b, next, depth + 1, budget).end;
    SliceJoins(b, at, next, end);
    SliceJoins(b, pos, at, end);
    f := OfAttribute(line, entries, value);
  }

  lemma {:induction false} ItemsHaveForms(b: Bytes, pos: nat, n: nat, depth: nat, budget: Budget) returns (items: seq<Form>)
    requires pos <= |b| && depth <= budget.maxDepth && n <= budget.maxElements && Items(b, pos, n, depth, budget).Got?
    ensures var r := Items(b, pos, n, depth, budget);
            && |items| == n && ItemsFormed(items, budget.maxDepth - depth, budget)
            && Meanings(items) == r.value && WireItems(items) == b[pos..r.end]
    decreases |b| - pos, 5, n
  {
    hide ParseValue, Wire, Meaning, Formed;
    if n == 0 {
      items := [];
    } else {
      var next := ParseValue(b, pos, depth, budget).end;
      var first := ValueHasForm(b, pos, depth, budget);
      var rest := ItemsHaveForms(b, next, n - 1, depth, budget);
      items := [first] + rest;
      assert items[1..] == rest;
      SliceJoins(b, pos, next, Items(b, next, n - 1, depth, budget).end);
    }
  }

  lemma {:induction false} DotStands(b: Bytes, pos: nat)
    requires pos < |b| && b[pos] == 0x2E && Terminator(b, pos).Got?
    ensures b[pos..Terminator(b, pos).end] == Tagged('.', [])
  {
    hide Line;
    TaggedStands(b, pos, '.');
  }

  lemma {:induction false} StreamHasForms(b: Bytes, pos: nat, taken: nat, depth: nat, budget: Budget) returns (items: seq<Form>)
    requires pos <= |b| && depth <= budget.maxDepth && taken <= budget.maxElements
    requires StreamItems(b, pos, taken, depth, budget).Got?
    ensures var r := StreamItems(b, pos, taken, depth, budget);
            && taken + |items| <= budget.maxElements && ItemsFormed(items, budget.maxDepth - depth, budget)
            && Meanings(items) == r.value && WireItems(items) + Tagged('.', []) == b[pos..r.end]
    decreases |b| - pos, 5
  {
    hide ParseValue, Wire, Meaning, Formed, Terminator, Tagged;
    var dot := Tagged('.', []);
    if b[pos] == 0x2E {
      items := [];
      DotStands(b, pos);
      assert [] + dot == dot;
    } else {
      var next := ParseValue(b, pos, depth, budget).end;
      var first := ValueHasForm(b, pos, depth, budget);
      var rest := StreamHasForms(b, next, taken + 1, depth, budget);
      items := [first] + rest;
      assert items[1..] == rest;
      SliceJoins(b, pos, next, StreamItems(b, next, taken + 1, depth, budget).end);
      assert WireItems(items) + dot == Wire(first) + (WireItems(rest) + dot);
    }
  }

  lemma {:induction false} PairHasForm(b: Bytes, pos: nat, depth: nat, budget: Budget) returns (p: Pair)
    requires pos <= |b| && ParsePair(b, pos, depth, budget).Got?
    ensures var r := ParsePair(b, pos, depth, budget);
            && depth < budget.maxDepth && PairFormed(p, budget.maxDepth - depth, budget)
            && PairMeaning(p) == r.value && WirePair(p) == b[pos..r.end]
    decreases |b| - pos, 5
  {
    hide ParseValue, Wire, Meaning, Formed;
    var next := ParseValue(b, pos, depth, budget).end;
    var key := ValueHasForm(b, pos, depth, budget);
    var val := ValueHasForm(b, next, depth, budget);
    SliceJoins(b, pos, next, ParseValue(b, next, depth, budget).end);
    p := Pair(key, val);
  }

  lemma {:induction false} PairsHaveForms(b: Bytes, pos: nat, n: nat, depth: nat, budget: Budget) returns (pairs: seq<Pair>)
    requires pos <= |b| && depth <= budget.maxDepth && n <= budget.maxElements && Entries(b, pos, n, depth, budget).Got?
    ensures var r := Entries(b, pos, n, depth, budget);
            && |pairs| == n && PairsFormed(pairs, budget.maxDepth - depth, budget)
            && PairMeanings(pairs) == r.value && WirePairs(pairs) == b[pos..r.end]
    decreases |b| - pos, 6, n
  {
    hide ParsePair, WirePair, PairMeaning, PairFormed;
    if n == 0 {
      pairs := [];
    } else {
      var next := ParsePair(b, pos, depth, budget).end;
      var first := PairHasForm(b, pos, depth, budget);
      var rest := PairsHaveForms(b, next, n - 1, depth, budget);
      pairs := [first] + rest;
      assert pairs[1..] == rest;
      SliceJoins(b, pos, next, Entries(b, next, n - 1, depth, budget).end);
    }
  }

  lemma {:induction false} PairStreamHasForms(b: Bytes, pos: nat, taken: nat, depth: nat, budget: Budget)
      returns (pairs: seq<Pair>)
    requires pos <= |b| && depth <= budget.maxDepth && taken <= budget.maxElements
    requires StreamEntries(b, pos, taken, depth, budget).Got?
    ensures var r := StreamEntries(b, pos, taken, depth, budget);
            && taken + |pairs| <= budget.maxElements && PairsFormed(pairs, budget.maxDepth - depth, budget)
            && PairMeanings(pairs) == r.value && WirePairs(pairs) + Tagged('.', []) == b[pos..r.end]
    decreases |b| - pos, 6
  {
    hide ParsePair, WirePair, PairMeaning, PairFormed, Terminator, Tagged;
    var dot := Tagged('.', []);
    if b[pos] == 0x2E {
      pairs := [];
      DotStands(b, pos);
      assert [] + dot == dot;
    } else {
      var next := ParsePair(b, pos, depth, budget).end;
      var first := PairHasForm(b, pos, depth, budget);
      var rest := PairStreamHasForms(b, next, taken + 1, depth, budget);
      pairs := [first] + rest;
      assert pairs[1..] == rest;
      SliceJoins(b, pos, next, StreamEntries(b, next, taken + 1, depth, budget).end);
      assert WirePairs(pairs) + dot == WirePair(first) + (WirePairs(rest) + dot);
    }
  }

  // ---------------------------------------------------------------- the decoder's language

  /**
    Exactly what an attempt to decode gives: the value and the length of a derivation within the budget that
    the buffer begins with.
   */
  lemma {:induction false} DecodesExactlyForms(buf: Bytes, v: Value, end: nat, budget: Budget)
    ensures Attempt(buf, budget) == Got(v, end)
       <==> |buf| <= budget.maxFrameBytes
            && exists f :: Formed(f, budget.maxDepth, budget) && Meaning(f) == v && Wire(f) <= buf && |Wire(f)| == end
  {
    hide ParseValue, Formed, Meaning, Wire;
    if Attempt(buf, budget) == Got(v, end) {
      var f := ValueHasForm(buf, 0, 0, budget);
      assert Wire(f) <= buf;
    }
    if |buf| <= budget.maxFrameBytes {
      forall f | Formed(f, budget.maxDepth, budget) && Wire(f) <= buf
        ensures Attempt(buf, budget) == Got(Meaning(f), |Wire(f)|)
      {
        assert Carries(buf, 0, Wire(f));
        FormReads(f, buf, 0, 0, budget);
      }
    }
  }

  /** What has not arrived completely is waited for: a proper beginning of a derivation is neither refused nor read. */
  lemma {:induction false} BeginningsWait(f: Form, n: nat, budget: Budget)
    requires Formed(f, budget.maxDepth, budget) && |Wire(f)| <= budget.maxFrameBytes && n < |Wire(f)|
    ensures Attempt(Wire(f)[..n], budget) == More
  {
    hide ParseValue, Formed, Meaning, Wire;
    var w := Wire(f);
    DecodesExactlyForms(w, Meaning(f), |w|, budget);
    DecoderLaws.AttemptIsStable(w[..n], w[n..], budget);
    assert w[..n] + w[n..] == w;
  }
}
