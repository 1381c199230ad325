/** The editor's view of a line: spans, the active token, and why replacing that token is local. */
module Analyser {
  import opened Prelude
  import opened LineSyntax

  datatype Analysis = Analysis(spans: seq<Span>, active: Option<nat>, quoteMode: Mode, incomplete: bool, atNewToken: bool)

  predicate Touches(span: Span, cursor: nat) {
    span.start <= cursor <= span.end
  }

  /** The last span the cursor is in or next to. */
  function LastTouched(spans: seq<Span>, cursor: nat): (r: Option<nat>)
    ensures r.Some? ==> r.value < |spans| && Touches(spans[r.value], cursor)
    ensures r.Some? ==> forall k :: r.value < k < |spans| ==> !Touches(spans[k], cursor)
    ensures r.None? ==> forall k :: 0 <= k < |spans| ==> !Touches(spans[k], cursor)
  {
    if spans == [] then None
    else if Touches(spans[|spans| - 1], cursor) then Some(|spans| - 1)
    else LastTouched(spans[..|spans| - 1], cursor)
  }

  function Analysed(line: Bytes, cursor: nat): Analysis {
    var c := if cursor < |line| then cursor else |line|;
    var spans := Spans(line, 0);
    var touched := LastTouched(spans, c);
    var atNew := spans == [] || c > spans[|spans| - 1].end;
    Analysis(spans, if atNew then None else touched,
             if touched.Some? then spans[touched.value].mode else Plain, !AllClosed(spans), atNew)
  }

  /** The index of the span that a completion replaces. */
  function Replaceable(a: Analysis): Option<nat> {
    if a.atNewToken then None else a.active
  }

  // ---------------------------------------------------------------- the loops

  lemma {:induction false} BehindBehind(a: Bytes, n: nat, b: Bytes, m: nat, rest: Scan)
    ensures Behind(a, n, Behind(b, m, rest)) == Behind(a + b, n + m, rest)
  {
    assert a + (b + rest.bytes) == a + b + rest.bytes;
  }

  lemma {:induction false} BehindNothing(a: Bytes, n: nat, rest: Scan, mode: Mode)
    ensures Behind([], 0, rest) == rest
    ensures Behind(a, n, Scan([], 0, mode)) == Scan(a, n, mode)
    ensures a + [] == a
  {
    assert [] + rest.bytes == rest.bytes;
  }

  /** The arms of the loop of `analyse` inside double quotes: what one round reads, and what it leaves. */
  method ReadDouble(s: Bytes) returns (bytes: Bytes, n: nat, mode: Mode)
    requires s != []
    ensures 0 < n <= |s| && Token(s, Double) == Behind(bytes, n, Token(s[n..], mode)) && !mode.Single?
  {
    hide Token, Behind;
    DoubleOnce(s);
    if s[0] == SLASH {
      if 3 < |s| && s[1] == 0x78 && IsHexDigit(s[2]) && IsHexDigit(s[3]) {
        return [HexByte(s[2], s[3])], 4, Double;
      }
      if 1 < |s| {
        return [Unescape(s[1])], 2, Double;
      }
      return [], 1, Double;
    }
    if s[0] == QUOTE {
      return [], 1, Plain;
    }
    return [s[0]], 1, Double;
  }

  /** The same inside single quotes. */
  method ReadSingle(s: Bytes) returns (bytes: Bytes, n: nat, mode: Mode)
    requires s != []
    ensures 0 < n <= |s| && Token(s, Single) == Behind(bytes, n, Token(s[n..], mode)) && !mode.Double?
  {
    hide Token, Behind;
    SingleOnce(s);
    if s[0] == SLASH && 1 < |s| && s[1] == TICK {
      return [TICK], 2, Single;
    }
    if s[0] == TICK {
      return [], 1, Plain;
    }
    return [s[0]], 1, Single;
  }

  /** The inner loop of `analyse`. */
  method ReadToken(line: Bytes, start: nat) returns (i: nat, bytes: Bytes, mode: Mode, complete: bool)
    requires start < |line|
    ensures start <= i <= |line| && Token(line[start..], Plain) == Scan(bytes, i - start, mode)
    ensures complete == mode.Plain?
  {
    hide Token, Behind, IsSpace;
    i, bytes, mode := start, [], Plain;
    ghost var whole := Token(line[start..], Plain);
    BehindNothing([], 0, whole, Plain);
    while i < |line|
      invariant start <= i <= |line|
      invariant whole == Behind(bytes, i - start, Token(line[i..], mode))
    {
      var c, was := line[i], mode;
      var read, n := [c], 1;
      if mode.Plain? {
        PlainOnce(line[i..]);
        if IsSpace(c) {
          BehindNothing(bytes, i - start, whole, Plain);
          return i, bytes, Plain, true;
        }
        if c == QUOTE || c == TICK {
          read, mode := [], if c == QUOTE then Double else Single;
        }
      } else if mode.Double? {
        read, n, mode := ReadDouble(line[i..]);
      } else {
        read, n, mode := ReadSingle(line[i..]);
      }
      assert line[i..][n..] == line[i + n..];
      BehindBehind(bytes, i - start, read, n, Token(line[i + n..], mode));
      bytes, i := bytes + read, i + n;
      if !was.Plain? && mode.Plain? && (i == |line| || IsSpace(line[i])) {
        TokenEnds(Plain);
        if i < |line| {
          PlainOnce(line[i..]);
        }
        BehindNothing(bytes, i - start, whole, Plain);
        return i, bytes, Plain, true;
      }
    }
    TokenEnds(mode);
    BehindNothing(bytes, i - start, whole, mode);
    complete := mode.Plain?;
  }

  /** The scanner's definition, unfolded once. */
  lemma {:induction false} TokenEnds(mode: Mode)
    ensures Token([], mode) == Scan([], 0, mode)
  {
  }

  lemma {:induction false} PlainOnce(s: Bytes)
    requires s != []
    ensures Token(s, Plain) == (
      if IsSpace(s[0]) then Scan([], 0, Plain)
      else if s[0] == QUOTE then Behind([], 1, Token(s[1..], Double))
      else if s[0] == TICK then Behind([], 1, Token(s[1..], Single))
      else Behind([s[0]], 1, Token(s[1..], Plain)))
  {
  }

  lemma {:induction false} DoubleOnce(s: Bytes)
    requires s != []
    ensures Token(s, Double) == (
      if IsHexEscape(s) then Behind([HexByte(s[2], s[3])], 4, Token(s[4..], Double))
      else if s[0] == SLASH && |s| > 1 then Behind([Unescape(s[1])], 2, Token(s[2..], Double))
      else if s[0] == SLASH then Behind([], 1, Token(s[1..], Double))
      else if s[0] == QUOTE then Behind([], 1, Token(s[1..], Plain))
      else Behind([s[0]], 1, Token(s[1..], Double)))
  {
  }

  lemma {:induction false} SingleOnce(s: Bytes)
    requires s != []
    ensures Token(s, Single) == (
      if s[0] == SLASH && |s| > 1 && s[1] == TICK then Behind([TICK], 2, Token(s[2..], Single))
      else if s[0] == TICK then Behind([], 1, Token(s[1..], Plain))
      else Behind([s[0]], 1, Token(s[1..], Single)))
  {
  }

  /** The outer loop of `analyse`. */
  method FindSpans(line: Bytes, cursor: nat) returns (spans: seq<Span>, quoteAtCursor: Mode, openQuote: bool)
    ensures spans == Spans(line, 0) && quoteAtCursor == TouchedMode(spans, cursor) && openQuote == !AllClosed(spans)
  {
    hide Token, Spans, Blank, TouchedMode, AllClosed;
    var i: nat := 0;
    spans, quoteAtCursor, openQuote := [], Plain, false;
    NothingTouched(cursor);
    assert line[0..] == line;
    while i < |line|
      invariant i <= |line| && spans + Spans(line[i..], i) == Spans(line, 0)
      invariant openQuote == !AllClosed(spans)
      invariant quoteAtCursor == TouchedMode(spans, cursor)
    {
      SpansOnce(line[i..], i);
      var start := SkipBlank(line, i);
      assert line[i..][start - i..] == line[start..];
      if start >= |line| {
        assert spans + [] == spans;
        i := |line|;
        SpansOnce(line[i..], i);
        break;
      }
      var end, bytes, mode, complete := ReadToken(line, start);
      var span := Span(start, end, bytes, mode);
      assert line[i..][end - i..] == line[end..];
      assert spans + ([span] + Spans(line[end..], end)) == spans + [span] + Spans(line[end..], end);
      TouchedMore(spans, span, cursor);
      if cursor >= start && cursor <= end {
        quoteAtCursor := mode;
      }
      if !complete {
        openQuote := true;
      }
      i := end;
      spans := spans + [span];
    }
    SpansOnce(line[|line|..], |line|);
    assert spans + [] == spans;
  }

  /** `analyse`: every input is some editing state. */
  method Analyse(line: Bytes, at: nat) returns (a: Analysis)
    ensures a == Analysed(line, at)
  {
    hide Spans, AllClosed;
    var cursor := if at < |line| then at else |line|;
    var spans, quoteAtCursor, openQuote := FindSpans(line, cursor);
    var active: Option<nat> := None;
    for idx := 0 to |spans|
      invariant active == LastTouched(spans[..idx], cursor)
    {
      assert spans[..idx + 1][..idx] == spans[..idx];
      if cursor >= spans[idx].start && cursor <= spans[idx].end {
        active := Some(idx);
      }
    }
    assert spans[..|spans|] == spans;
    var atNew := |spans| == 0 || cursor > spans[|spans| - 1].end;
    if atNew {
      active := None;
    }
    a := Analysis(spans, active, quoteAtCursor, openQuote, atNew);
  }

  lemma {:induction false} NothingTouched(cursor: nat)
    ensures TouchedMode([], cursor) == Plain && AllClosed([])
  {
  }

  function TouchedMode(spans: seq<Span>, cursor: nat): Mode {
    var t := LastTouched(spans, cursor);
    if t.Some? then spans[t.value].mode else Plain
  }

  lemma {:induction false} TouchedMore(spans: seq<Span>, last: Span, cursor: nat)
    ensures TouchedMode(spans + [last], cursor)
         == if Touches(last, cursor) then last.mode else TouchedMode(spans, cursor)
    ensures AllClosed(spans + [last]) <==> AllClosed(spans) && last.mode.Plain?
  {
    var all := spans + [last];
    assert all[..|all| - 1] == spans;
    assert forall k :: 0 <= k < |spans| ==> all[k] == spans[k];
    assert all[|spans|] == last;
  }

  // ---------------------------------------------------------------- locality

  predicate Agree(a: Bytes, b: Bytes, n: nat) {
    n <= |a| && n <= |b| && a[..n] == b[..n]
  }

  lemma {:induction false} AgreeBehind(a: Bytes, b: Bytes, n: nat, m: nat)
    requires Agree(a, b, n) && m <= n
    ensures Agree(a[m..], b[m..], n - m)
    ensures forall k :: 0 <= k < n ==> a[k] == b[k]
  {
    assert a[m..][..n - m] == a[..n][m..];
    assert b[m..][..n - m] == b[..n][m..];
    assert forall k :: 0 <= k < n ==> a[k] == a[..n][k] && b[k] == b[..n][k];
  }

  /** A token that ends before the line does depends on nothing behind the octet it ends at. */
  lemma {:induction false} TokenIsLocal(s: Bytes, mode: Mode, s2: Bytes)
    requires Token(s, mode).length < |s| && Agree(s, s2, Token(s, mode).length + 1)
    ensures Token(s2, mode) == Token(s, mode)
    decreases |s|
  {
    hide Token, Agree;
    var n := Token(s, mode).length + 1;
    AgreeBehind(s, s2, n, 0);
    NonEmpty(s, s2, n);
    if mode.Plain? {
      PlainOnce(s);
      PlainOnce(s2);
    } else if mode.Double? {
      DoubleOnce(s);
      DoubleOnce(s2);
    } else {
      SingleOnce(s);
      SingleOnce(s2);
    }
    if mode.Plain? && IsSpace(s[0]) {
    } else if mode.Double? && s[0] == SLASH {
      EscapeIsLocal(s, s2, n);
      var m := if IsHexEscape(s) then 4 else 2;
      AgreeBehind(s, s2, n, m);
      TokenIsLocal(s[m..], Double, s2[m..]);
    } else if mode.Single? && s[0] == SLASH {
      TokenEnds(Single);
      var m := if s[1] == TICK then 2 else 1;
      AgreeBehind(s, s2, n, m);
      TokenIsLocal(s[m..], Single, s2[m..]);
    } else {
      AgreeBehind(s, s2, n, 1);
      var next :=
        if mode.Plain? then (if s[0] == QUOTE then Double else if s[0] == TICK then Single else Plain)
        else if mode.Double? then (if s[0] == QUOTE then Plain else Double)
        else (if s[0] == TICK then Plain else Single);
      TokenIsLocal(s[1..], next, s2[1..]);
    }
  }

  lemma {:induction false} NonEmpty(s: Bytes, s2: Bytes, n: nat)
    requires Agree(s, s2, n) && n > 0
    ensures s != [] && s2 != [] && |s| >= n && |s2| >= n
  {
  }

  /** Which escape a backslash begins is settled within the token. */
  lemma {:induction false} EscapeIsLocal(s: Bytes, s2: Bytes, n: nat)
    requires s != [] && s[0] == SLASH && n == Token(s, Double).length + 1 <= |s| && Agree(s, s2, n)
    ensures IsHexEscape(s) <==> IsHexEscape(s2)
    ensures n > (if IsHexEscape(s) then 4 else 2)
  {
    hide Token;
    DoubleOnce(s);
    if !IsHexEscape(s) {
      DoubleIsClosed(s[2..]);
      DoubleIsClosed(s[1..]);
    }
    AgreeBehind(s, s2, n, 0);
  }

  lemma {:induction false} DoubleIsClosed(s: Bytes)
    ensures Token(s, Double).length < |s| ==> Token(s, Double).length > 0
  {
  }

  /** Before white space and at the end of a line, the text is a whole argument that says `word`. */
  ghost predicate Spells(text: Bytes, word: Bytes) {
    && text != [] && !IsSpace(text[0])
    && forall rest: Bytes :: rest == [] || IsSpace(rest[0]) ==> Token(text + rest, Plain) == Scan(word, |text|, Plain)
  }

  /** Text without white space and quotes. */
  predicate IsWord(t: Bytes) {
    t != [] && forall k :: 0 <= k < |t| ==> !IsSpace(t[k]) && t[k] != QUOTE && t[k] != TICK
  }

  lemma {:induction false} WordSpellsItself(word: Bytes)
    requires IsWord(word)
    ensures Spells(word, word)
  {
    hide Token;
    forall rest: Bytes | rest == [] || IsSpace(rest[0]) ensures Token(word + rest, Plain) == Scan(word, |word|, Plain) {
      PlainText(word, rest);
    }
  }

  /** Quoted, any argument is spelled, whatever octets it has. */
  lemma {:induction false} QuoteSpells(arg: Bytes)
    ensures Spells(Quote(arg), arg)
  {
    hide Token, Argument, Quote;
    QuoteStarts(arg);
    forall rest: Bytes | rest == [] || IsSpace(rest[0]) ensures Token(Quote(arg) + rest, Plain) == Scan(arg, |Quote(arg)|, Plain) {
      QuoteReadsBack(arg, rest);
      TokenIsArgument(Quote(arg) + rest, Plain);
    }
  }

  function Substituted(s: Bytes, from: nat, to: nat, text: Bytes): Bytes
    requires from <= to <= |s|
  {
    s[..from] + text + s[to..]
  }

  predicate Moved(a: Span, b: Span, delta: int) {
    b.start == a.start + delta && b.end == a.end + delta && b.bytes == a.bytes && b.mode == a.mode
  }

  predicate AllMoved(a: seq<Span>, b: seq<Span>, delta: int) {
    |a| == |b| && forall k :: 0 <= k < |a| ==> Moved(a[k], b[k], delta)
  }

  lemma {:induction false} SpansMove(s: Bytes, base: nat, other: nat)
    ensures AllMoved(Spans(s, base), Spans(s, other), other - base)
    decreases |s|
  {
    hide Token, Spans;
    SpansOnce(s, base);
    SpansOnce(s, other);
    var n := Blank(s);
    if n < |s| {
      var m := n + Token(s[n..], Plain).length;
      SpansMove(s[m..], base + m, other + m);
    }
  }

  /** The spans of the new line, given those of the old one. */
  predicate OnlyChanged(before: seq<Span>, after: seq<Span>, k: nat, text: Bytes, word: Bytes)
    requires k < |before|
  {
    && |after| == |before|
    && after[..k] == before[..k]
    && after[k] == Span(before[k].start, before[k].start + |text|, word, Plain)
    && AllMoved(before[k + 1..], after[k + 1..], before[k].start + |text| - before[k].end)
  }

  function FirstEnd(s: Bytes): nat {
    Blank(s) + Token(s[Blank(s)..], Plain).length
  }

  function FirstSpan(s: Bytes, base: nat): Span {
    var t := Token(s[Blank(s)..], Plain);
    Span(base + Blank(s), base + FirstEnd(s), t.bytes, t.mode)
  }

  lemma {:induction false} SpansSplit(s: Bytes, base: nat)
    requires Spans(s, base) != []
    ensures Blank(s) < FirstEnd(s) <= |s| && (FirstEnd(s) < |s| ==> IsSpace(s[FirstEnd(s)]))
    ensures Spans(s, base) == [FirstSpan(s, base)] + Spans(s[FirstEnd(s)..], base + FirstEnd(s))
  {
    hide Token, Spans;
    SpansOnce(s, base);
  }

  /** The line with a word for what stands between `n` and `m`. */
  lemma {:induction false} ReplacedLine(s: Bytes, n: nat, m: nat, text: Bytes, word: Bytes)
    requires n == Blank(s) && n < m <= |s| && (m < |s| ==> IsSpace(s[m])) && Spells(text, word)
    ensures var s2 := Substituted(s, n, m, text);
            && Blank(s2) == n && |s2| > n
            && s2[n..] == text + s[m..] && s2[n + |text|..] == s[m..]
            && Token(s2[n..], Plain) == Scan(word, |text|, Plain)
  {
    hide Token;
    var s2 := Substituted(s, n, m, text);
    assert s2 == s[..n] + (text + s[m..]);
    BlankOf(s[..n], text + s[m..]);
  }

  lemma {:induction false} FirstChanged(first: Span, rest: seq<Span>, rest2: seq<Span>, text: Bytes, word: Bytes)
    requires AllMoved(rest, rest2, first.start + |text| - first.end)
    ensures OnlyChanged([first] + rest, [Span(first.start, first.start + |text|, word, Plain)] + rest2, 0, text, word)
  {
    var first2 := Span(first.start, first.start + |text|, word, Plain);
    assert ([first] + rest)[..0] == ([first2] + rest2)[..0];
    assert ([first] + rest)[1..] == rest && ([first2] + rest2)[1..] == rest2;
  }

  lemma {:induction false} LaterChanged(first: Span, rest: seq<Span>, rest2: seq<Span>, k: nat, text: Bytes, word: Bytes)
    requires k < |rest| && OnlyChanged(rest, rest2, k, text, word)
    ensures OnlyChanged([first] + rest, [first] + rest2, k + 1, text, word)
  {
    hide AllMoved;
    var all, all2 := [first] + rest, [first] + rest2;
    assert all[..k + 1] == [first] + rest[..k] && all2[..k + 1] == [first] + rest2[..k];
    assert all[k + 2..] == rest[k + 1..] && all2[k + 2..] == rest2[k + 1..];
  }

  lemma {:induction false} FirstReplaced(s: Bytes, base: nat, text: Bytes, word: Bytes)
    requires Spells(text, word) && Spans(s, base) != []
    ensures Blank(s) <= FirstEnd(s) <= |s|
    ensures OnlyChanged(Spans(s, base), Spans(Substituted(s, Blank(s), FirstEnd(s), text), base), 0, text, word)
  {
    hide Token, Spans, AllMoved, OnlyChanged, Substituted, FirstEnd, Blank;
    SpansSplit(s, base);
    var n, m := Blank(s), FirstEnd(s);
    var s2 := Substituted(s, n, m, text);
    ReplacedLine(s, n, m, text, word);
    SpansOnce(s2, base);
    SpansMove(s[m..], base + m, base + n + |text|);
    FirstChanged(FirstSpan(s, base), Spans(s[m..], base + m), Spans(s[m..], base + n + |text|), text, word);
  }

  /** A later span is replaced: the first one is read as before, and the rest of the line is shorter. */
  lemma {:induction false} FirstStays(s: Bytes, base: nat, from: nat, to: nat, text: Bytes)
    requires Spans(s, base) != [] && text != [] && FirstEnd(s) < from <= to <= |s|
    ensures var m := FirstEnd(s);
            var s2 := Substituted(s, from, to, text);
            && |s2| > m && s2[m..] == Substituted(s[m..], from - m, to - m, text)
            && Spans(s2, base) == [FirstSpan(s, base)] + Spans(s2[m..], base + m)
  {
    hide Token, Spans, Blank, Substituted;
    SpansSplit(s, base);
    var n, m := Blank(s), FirstEnd(s);
    var s2 := Substituted(s, from, to, text);
    LaterPart(s, from, to, text, m);
    BlankIsLocal(s, s2, m + 1);
    AgreeBehind(s, s2, m + 1, n);
    TokenIsLocal(s[n..], Plain, s2[n..]);
    SpansOnce(s2, base);
  }

  lemma {:induction false} LaterPart(s: Bytes, from: nat, to: nat, text: Bytes, m: nat)
    requires m < from <= to <= |s| && text != []
    ensures var s2 := Substituted(s, from, to, text);
            Agree(s, s2, m + 1) && s2[m..] == Substituted(s[m..], from - m, to - m, text)
  {
    assert s[m..][..from - m] == s[m..from] && s[m..][to - m..] == s[to..];
  }

  lemma {:induction false} BlankIsLocal(s: Bytes, s2: Bytes, n: nat)
    requires Agree(s, s2, n) && Blank(s) < n
    ensures Blank(s2) == Blank(s)
  {
    var b := Blank(s);
    AgreeBehind(s, s2, n, 0);
    assert s2 == s[..b] + s2[b..];
    BlankOf(s[..b], s2[b..]);
  }

  /**
    Replacing the k-th span by a text that spells a word changes that span and moves those behind it, and
    nothing else.
   */
  lemma {:induction false} SubstitutionIsLocal(s: Bytes, base: nat, k: nat, text: Bytes, word: Bytes)
    requires k < |Spans(s, base)| && Spells(text, word)
    ensures var span := Spans(s, base)[k];
            && base <= span.start <= span.end <= base + |s|
            && OnlyChanged(Spans(s, base), Spans(Substituted(s, span.start - base, span.end - base, text), base), k, text, word)
    decreases k
  {
    hide Token, Spans, AllMoved, OnlyChanged, Substituted, FirstEnd, Blank;
    SpansSplit(s, base);
    if k == 0 {
      FirstReplaced(s, base, text, word);
    } else {
      var spans, m := Spans(s, base), FirstEnd(s);
      var rest := Spans(s[m..], base + m);
      assert spans[k] == rest[k - 1];
      BehindFirst(s, base, k);
      var from, to := spans[k].start - base, spans[k].end - base;
      FirstStays(s, base, from, to, text);
      SubstitutionIsLocal(s[m..], base + m, k - 1, text, word);
      LaterChanged(spans[0], rest, Spans(Substituted(s[m..], from - m, to - m, text), base + m), k - 1, text, word);
    }
  }

  lemma {:induction false} BehindFirst(s: Bytes, base: nat, k: nat)
    requires 0 < k < |Spans(s, base)|
    ensures base + FirstEnd(s) < Spans(s, base)[k].start <= Spans(s, base)[k].end <= base + |s|
  {
    hide Token, Spans, Blank;
    SpansSplit(s, base);
    SpansTile(s, base);
    var spans := Spans(s, base);
    forall m | 0 <= m < |spans| ensures spans[m].start < spans[m].end {
      assert IsPiece(spans[m], s, base);
    }
    EarlierEndsBefore(spans, k);
  }

  lemma {:induction false} EarlierEndsBefore(spans: seq<Span>, k: nat)
    requires InOrder(spans) && 0 < k < |spans| && forall m :: 0 <= m < |spans| ==> spans[m].start < spans[m].end
    ensures spans[0].end < spans[k].start
  {
    if k > 1 {
      EarlierEndsBefore(spans, k - 1);
    }
  }

  /**
    Completion locality: whatever the line and the cursor, accepting a text that spells a word for the
    replaceable span leaves every other argument as it was, makes that one exactly the word, and, with the
    cursor behind it, that argument is the replaceable one again.
   */
  lemma {:induction false} CompletionIsLocal(line: Bytes, cursor: nat, text: Bytes, word: Bytes)
    requires Replaceable(Analysed(line, cursor)).Some? && Spells(text, word)
    ensures AcceptedLocally(line, cursor, text, word)
  {
    hide Spans, AllMoved, Substituted, LastTouched;
    var before := Analysed(line, cursor);
    var k := Replaceable(before).value;
    SubstitutionIsLocal(line, 0, k, text, word);
    var span := before.spans[k];
    ActiveAtItsEnd(Substituted(line, span.start, span.end, text), k);
  }

  /** The completion of any argument at all, inserted as the tokenizer's `quote` spells it. */
  lemma {:induction false} QuotedCompletionIsLocal(line: Bytes, cursor: nat, arg: Bytes)
    requires Replaceable(Analysed(line, cursor)).Some?
    ensures AcceptedLocally(line, cursor, Quote(arg), arg)
  {
    hide Analysed, Spells, Quote, AcceptedLocally;
    QuoteSpells(arg);
    CompletionIsLocal(line, cursor, Quote(arg), arg);
  }

  predicate AcceptedLocally(line: Bytes, cursor: nat, text: Bytes, word: Bytes)
    requires Replaceable(Analysed(line, cursor)).Some?
  {
    var before := Analysed(line, cursor);
    var k := Replaceable(before).value;
    && k < |before.spans| && before.spans[k].start <= before.spans[k].end <= |line|
    && var after := Analysed(Substituted(line, before.spans[k].start, before.spans[k].end, text),
                             before.spans[k].start + |text|);
       OnlyChanged(before.spans, after.spans, k, text, word) && Replaceable(after) == Some(k)
  }

  lemma {:induction false} ActiveAtItsEnd(line: Bytes, k: nat)
    requires k < |Spans(line, 0)|
    ensures Analysed(line, Spans(line, 0)[k].end).spans == Spans(line, 0)
    ensures Replaceable(Analysed(line, Spans(line, 0)[k].end)) == Some(k)
  {
    hide Spans, LastTouched;
    var spans := Spans(line, 0);
    var at := spans[k].end;
    SpanStands(line, k);
    assert Touches(spans[k], at);
    forall m | k < m < |spans| ensures !Touches(spans[m], at) && at < spans[m].end {
      SpanStands(line, m);
      SpansApart(line, k, m);
    }
  }

  lemma {:induction false} SpanStands(line: Bytes, k: nat)
    requires k < |Spans(line, 0)|
    ensures Spans(line, 0)[k].start < Spans(line, 0)[k].end <= |line|
  {
    hide Spans, InOrder;
    SpansTile(line, 0);
    assert IsPiece(Spans(line, 0)[k], line, 0);
  }

  lemma {:induction false} SpansApart(line: Bytes, k: nat, m: nat)
    requires k < m < |Spans(line, 0)|
    ensures Spans(line, 0)[k].end < Spans(line, 0)[m].start
  {
    hide Spans, InOrder;
    SpansTile(line, 0);
    forall j | 0 <= j < |Spans(line, 0)| ensures Spans(line, 0)[j].start < Spans(line, 0)[j].end {
      SpanStands(line, j);
    }
    LaterStartsBehind(Spans(line, 0), k, m);
  }

  lemma {:induction false} LaterStartsBehind(spans: seq<Span>, k: nat, m: nat)
    requires InOrder(spans) && k < m < |spans| && forall j :: 0 <= j < |spans| ==> spans[j].start < spans[j].end
    ensures spans[k].end < spans[m].start
    decreases m
  {
    if m > k + 1 {
      LaterStartsBehind(spans, k, m - 1);
    }
  }

  // ---------------------------------------------------------------- what the cursor is in

  /**
    The active span is the one the cursor is in or at an end of; there is never a second one. The cursor is at a
    new token behind every span, and the line is incomplete when some quote is open.
   */
  lemma {:induction false} ActiveExactly(line: Bytes, cursor: nat)
    ensures var a, at := Analysed(line, cursor), if cursor < |line| then cursor else |line|;
            && (forall k: nat :: a.active == Some(k) <==> k < |a.spans| && a.spans[k].start <= at <= a.spans[k].end)
            && (forall k :: 0 <= k < |a.spans| && a.spans[k].start <= at <= a.spans[k].end ==> a.quoteMode == a.spans[k].mode)
            && (a.active.None? ==> a.quoteMode == Plain)
            && (a.atNewToken <==> forall k :: 0 <= k < |a.spans| ==> a.spans[k].end < at)
            && (a.incomplete <==> exists k :: 0 <= k < |a.spans| && a.spans[k].mode != Plain)
            && Replaceable(a) == a.active
  {
    hide Spans;
    var a, at := Analysed(line, cursor), if cursor < |line| then cursor else |line|;
    forall k, m | 0 <= k < m < |a.spans| ensures a.spans[k].end < a.spans[m].start && a.spans[m].start < a.spans[m].end {
      SpansApart(line, k, m);
      SpanStands(line, m);
    }
    forall k: nat ensures a.active == Some(k) <==> k < |a.spans| && a.spans[k].start <= at <= a.spans[k].end {
      if k < |a.spans| && a.spans[k].start <= at <= a.spans[k].end {
        assert Touches(a.spans[k], at);
      }
    }
  }
}
