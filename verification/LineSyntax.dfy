/**
  The two scanners of an input line: the tokenizer that decides what is sent, and the lenient one that
  the editor completes from. Both are written over what is left of the line.
 */
module LineSyntax {
  import opened Prelude

  const QUOTE: Byte := 0x22
  const TICK: Byte := 0x27
  const SLASH: Byte := 0x5C

  datatype Mode = Plain | Double | Single

  /** A token: its octets decoded, how long it is in the line, and the quoting it ends in. */
  datatype Scan = Scan(bytes: Bytes, length: nat, mode: Mode)

  /** A token at its place in the line. */
  datatype Span = Span(start: nat, end: nat, bytes: Bytes, mode: Mode)

  predicate IsSpace(c: Byte) {
    c == 0x20 || c == 0x09 || c == 0x0A || c == 0x0C || c == 0x0D
  }

  /** The white space a line begins with. */
  function Blank(s: Bytes): (n: nat)
    ensures n <= |s| && (n < |s| ==> !IsSpace(s[n])) && forall k :: 0 <= k < n ==> IsSpace(s[k])
  {
    if s != [] && IsSpace(s[0]) then 1 + Blank(s[1..]) else 0
  }

  /** Behind a backslash in double quotes: the octet meant, and how much of the line spells it. */
  predicate IsHexEscape(s: Bytes) {
    |s| >= 4 && s[0] == SLASH && s[1] == 0x78 && IsHexDigit(s[2]) && IsHexDigit(s[3])
  }

  function HexByte(h: Byte, l: Byte): Byte
    requires IsHexDigit(h) && IsHexDigit(l)
  {
    HexValue(h) * 16 + HexValue(l)
  }

  function Unescape(e: Byte): Byte {
    if e == 0x6E then 0x0A
    else if e == 0x72 then 0x0D
    else if e == 0x74 then 0x09
    else if e == 0x62 then 0x08
    else if e == 0x61 then 0x07
    else e
  }

  function Behind(bytes: Bytes, length: nat, rest: Scan): Scan {
    Scan(bytes + rest.bytes, length + rest.length, rest.mode)
  }

  // ---------------------------------------------------------------- the lenient scanner

  /** One token of `analyse`, from inside `mode`. */
  function Token(s: Bytes, mode: Mode): (r: Scan)
    ensures r.length <= |s|
    ensures r.length < |s| ==> r.mode.Plain? && IsSpace(s[r.length])
    decreases |s|
  {
    if s == [] then Scan([], 0, mode)
    else
      match mode
      case Plain =>
        if IsSpace(s[0]) then Scan([], 0, Plain)
        else if s[0] == QUOTE then Behind([], 1, Token(s[1..], Double))
        else if s[0] == TICK then Behind([], 1, Token(s[1..], Single))
        else Behind([s[0]], 1, Token(s[1..], Plain))
      case Double =>
        if IsHexEscape(s) then Behind([HexByte(s[2], s[3])], 4, Token(s[4..], Double))
        else if s[0] == SLASH && |s| > 1 then Behind([Unescape(s[1])], 2, Token(s[2..], Double))
        else if s[0] == SLASH then Behind([], 1, Token(s[1..], Double))
        else if s[0] == QUOTE then Behind([], 1, Token(s[1..], Plain))
        else Behind([s[0]], 1, Token(s[1..], Double))
      case Single =>
        if s[0] == SLASH && |s| > 1 && s[1] == TICK then Behind([TICK], 2, Token(s[2..], Single))
        else if s[0] == TICK then Behind([], 1, Token(s[1..], Plain))
        else Behind([s[0]], 1, Token(s[1..], Single))
  }

  lemma {:induction false} TokenIsNotEmpty(s: Bytes)
    requires s != [] && !IsSpace(s[0])
    ensures Token(s, Plain).length > 0
  {
  }

  /** The tokens of what is left of a line, `base` octets of which are already behind. */
  function Spans(s: Bytes, base: nat): seq<Span>
    decreases |s|
  {
    var n := Blank(s);
    if n == |s| then []
    else
      var t := Token(s[n..], Plain);
      TokenIsNotEmpty(s[n..]);
      [Span(base + n, base + n + t.length, t.bytes, t.mode)] + Spans(s[n + t.length..], base + n + t.length)
  }

  lemma {:induction false} SpansOnce(s: Bytes, base: nat)
    ensures Blank(s) == |s| ==> Spans(s, base) == []
    ensures Blank(s) < |s| ==>
      var n := Blank(s);
      var t := Token(s[n..], Plain);
      && t.length > 0 && n + t.length <= |s|
      && (n + t.length < |s| ==> t.mode.Plain? && IsSpace(s[n + t.length]))
      && Spans(s, base)
         == [Span(base + n, base + n + t.length, t.bytes, t.mode)] + Spans(s[n + t.length..], base + n + t.length)
  {
    hide Token;
    if Blank(s) < |s| {
      TokenIsNotEmpty(s[Blank(s)..]);
    }
  }

  // ---------------------------------------------------------------- the authoritative tokenizer

  datatype TokenizeError = UnbalancedQuotes | QuoteNotFollowedBySpace

  /** One token of `split_args`, from inside `mode`. */
  function Argument(s: Bytes, mode: Mode): (r: Result<Scan, TokenizeError>)
    ensures r.Ok? ==> r.value.length <= |s|
    decreases |s|
  {
    match mode
    case Plain =>
      if s == [] || IsSpace(s[0]) then Ok(Scan([], 0, Plain))
      else if s[0] == QUOTE then After([], 1, Argument(s[1..], Double))
      else if s[0] == TICK then After([], 1, Argument(s[1..], Single))
      else After([s[0]], 1, Argument(s[1..], Plain))
    case Double =>
      if s == [] then Err(UnbalancedQuotes)
      else if IsHexEscape(s) then After([HexByte(s[2], s[3])], 4, Argument(s[4..], Double))
      else if s[0] == SLASH then
        if |s| == 1 then Err(UnbalancedQuotes) else After([Unescape(s[1])], 2, Argument(s[2..], Double))
      else if s[0] == QUOTE then Closed(s)
      else After([s[0]], 1, Argument(s[1..], Double))
    case Single =>
      if s == [] then Err(UnbalancedQuotes)
      else if s[0] == SLASH && |s| > 1 && s[1] == TICK then After([TICK], 2, Argument(s[2..], Single))
      else if s[0] == TICK then Closed(s)
      else After([s[0]], 1, Argument(s[1..], Single))
  }

  function After(bytes: Bytes, length: nat, rest: Result<Scan, TokenizeError>): Result<Scan, TokenizeError> {
    match rest
    case Err(e) => Err(e)
    case Ok(scan) => Ok(Behind(bytes, length, scan))
  }

  /** A closing quote must be followed by white space or the end of the line. */
  function Closed(s: Bytes): Result<Scan, TokenizeError>
    requires s != []
  {
    if |s| == 1 || IsSpace(s[1]) then Ok(Scan([], 1, Plain)) else Err(QuoteNotFollowedBySpace)
  }

  function Arguments(s: Bytes, base: nat): Result<seq<Span>, TokenizeError>
    decreases |s|
  {
    var n := Blank(s);
    if n == |s| then Ok([])
    else
      match Argument(s[n..], Plain)
      case Err(e) => Err(e)
      case Ok(t) =>
        ArgumentIsNotEmpty(s[n..]);
        match Arguments(s[n + t.length..], base + n + t.length)
        case Err(e) => Err(e)
        case Ok(rest) => Ok([Span(base + n, base + n + t.length, t.bytes, Plain)] + rest)
  }

  lemma {:induction false} ArgumentIsNotEmpty(s: Bytes)
    requires s != [] && !IsSpace(s[0]) && Argument(s, Plain).Ok?
    ensures Argument(s, Plain).value.length > 0
  {
  }

  lemma {:induction false} ArgumentsOnce(s: Bytes, base: nat)
    ensures Blank(s) == |s| ==> Arguments(s, base) == Ok([])
    ensures Blank(s) < |s| ==>
      var n := Blank(s);
      match Argument(s[n..], Plain)
      case Err(e) => Arguments(s, base) == Err(e)
      case Ok(t) =>
        && t.length > 0 && n + t.length <= |s|
        && Arguments(s, base) == (match Arguments(s[n + t.length..], base + n + t.length)
                                  case Err(e) => Err(e)
                                  case Ok(rest) => Ok([Span(base + n, base + n + t.length, t.bytes, Plain)] + rest))
  {
    hide Argument, Blank;
    var n := Blank(s);
    if n < |s| && Argument(s[n..], Plain).Ok? {
      ArgumentIsNotEmpty(s[n..]);
    }
  }

  /** The definition of the argument scanner, unfolded once. */
  lemma {:induction false} ArgumentOnce(s: Bytes, mode: Mode)
    ensures Argument(s, mode) == (
      match mode
      case Plain =>
        if s == [] || IsSpace(s[0]) then Ok(Scan([], 0, Plain))
        else if s[0] == QUOTE then After([], 1, Argument(s[1..], Double))
        else if s[0] == TICK then After([], 1, Argument(s[1..], Single))
        else After([s[0]], 1, Argument(s[1..], Plain))
      case Double =>
        if s == [] then Err(UnbalancedQuotes)
        else if IsHexEscape(s) then After([HexByte(s[2], s[3])], 4, Argument(s[4..], Double))
        else if s[0] == SLASH then
          if |s| == 1 then Err(UnbalancedQuotes) else After([Unescape(s[1])], 2, Argument(s[2..], Double))
        else if s[0] == QUOTE then Closed(s)
        else After([s[0]], 1, Argument(s[1..], Double))
      case Single =>
        if s == [] then Err(UnbalancedQuotes)
        else if s[0] == SLASH && |s| > 1 && s[1] == TICK then After([TICK], 2, Argument(s[2..], Single))
        else if s[0] == TICK then Closed(s)
        else After([s[0]], 1, Argument(s[1..], Single)))
  {
  }

  lemma {:induction false} AfterAfter(
      a: Bytes, n: nat, b: Bytes, m: nat, rest: Result<Scan, TokenizeError>)
    ensures After(a, n, After(b, m, rest)) == After(a + b, n + m, rest)
  {
    if rest.Ok? {
      assert a + (b + rest.value.bytes) == a + b + rest.value.bytes;
    }
  }

  /** The inner loop of `split_args`. */
  method ReadArgument(line: Bytes, start: nat) returns (r: Result<Scan, TokenizeError>)
    requires start < |line|
    ensures r == Argument(line[start..], Plain)
  {
    hide Argument;
    var i, cur: Bytes := start, [];
    var insideDouble, insideSingle := false, false;
    ghost var whole := Argument(line[start..], Plain);
    assert whole.Ok? ==> [] + whole.value.bytes == whole.value.bytes;
    while true
      invariant start <= i <= |line| && !(insideDouble && insideSingle)
      invariant whole
        == After(cur, i - start, Argument(line[i..], if insideDouble then Double else if insideSingle then Single else Plain))
      decreases |line| - i
    {
      var s := line[i..];
      ArgumentOnce(s, if insideDouble then Double else if insideSingle then Single else Plain);
      assert cur + [] == cur;
      if insideDouble {
        if i == |line| {
          return Err(UnbalancedQuotes);
        }
        if line[i] == SLASH && i + 3 < |line| && line[i + 1] == 0x78
          && IsHexDigit(line[i + 2]) && IsHexDigit(line[i + 3])
        {
          var b := HexByte(line[i + 2], line[i + 3]);
          AfterAfter(cur, i - start, [b], 4, Argument(s[4..], Double));
          cur, i := cur + [b], i + 4;
          continue;
        }
        if line[i] == SLASH {
          if i + 1 == |line| {
            return Err(UnbalancedQuotes);
          }
          var b := Unescape(line[i + 1]);
          AfterAfter(cur, i - start, [b], 2, Argument(s[2..], Double));
          cur, i := cur + [b], i + 2;
          continue;
        }
        if line[i] == QUOTE {
          if i + 1 == |line| || IsSpace(line[i + 1]) {
            return Ok(Scan(cur, i + 1 - start, Plain));
          }
          return Err(QuoteNotFollowedBySpace);
        }
      } else if insideSingle {
        if i == |line| {
          return Err(UnbalancedQuotes);
        }
        if line[i] == SLASH && i + 1 < |line| && line[i + 1] == TICK {
          AfterAfter(cur, i - start, [TICK], 2, Argument(s[2..], Single));
          cur, i := cur + [TICK], i + 2;
          continue;
        }
        if line[i] == TICK {
          if i + 1 == |line| || IsSpace(line[i + 1]) {
            return Ok(Scan(cur, i + 1 - start, Plain));
          }
          return Err(QuoteNotFollowedBySpace);
        }
      } else {
        if i == |line| || IsSpace(line[i]) {
          return Ok(Scan(cur, i - start, Plain));
        }
        if line[i] == QUOTE || line[i] == TICK {
          AfterAfter(cur, i - start, [], 1, Argument(s[1..], if line[i] == QUOTE then Double else Single));
          insideDouble, insideSingle := line[i] == QUOTE, line[i] == TICK;
          i := i + 1;
          continue;
        }
      }
      AfterAfter(cur, i - start, [line[i]], 1,
                 Argument(s[1..], if insideDouble then Double else if insideSingle then Single else Plain));
      cur, i := cur + [line[i]], i + 1;
    }
  }

  /** `split_args`. */
  method SplitArgs(line: Bytes) returns (r: Result<seq<Span>, TokenizeError>)
    ensures r == Arguments(line, 0)
  {
    hide Argument, Arguments, Blank;
    var out: seq<Span>, i: nat := [], 0;
    assert line[0..] == line;
    assert Arguments(line, 0).Ok? ==> [] + Arguments(line, 0).value == Arguments(line, 0).value;
    while true
      invariant i <= |line|
      invariant match Arguments(line[i..], i)
                case Err(e) => Arguments(line, 0) == Err(e)
                case Ok(rest) => Arguments(line, 0) == Ok(out + rest)
      decreases |line| - i
    {
      ArgumentsOnce(line[i..], i);
      var start := SkipBlank(line, i);
      assert line[i..][start - i..] == line[start..];
      if start >= |line| {
        assert out + [] == out;
        return Ok(out);
      }
      var token := ReadArgument(line, start);
      if token.Err? {
        return Err(token.error);
      }
      var t := token.value;
      var end := start + t.length;
      assert line[i..][end - i..] == line[end..];
      var span := Span(start, end, t.bytes, Plain);
      assert Arguments(line[end..], end).Ok? ==>
        out + ([span] + Arguments(line[end..], end).value) == out + [span] + Arguments(line[end..], end).value;
      out := out + [span];
      i := end;
    }
  }

  method SkipBlank(line: Bytes, from: nat) returns (i: nat)
    requires from <= |line|
    ensures i == from + Blank(line[from..])
  {
    i := from;
    while i < |line| && IsSpace(line[i])
      invariant from <= i <= |line| && i + Blank(line[i..]) == from + Blank(line[from..])
    {
      assert line[i..][1..] == line[i + 1..];
      i := i + 1;
    }
  }

  // ---------------------------------------------------------------- they agree

  lemma {:induction false} TokenIsArgument(s: Bytes, mode: Mode)
    ensures Argument(s, mode).Ok? ==> Argument(s, mode).value == Token(s, mode) && Token(s, mode).mode.Plain?
    ensures Argument(s, mode) == Err(UnbalancedQuotes) ==> !Token(s, mode).mode.Plain?
    decreases |s|
  {
    hide IsHexEscape;
    if s != [] {
      match mode
      case Plain =>
        if !IsSpace(s[0]) {
          TokenIsArgument(s[1..], if s[0] == QUOTE then Double else if s[0] == TICK then Single else Plain);
        }
      case Double =>
        if IsHexEscape(s) {
          HexEscapeIsLong(s);
          TokenIsArgument(s[4..], Double);
        } else if s[0] == SLASH && |s| > 1 {
          TokenIsArgument(s[2..], Double);
        } else if s[0] != QUOTE && s[0] != SLASH {
          TokenIsArgument(s[1..], Double);
        }
      case Single =>
        if s[0] == SLASH && |s| > 1 && s[1] == TICK {
          TokenIsArgument(s[2..], Single);
        } else if s[0] != TICK {
          TokenIsArgument(s[1..], Single);
        }
    }
  }

  lemma {:induction false} HexEscapeIsLong(s: Bytes)
    ensures IsHexEscape(s) ==> |s| >= 4 && s[0] == SLASH
  {
  }

  predicate AllClosed(spans: seq<Span>) {
    forall k :: 0 <= k < |spans| ==> spans[k].mode.Plain?
  }

  /**
    What the editor shows is what is sent: on every line the tokenizer accepts, the lenient scanner
    finds the same arguments at the same places. A line refused for an open quote has one for the editor too.
   */
  lemma {:induction false} SpansAreArguments(s: Bytes, base: nat)
    ensures Arguments(s, base).Ok? ==> Arguments(s, base).value == Spans(s, base) && AllClosed(Spans(s, base))
    ensures Arguments(s, base) == Err(UnbalancedQuotes) ==> !AllClosed(Spans(s, base))
    decreases |s|
  {
    hide Token, Argument, Spans, Arguments, Blank, AllClosed;
    SpansOnce(s, base);
    ArgumentsOnce(s, base);
    NoneClosed();
    var n := Blank(s);
    if n < |s| {
      TokenIsArgument(s[n..], Plain);
      var t := Token(s[n..], Plain);
      var m := n + t.length;
      ClosedMore(Span(base + n, base + m, t.bytes, t.mode), Spans(s[m..], base + m));
      SpansAreArguments(s[m..], base + m);
    }
  }

  lemma {:induction false} NoneClosed()
    ensures AllClosed([])
  {
  }

  lemma {:induction false} ClosedMore(first: Span, rest: seq<Span>)
    ensures AllClosed([first] + rest) <==> first.mode.Plain? && AllClosed(rest)
  {
    var all := [first] + rest;
    assert all[0] == first;
    assert forall k :: 0 <= k < |rest| ==> all[k + 1] == rest[k];
    assert forall k :: 0 < k < |all| ==> all[k] == rest[k - 1];
  }

  // ---------------------------------------------------------------- shape of the spans

  /** The span is a piece of the line that starts on an octet and ends before white space or at the end. */
  predicate IsPiece(span: Span, s: Bytes, base: nat) {
    && base <= span.start < span.end <= base + |s|
    && !IsSpace(s[span.start - base])
    && (span.end < base + |s| ==> IsSpace(s[span.end - base]))
  }

  predicate InOrder(spans: seq<Span>) {
    forall k :: 0 < k < |spans| ==> spans[k - 1].end < spans[k].start
  }

  predicate Within(spans: seq<Span>, at: nat) {
    exists k :: 0 <= k < |spans| && spans[k].start <= at < spans[k].end
  }

  /** The spans stand in the line in order, and between and around them there is only white space. */
  predicate Tiles(spans: seq<Span>, s: Bytes, base: nat) {
    && (forall k :: 0 <= k < |spans| ==> IsPiece(spans[k], s, base))
    && InOrder(spans)
    && (forall i :: 0 <= i < |s| && !IsSpace(s[i]) ==> Within(spans, base + i))
  }

  lemma {:induction false} SpansTile(s: Bytes, base: nat)
    ensures Tiles(Spans(s, base), s, base)
    decreases |s|
  {
    hide Token, Spans, Tiles, IsPiece;
    SpansOnce(s, base);
    var n := Blank(s);
    if n < |s| {
      var t := Token(s[n..], Plain);
      var m := n + t.length;
      SpansTile(s[m..], base + m);
      TilesMore(s, base, n, m, Span(base + n, base + m, t.bytes, t.mode), Spans(s[m..], base + m));
    } else {
      BlankTiles(s, base);
    }
  }

  lemma {:induction false} BlankTiles(s: Bytes, base: nat)
    requires forall k :: 0 <= k < |s| ==> IsSpace(s[k])
    ensures Tiles([], s, base)
  {
  }

  lemma {:induction false} TilesMore(s: Bytes, base: nat, n: nat, m: nat, first: Span, rest: seq<Span>)
    requires n < m <= |s| && first.start == base + n && first.end == base + m
    requires !IsSpace(s[n]) && (forall k :: 0 <= k < n ==> IsSpace(s[k])) && (m < |s| ==> IsSpace(s[m]))
    requires Tiles(rest, s[m..], base + m)
    ensures Tiles([first] + rest, s, base)
  {
    hide Within, InOrder;
    var all := [first] + rest;
    forall k | 0 <= k < |all| ensures IsPiece(all[k], s, base) {
      if k > 0 {
        PieceOfMore(rest[k - 1], s, base, m);
      }
    }
    if rest != [] {
      PieceOfMore(rest[0], s, base, m);
    }
    OrderOfMore(first, rest);
    forall i | 0 <= i < |s| && !IsSpace(s[i]) ensures Within(all, base + i) {
      WithinMore(first, rest, base + i);
      if i >= m {
        assert s[m..][i - m] == s[i];
        assert Within(rest, base + m + (i - m));
      }
    }
  }

  lemma {:induction false} PieceOfMore(span: Span, s: Bytes, base: nat, m: nat)
    requires m <= |s| && IsPiece(span, s[m..], base + m)
    ensures IsPiece(span, s, base)
    ensures m < |s| && IsSpace(s[m]) ==> base + m < span.start
  {
    assert s[m..][span.start - base - m] == s[span.start - base];
  }

  lemma {:induction false} OrderOfMore(first: Span, rest: seq<Span>)
    requires InOrder(rest) && (rest != [] ==> first.end < rest[0].start)
    ensures InOrder([first] + rest)
  {
    var all := [first] + rest;
    forall k | 0 < k < |all| ensures all[k - 1].end < all[k].start {
      assert all[k] == rest[k - 1];
      if k > 1 {
        assert all[k - 1] == rest[k - 2];
      }
    }
  }

  lemma {:induction false} WithinMore(first: Span, rest: seq<Span>, at: nat)
    ensures first.start <= at < first.end || Within(rest, at) ==> Within([first] + rest, at)
  {
    var all := [first] + rest;
    if first.start <= at < first.end {
      assert all[0] == first;
    } else if Within(rest, at) {
      var k :| 0 <= k < |rest| && rest[k].start <= at < rest[k].end;
      assert all[k + 1] == rest[k];
    }
  }

  // ---------------------------------------------------------------- quoting

  predicate IsPlainArg(arg: Bytes) {
    arg != [] && forall k :: 0 <= k < |arg| ==>
      0x21 <= arg[k] <= 0x7E && arg[k] != QUOTE && arg[k] != TICK && arg[k] != SLASH
  }

  function HexDigit(v: int): Byte
    requires 0 <= v < 16
  {
    if v < 10 then 0x30 + v else 0x61 + (v - 10)
  }

  /** How `quote` spells one octet between the quotes. */
  function QuotedByte(c: Byte): Bytes {
    if c == SLASH then [SLASH, SLASH]
    else if c == QUOTE then [SLASH, QUOTE]
    else if c == 0x0A then [SLASH, 0x6E]
    else if c == 0x0D then [SLASH, 0x72]
    else if c == 0x09 then [SLASH, 0x74]
    else if c == 0x07 then [SLASH, 0x61]
    else if c == 0x08 then [SLASH, 0x62]
    else if 0x20 <= c <= 0x7E then [c]
    else [SLASH, 0x78, HexDigit(c / 16), HexDigit(c % 16)]
  }

  function QuotedBytes(arg: Bytes): Bytes {
    if arg == [] then [] else QuotedByte(arg[0]) + QuotedBytes(arg[1..])
  }

  function Quote(arg: Bytes): Bytes {
    if IsPlainArg(arg) then arg else [QUOTE] + QuotedBytes(arg) + [QUOTE]
  }

  /** The loop of `quote`. */
  method BuildQuote(arg: Bytes) returns (s: Bytes)
    ensures s == Quote(arg)
  {
    hide QuotedByte;
    var simple := arg != [];
    var i := 0;
    while i < |arg| && simple
      invariant i <= |arg| && (arg != [] ==> (simple <==> IsPlainArg(arg[..i]) || i == 0))
      invariant arg == [] ==> !simple
    {
      simple := 0x21 <= arg[i] <= 0x7E && arg[i] != QUOTE && arg[i] != TICK && arg[i] != SLASH;
      assert arg[..i + 1] == arg[..i] + [arg[i]];
      i := i + 1;
    }
    if simple {
      assert arg[..|arg|] == arg;
      return arg;
    }
    assert !IsPlainArg(arg) by {
      if arg != [] && IsPlainArg(arg) {
        PlainPrefix(arg, i);
      }
    }
    s := [QUOTE];
    assert arg[0..] == arg;
    for k := 0 to |arg|
      invariant s + QuotedBytes(arg[k..]) == [QUOTE] + QuotedBytes(arg)
    {
      assert arg[k..][1..] == arg[k + 1..];
      s := s + QuotedByte(arg[k]);
    }
    s := s + [QUOTE];
  }

  lemma {:induction false} PlainPrefix(arg: Bytes, i: nat)
    requires IsPlainArg(arg) && 0 < i <= |arg|
    ensures IsPlainArg(arg[..i])
  {
  }

  /** Behind a plain text, the token goes on. */
  lemma {:induction false} PlainText(text: Bytes, rest: Bytes)
    requires forall k :: 0 <= k < |text| ==> !IsSpace(text[k]) && text[k] != QUOTE && text[k] != TICK
    requires rest == [] || IsSpace(rest[0])
    ensures Token(text + rest, Plain) == Scan(text, |text|, Plain)
    ensures Argument(text + rest, Plain) == Ok(Scan(text, |text|, Plain))
    decreases |text|
  {
    if text == [] {
      assert text + rest == rest;
    } else {
      assert (text + rest)[1..] == text[1..] + rest;
      PlainText(text[1..], rest);
      assert [text[0]] + text[1..] == text;
    }
  }

  lemma {:induction false} QuotedByteReads(c: Byte, rest: Bytes)
    ensures Argument(QuotedByte(c) + rest, Double) == After([c], |QuotedByte(c)|, Argument(rest, Double))
  {
    var s := QuotedByte(c) + rest;
    if c == SLASH || c == QUOTE || 0x07 <= c <= 0x0A || c == 0x0D {
      assert s[2..] == rest;
    } else if 0x20 <= c <= 0x7E {
      assert s[1..] == rest;
    } else {
      assert s[4..] == rest;
      assert HexByte(s[2], s[3]) == c;
    }
  }

  lemma {:induction false} QuotedBytesRead(arg: Bytes, rest: Bytes)
    requires rest == [] || IsSpace(rest[0])
    ensures Argument(QuotedBytes(arg) + [QUOTE] + rest, Double) == Ok(Scan(arg, |QuotedBytes(arg)| + 1, Plain))
    decreases |arg|
  {
    hide QuotedByte;
    if arg == [] {
      assert QuotedBytes(arg) + [QUOTE] + rest == [QUOTE] + rest;
    } else {
      hide Argument;
      var tail := QuotedBytes(arg[1..]) + [QUOTE] + rest;
      assert QuotedBytes(arg) + [QUOTE] + rest == QuotedByte(arg[0]) + tail;
      QuotedBytesRead(arg[1..], rest);
      QuotedByteReads(arg[0], tail);
      assert [arg[0]] + arg[1..] == arg;
    }
  }

  /** A quoted argument, before white space or the end, is read back as it was, whatever octets it has. */
  lemma {:induction false} QuoteReadsBack(arg: Bytes, rest: Bytes)
    requires rest == [] || IsSpace(rest[0])
    ensures Argument(Quote(arg) + rest, Plain) == Ok(Scan(arg, |Quote(arg)|, Plain))
  {
    hide QuotedBytes, Argument;
    if IsPlainArg(arg) {
      PlainText(arg, rest);
    } else {
      hide IsPlainArg;
      QuotedBytesRead(arg, rest);
      assert (Quote(arg) + rest)[1..] == QuotedBytes(arg) + [QUOTE] + rest;
      OpensDouble(Quote(arg) + rest);
      assert [] + arg == arg && |Quote(arg)| == |QuotedBytes(arg)| + 2;
    }
  }

  lemma {:induction false} OpensDouble(s: Bytes)
    requires s != [] && s[0] == QUOTE
    ensures Argument(s, Plain) == After([], 1, Argument(s[1..], Double))
  {
  }

  /** A line of quoted arguments with one space between them. */
  function QuotedLine(args: seq<Bytes>): Bytes {
    if args == [] then []
    else if |args| == 1 then Quote(args[0])
    else Quote(args[0]) + [0x20] + QuotedLine(args[1..])
  }

  predicate Carried(spans: seq<Span>, args: seq<Bytes>) {
    |spans| == |args| && forall k :: 0 <= k < |args| ==> spans[k].bytes == args[k]
  }

  lemma {:induction false} QuoteStarts(arg: Bytes)
    ensures Quote(arg) != [] && !IsSpace(Quote(arg)[0])
  {
  }

  lemma {:induction false} NothingCarried()
    ensures Carried([], [])
  {
  }

  lemma {:induction false} CarriedMore(first: Span, rest: seq<Span>, args: seq<Bytes>)
    requires args != [] && first.bytes == args[0] && Carried(rest, args[1..])
    ensures Carried([first] + rest, args)
  {
    assert forall k :: 0 < k < |args| ==> args[1..][k - 1] == args[k];
  }

  /** What is quoted and joined is split into the same arguments. */
  lemma {:induction false} QuotedLineSplits(args: seq<Bytes>, lead: Bytes, base: nat)
    requires lead == [] || lead == [0x20]
    ensures Arguments(lead + QuotedLine(args), base).Ok?
    ensures Carried(Arguments(lead + QuotedLine(args), base).value, args)
    decreases |args|
  {
    hide Quote, Argument, Arguments, Blank, Carried, QuotedLine;
    NothingCarried();
    var s := lead + QuotedLine(args);
    ArgumentsOnce(s, base);
    if args == [] {
      BlankOf(lead, []);
      assert QuotedLine([]) == [] by { NoLine(); }
    } else {
      QuotedHead(args, lead);
      var gap := if |args| == 1 then [] else [0x20];
      var m := |lead| + |Quote(args[0])|;
      QuotedLineSplits(args[1..], gap, base + m);
      CarriedMore(Span(base + |lead|, base + m, args[0], Plain), Arguments(s[m..], base + m).value, args);
    }
  }

  lemma {:induction false} NoLine()
    ensures QuotedLine([]) == []
  {
  }

  /** The first argument of a quoted line, and the line behind it. */
  lemma {:induction false} QuotedHead(args: seq<Bytes>, lead: Bytes)
    requires args != [] && (lead == [] || lead == [0x20])
    ensures var s, m := lead + QuotedLine(args), |lead| + |Quote(args[0])|;
            && Blank(s) == |lead| < m <= |s|
            && s[m..] == (if |args| == 1 then [] else [0x20]) + QuotedLine(args[1..])
            && Argument(s[|lead|..], Plain) == Ok(Scan(args[0], |Quote(args[0])|, Plain))
  {
    hide Quote, Argument, Blank;
    var s := lead + QuotedLine(args);
    QuoteStarts(args[0]);
    var rest := if |args| == 1 then [] else [0x20] + QuotedLine(args[1..]);
    assert s == lead + (Quote(args[0]) + rest);
    BlankOf(lead, Quote(args[0]) + rest);
    assert s[|lead|..] == Quote(args[0]) + rest;
    QuoteReadsBack(args[0], rest);
    assert s[|lead| + |Quote(args[0])|..] == rest;
  }

  lemma {:induction false} BlankOf(lead: Bytes, rest: Bytes)
    requires forall k :: 0 <= k < |lead| ==> IsSpace(lead[k])
    requires rest == [] || !IsSpace(rest[0])
    ensures Blank(lead + rest) == |lead|
  {
    if lead == [] {
      assert lead + rest == rest;
    } else {
      assert (lead + rest)[1..] == lead[1..] + rest;
      BlankOf(lead[1..], rest);
    }
  }
}
