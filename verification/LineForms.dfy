/** Which lines are split and into what: a line by derivation, with its quotes and escapes. */
module LineForms {
  import opened Prelude
  import opened LineSyntax

  /** Inside quotes: `\xhh`, a backslash and an octet, or an octet for itself. */
  datatype Unit = Hex(high: Byte, low: Byte) | Escaped(octet: Byte) | Octet(octet: Byte)

  datatype Tail = Bare | InDouble(units: seq<Unit>) | InSingle(units: seq<Unit>)

  /** Octets without quotes, and what stands in quotes behind them. */
  datatype Word = Word(front: Bytes, tail: Tail)

  /** A word with the white space in front of it. */
  datatype Piece = Piece(blank: Bytes, word: Word)

  // ---------------------------------------------------------------- spelling

  function UnitText(u: Unit): (s: Bytes)
    ensures s != []
  {
    match u
    case Hex(high, low) => ['\\' as int, 'x' as int, high, low]
    case Escaped(c) => ['\\' as int, c]
    case Octet(c) => [c]
  }

  function UnitsText(units: seq<Unit>): Bytes {
    if units == [] then [] else UnitText(units[0]) + UnitsText(units[1..])
  }

  function TailText(t: Tail): Bytes {
    match t
    case Bare => []
    case InDouble(units) => ['"' as int] + (UnitsText(units) + ['"' as int])
    case InSingle(units) => ['\'' as int] + (UnitsText(units) + ['\'' as int])
  }

  function WordText(w: Word): Bytes {
    w.front + TailText(w.tail)
  }

  function PiecesText(pieces: seq<Piece>): Bytes {
    if pieces == [] then [] else pieces[0].blank + (WordText(pieces[0].word) + PiecesText(pieces[1..]))
  }

  // ---------------------------------------------------------------- meaning

  function Nibble(c: Byte): (v: int)
    ensures 0 <= v < 16
  {
    if '0' as int <= c <= '9' as int then c - '0' as int
    else if 'a' as int <= c <= 'f' as int then c - 'a' as int + 10
    else if 'A' as int <= c <= 'F' as int then c - 'A' as int + 10
    else 0
  }

  function UnitMeaning(u: Unit): Byte {
    match u
    case Hex(high, low) => Nibble(high) * 16 + Nibble(low)
    case Escaped(c) =>
      if c == 'n' as int then 10 else if c == 'r' as int then 13 else if c == 't' as int then 9
      else if c == 'b' as int then 8 else if c == 'a' as int then 7 else c
    case Octet(c) => c
  }

  function UnitsMeaning(units: seq<Unit>): Bytes {
    if units == [] then [] else [UnitMeaning(units[0])] + UnitsMeaning(units[1..])
  }

  function TailMeaning(t: Tail): Bytes {
    if t.Bare? then [] else UnitsMeaning(t.units)
  }

  function WordMeaning(w: Word): Bytes {
    w.front + TailMeaning(w.tail)
  }

  // ---------------------------------------------------------------- which derivations are lines

  predicate White(c: Byte) {
    c == ' ' as int || c == '\t' as int || c == '\n' as int || c == '\r' as int || c == 0x0C
  }

  predicate AllWhite(s: Bytes) {
    forall k :: 0 <= k < |s| ==> White(s[k])
  }

  predicate IsHex(c: Byte) {
    '0' as int <= c <= '9' as int || 'a' as int <= c <= 'f' as int || 'A' as int <= c <= 'F' as int
  }

  predicate StartsHex(s: Bytes) {
    |s| >= 2 && IsHex(s[0]) && IsHex(s[1])
  }

  /** In double quotes, with the rest of what is quoted. */
  predicate DoubleUnit(u: Unit, rest: Bytes) {
    match u
    case Hex(high, low) => IsHex(high) && IsHex(low)
    case Escaped(c) => c == 'x' as int ==> !StartsHex(rest)
    case Octet(c) => c != '"' as int && c != '\\' as int
  }

  predicate DoubleUnits(units: seq<Unit>) {
    units == [] || (DoubleUnit(units[0], UnitsText(units[1..])) && DoubleUnits(units[1..]))
  }

  predicate SingleUnit(u: Unit, last: bool) {
    match u
    case Hex(_, _) => false
    case Escaped(c) => c == '\'' as int
    case Octet(c) => c != '\'' as int && (c == '\\' as int ==> !last)
  }

  /** In single quotes only the quote itself is escaped. */
  predicate SingleUnits(units: seq<Unit>) {
    units == [] || (SingleUnit(units[0], |units| == 1) && SingleUnits(units[1..]))
  }

  /** Octets that stand for themselves outside quotes. */
  predicate IsFront(front: Bytes) {
    forall k :: 0 <= k < |front| ==> !White(front[k]) && front[k] != '"' as int && front[k] != '\'' as int
  }

  predicate IsTail(t: Tail) {
    match t
    case Bare => true
    case InDouble(units) => DoubleUnits(units)
    case InSingle(units) => SingleUnits(units)
  }

  predicate IsWord(w: Word) {
    (w.front != [] || !w.tail.Bare?) && IsTail(w.tail) && IsFront(w.front)
  }

  /** White space stands between two words. */
  predicate ArePieces(pieces: seq<Piece>, first: bool)
    decreases |pieces|
  {
    pieces == [] ||
    (AllWhite(pieces[0].blank) && (!first ==> pieces[0].blank != []) && IsWord(pieces[0].word) && ArePieces(pieces[1..], false))
  }

  /** `line` is these words, with white space around them. */
  predicate IsLine(line: Bytes, pieces: seq<Piece>, trailing: Bytes) {
    ArePieces(pieces, true) && AllWhite(trailing) && line == PiecesText(pieces) + trailing
  }

  function SpansOf(pieces: seq<Piece>, base: nat): seq<Span> {
    if pieces == [] then []
    else
      var start := base + |pieces[0].blank|;
      var end := start + |WordText(pieces[0].word)|;
      [Span(start, end, WordMeaning(pieces[0].word), Plain)] + SpansOf(pieces[1..], end)
  }

  // ---------------------------------------------------------------- derived words are read

  predicate Ends(rest: Bytes) {
    rest == [] || White(rest[0])
  }

  lemma {:induction false} WhiteIff(c: Byte)
    ensures White(c) <==> IsSpace(c)
  {
  }

  lemma {:induction false} HexIff(c: Byte)
    ensures IsHex(c) <==> IsHexDigit(c)
    ensures IsHex(c) ==> Nibble(c) == HexValue(c)
  {
  }

  lemma {:induction false} EscapeIs(c: Byte)
    ensures Unescape(c) == UnitMeaning(Escaped(c))
  {
  }

  /** A closing quote in front of white space or the end. */
  lemma {:induction false} QuoteCloses(s: Bytes, q: Byte, rest: Bytes)
    requires s == [q] + rest && Ends(rest)
    ensures q == '"' as int ==> Argument(s, Double) == Ok(Scan([], 1, Plain))
    ensures q == '\'' as int ==> Argument(s, Single) == Ok(Scan([], 1, Plain))
  {
    hide White, IsSpace;
    if rest != [] {
      WhiteIff(rest[0]);
    }
  }

  /** One unit in double quotes, as the scanner takes it. */
  lemma {:induction false} FirstUnit(s: Bytes, u: Unit, more: Bytes, rest: Bytes)
    requires DoubleUnit(u, more) && s == UnitText(u) + (more + (['"' as int] + rest))
    ensures var n := |UnitText(u)|; Argument(s, Double) == After([UnitMeaning(u)], n, Argument(s[n..], Double))
  {
    hide IsHex, Nibble, IsHexDigit, HexValue, Unescape, Argument, After;
    ArgumentOnce(s, Double);
    match u {
      case Hex(high, low) => HexIff(high); HexIff(low);
      case Escaped(c) => EscapeIs(c); NoHexEscape(s, c, more, rest);
      case Octet(c) =>
    }
  }

  lemma {:induction false} NoHexEscape(s: Bytes, c: Byte, more: Bytes, rest: Bytes)
    requires DoubleUnit(Escaped(c), more) && s == ['\\' as int, c] + (more + (['"' as int] + rest))
    ensures !IsHexEscape(s)
  {
    hide IsHex, IsHexDigit;
    if |s| >= 4 {
      HexIff(s[2]);
      HexIff(s[3]);
      QuoteIsNoHex();
      if |more| >= 2 {
        assert s[2] == more[0] && s[3] == more[1];
      }
    }
  }

  lemma {:induction false} QuoteIsNoHex()
    ensures !IsHex('"' as int)
  {
  }

  /** The meaning and the text of units in front of a closing quote. */
  lemma {:induction false} UnitsMore(units: seq<Unit>)
    ensures units == [] ==> UnitsText(units) == [] && UnitsMeaning(units) == []
    ensures units != [] ==>
              && UnitsText(units) == UnitText(units[0]) + UnitsText(units[1..])
              && UnitsMeaning(units) == [UnitMeaning(units[0])] + UnitsMeaning(units[1..])
  {
    hide UnitText, UnitMeaning;
  }

  lemma {:induction false} DoubleReads(s: Bytes, units: seq<Unit>, rest: Bytes)
    requires DoubleUnits(units) && Ends(rest) && s == UnitsText(units) + (['"' as int] + rest)
    ensures Argument(s, Double) == Ok(Scan(UnitsMeaning(units), |UnitsText(units)| + 1, Plain))
    decreases |units|
  {
    hide Argument, Ends, DoubleUnit, UnitText, UnitMeaning, UnitsText, UnitsMeaning;
    UnitsMore(units);
    if units == [] {
      assert s == ['"' as int] + rest;
      QuoteCloses(s, '"' as int, rest);
    } else {
      var text := UnitText(units[0]);
      var tail := UnitsText(units[1..]) + (['"' as int] + rest);
      assert s == text + tail && s[|text|..] == tail;
      DoubleReads(tail, units[1..], rest);
      FirstUnit(s, units[0], UnitsText(units[1..]), rest);
    }
  }

  lemma {:induction false} FirstSingle(s: Bytes, u: Unit, tail: Bytes)
    requires s == UnitText(u) + tail && tail != [] && SingleUnit(u, tail[0] == '\'' as int)
    ensures var n := |UnitText(u)|; Argument(s, Single) == After([UnitMeaning(u)], n, Argument(s[n..], Single))
  {
    hide Argument, After;
    ArgumentOnce(s, Single);
    if u == Octet('\\' as int) {
      assert s[1] == tail[0];
    }
  }

  lemma {:induction false} NoQuoteNext(units: seq<Unit>, q: Bytes)
    requires SingleUnits(units) && q != [] && q[0] == '\'' as int
    ensures var tail := UnitsText(units) + q; tail != [] && (tail[0] == '\'' as int ==> units == [])
  {
  }

  lemma {:induction false} SingleReads(s: Bytes, units: seq<Unit>, rest: Bytes)
    requires SingleUnits(units) && Ends(rest) && s == UnitsText(units) + (['\'' as int] + rest)
    ensures Argument(s, Single) == Ok(Scan(UnitsMeaning(units), |UnitsText(units)| + 1, Plain))
    decreases |units|
  {
    hide Argument, Ends, UnitText, UnitMeaning, UnitsText, UnitsMeaning;
    UnitsMore(units);
    if units == [] {
      assert s == ['\'' as int] + rest;
      QuoteCloses(s, '\'' as int, rest);
    } else {
      var text := UnitText(units[0]);
      var tail := UnitsText(units[1..]) + (['\'' as int] + rest);
      assert s == text + tail && s[|text|..] == tail;
      SingleReads(tail, units[1..], rest);
      NoQuoteNext(units[1..], ['\'' as int] + rest);
      FirstSingle(s, units[0], tail);
    }
  }

  /** Outside quotes: the end, an opening quote, or an octet for itself. */
  lemma {:induction false} PlainStep(s: Bytes)
    ensures s == [] || White(s[0]) ==> Argument(s, Plain) == Ok(Scan([], 0, Plain))
    ensures s != [] && !White(s[0]) ==>
              Argument(s, Plain) == if s[0] == '"' as int then After([], 1, Argument(s[1..], Double))
                                    else if s[0] == '\'' as int then After([], 1, Argument(s[1..], Single))
                                    else After([s[0]], 1, Argument(s[1..], Plain))
  {
    hide White, IsSpace, Argument, After;
    ArgumentOnce(s, Plain);
    if s != [] {
      WhiteIff(s[0]);
    }
  }

  lemma {:induction false} QuotesAreBlack()
    ensures !White('"' as int) && !White('\'' as int)
  {
  }

  lemma {:induction false} AfterOne(c: Bytes, x: Bytes, n: nat)
    ensures After(c, 1, Ok(Scan(x, n, Plain))) == Ok(Scan(c + x, 1 + n, Plain))
    ensures [] + x == x
  {
  }

  lemma {:induction false} TailReads(s: Bytes, t: Tail, rest: Bytes)
    requires IsTail(t) && Ends(rest) && s == TailText(t) + rest
    ensures Argument(s, Plain) == Ok(Scan(TailMeaning(t), |TailText(t)|, Plain))
  {
    hide White, DoubleUnits, SingleUnits, Argument, After, UnitsText, UnitsMeaning;
    PlainStep(s);
    if t.Bare? {
      assert s == rest;
    } else {
      var q := if t.InDouble? then '"' as int else '\'' as int;
      QuotesAreBlack();
      Quoted(s, t, q, rest);
      AfterOne([], UnitsMeaning(t.units), |UnitsText(t.units)| + 1);
      if t.InDouble? {
        DoubleReads(s[1..], t.units, rest);
      } else {
        SingleReads(s[1..], t.units, rest);
      }
    }
  }

  lemma {:induction false} Quoted(s: Bytes, t: Tail, q: Byte, rest: Bytes)
    requires !t.Bare? && q == (if t.InDouble? then '"' as int else '\'' as int) && s == TailText(t) + rest
    ensures s != [] && s[0] == q && s[1..] == UnitsText(t.units) + ([q] + rest) && |TailText(t)| == |UnitsText(t.units)| + 2
  {
    hide UnitsText;
    assert s == [q] + (UnitsText(t.units) + ([q] + rest));
  }

  lemma {:induction false} FrontPeel(front: Bytes)
    requires IsFront(front) && front != []
    ensures !White(front[0]) && front[0] != '"' as int && front[0] != '\'' as int && IsFront(front[1..])
  {
    hide White;
  }

  lemma {:induction false} WordReads(s: Bytes, front: Bytes, t: Tail, rest: Bytes)
    requires IsFront(front) && IsTail(t) && Ends(rest) && s == front + (TailText(t) + rest)
    ensures Argument(s, Plain) == Ok(Scan(front + TailMeaning(t), |front| + |TailText(t)|, Plain))
    decreases |front|
  {
    hide White, IsTail, IsFront, TailText, Argument, After, TailMeaning, Ends;
    if front == [] {
      assert s == TailText(t) + rest && front + TailMeaning(t) == TailMeaning(t);
      TailReads(s, t, rest);
    } else {
      assert s[0] == front[0] && s[1..] == front[1..] + (TailText(t) + rest);
      FrontPeel(front);
      WordReads(s[1..], front[1..], t, rest);
      PlainStep(s);
      AfterOne([s[0]], front[1..] + TailMeaning(t), |front[1..]| + |TailText(t)|);
      assert front + TailMeaning(t) == [front[0]] + (front[1..] + TailMeaning(t));
    }
  }

  lemma {:induction false} BlankIs(s: Bytes, blank: Bytes, rest: Bytes)
    requires s == blank + rest && AllWhite(blank) && (rest != [] ==> !White(rest[0]))
    ensures Blank(s) == |blank| && s[|blank|..] == rest
    decreases |blank|
  {
    hide White, IsSpace;
    if blank == [] {
      assert s == rest;
      if rest != [] {
        WhiteIff(s[0]);
      }
    } else {
      assert s[0] == blank[0] && s[1..] == blank[1..] + rest;
      WhiteIff(s[0]);
      BlankIs(s[1..], blank[1..], rest);
    }
  }

  lemma {:induction false} WordStart(w: Word)
    requires IsWord(w)
    ensures WordText(w) != [] && !White(WordText(w)[0])
  {
  }

  /** What follows a word in a line. */
  lemma {:induction false} BehindEnds(pieces: seq<Piece>, trailing: Bytes)
    requires ArePieces(pieces, false) && AllWhite(trailing)
    ensures Ends(PiecesText(pieces) + trailing)
  {
    hide IsWord, White, WordText;
  }

  /** The first word of a line of pieces. */
  lemma {:induction false} FirstPieceReads(s: Bytes, x: Piece, rest: Bytes, base: nat)
    requires AllWhite(x.blank) && IsWord(x.word) && Ends(rest) && s == x.blank + (WordText(x.word) + rest)
    ensures var start := base + |x.blank|; var end := start + |WordText(x.word)|;
            && s[end - base..] == rest && end - base > |x.blank|
            && (Arguments(rest, end).Ok? ==>
                  Arguments(s, base) == Ok([Span(start, end, WordMeaning(x.word), Plain)] + Arguments(rest, end).value))
  {
    hide Argument, IsWord, WordText, WordMeaning, AllWhite, Blank, Arguments, Ends, TailText;
    var text, n := WordText(x.word), |x.blank|;
    ArgumentsOnce(s, base);
    WordStart(x.word);
    BlankIs(s, x.blank, text + rest);
    WordParts(x.word, rest);
    WordReads(text + rest, x.word.front, x.word.tail, rest);
    assert s[n..] == text + rest && s[n + |text|..] == rest;
  }

  lemma {:induction false} NoWords(s: Bytes, base: nat)
    requires AllWhite(s)
    ensures Arguments(s, base) == Ok([])
  {
    hide AllWhite, Blank;
    assert s == s + [];
    BlankIs(s, s, []);
  }

  lemma {:induction false} PiecesRead(s: Bytes, pieces: seq<Piece>, trailing: Bytes, base: nat, first: bool)
    requires ArePieces(pieces, first) && AllWhite(trailing) && s == PiecesText(pieces) + trailing
    ensures Arguments(s, base) == Ok(SpansOf(pieces, base))
    decreases |pieces|
  {
    hide IsWord, WordText, WordMeaning, AllWhite, Arguments, Ends;
    if pieces == [] {
      assert s == trailing;
      NoWords(s, base);
    } else {
      var x := pieces[0];
      var rest := PiecesText(pieces[1..]) + trailing;
      assert s == x.blank + (WordText(x.word) + rest);
      BehindEnds(pieces[1..], trailing);
      FirstPieceReads(s, x, rest, base);
      PiecesRead(rest, pieces[1..], trailing, base + |x.blank| + |WordText(x.word)|, false);
    }
  }

  lemma {:induction false} WordParts(w: Word, rest: Bytes)
    requires IsWord(w)
    ensures IsTail(w.tail) && IsFront(w.front) && WordText(w) + rest == w.front + (TailText(w.tail) + rest)
    ensures |WordText(w)| == |w.front| + |TailText(w.tail)|
    ensures WordMeaning(w) == w.front + TailMeaning(w.tail)
  {
    hide IsTail, IsFront, TailText, TailMeaning;
  }

  // ---------------------------------------------------------------- what is read is derived

  lemma {:induction false} DoubleShape(s: Bytes)
    requires Argument(s, Double).Ok?
    ensures s != [] && (s[0] == SLASH ==> |s| > 1)
    ensures s[0] == '"' as int ==> Argument(s, Double).value == Scan([], 1, Plain) && Ends(s[1..])
    ensures s[0] != '"' as int ==> var u := UnitAt(s); var n := |UnitText(u)|;
              && n <= |s| && UnitText(u) == s[..n] && Argument(s[n..], Double).Ok?
              && Argument(s, Double).value == Behind([UnitMeaning(u)], n, Argument(s[n..], Double).value)
  {
    hide IsHex, Nibble, IsHexDigit, HexValue, White, IsSpace, Unescape, Argument;
    ArgumentOnce(s, Double);
    if s[0] == QUOTE {
      if |s| > 1 {
        WhiteIff(s[1]);
      }
    } else if IsHexEscape(s) {
      HexIff(s[2]);
      HexIff(s[3]);
    } else if s[0] == SLASH {
      EscapeIs(s[1]);
    }
  }

  /** The unit `s` begins with, inside double quotes. */
  function UnitAt(s: Bytes): Unit
    requires s != [] && (s[0] == SLASH ==> |s| > 1)
  {
    if IsHexEscape(s) then Hex(s[2], s[3]) else if s[0] == SLASH then Escaped(s[1]) else Octet(s[0])
  }

  lemma {:induction false} UnitIsDouble(s: Bytes, more: Bytes)
    requires s != [] && (s[0] == SLASH ==> |s| > 1) && s[0] != '"' as int
    requires |UnitText(UnitAt(s))| <= |s| && more <= s[|UnitText(UnitAt(s))|..]
    ensures DoubleUnit(UnitAt(s), more)
  {
    hide IsHex, IsHexDigit;
    if IsHexEscape(s) {
      HexIff(s[2]);
      HexIff(s[3]);
    } else if s[0] == SLASH && |more| >= 2 {
      assert more[0] == s[2..][0] && more[1] == s[2..][1];
      HexIff(s[2]);
      HexIff(s[3]);
    }
  }

  lemma {:induction false} CutBehind(s: Bytes, n: nat, m: nat)
    requires n + m <= |s|
    ensures s[..n + m] == s[..n] + s[n..][..m] && s[n + m..] == s[n..][m..]
  {
  }

  lemma {:induction false} DoubleDerives(s: Bytes) returns (units: seq<Unit>)
    requires Argument(s, Double).Ok?
    ensures var r := Argument(s, Double).value;
            && DoubleUnits(units) && s[..r.length] == UnitsText(units) + ['"' as int] && r.bytes == UnitsMeaning(units)
            && Ends(s[r.length..])
    decreases |s|
  {
    hide Argument, Ends, DoubleUnit, UnitText, UnitMeaning, UnitsText, UnitsMeaning, UnitAt;
    DoubleShape(s);
    units := [];
    if s[0] == '"' as int {
      UnitsMore([]);
      assert s[..1] == ['"' as int];
    } else {
      var u := UnitAt(s);
      var n := |UnitText(u)|;
      var more := DoubleDerives(s[n..]);
      units := [u] + more;
      assert units[1..] == more;
      CutBehind(s, n, Argument(s[n..], Double).value.length);
      UnitsMore(units);
      assert UnitsText(more) <= s[n..];
      UnitIsDouble(s, UnitsText(more));
      assert UnitText(u) + (UnitsText(more) + ['"' as int]) == UnitText(u) + UnitsText(more) + ['"' as int];
    }
  }

  /** The unit `s` begins with, inside single quotes. */
  function SingleAt(s: Bytes): Unit
    requires s != []
  {
    if s[0] == '\\' as int && |s| > 1 && s[1] == '\'' as int then Escaped(s[1]) else Octet(s[0])
  }

  lemma {:induction false} SingleShape(s: Bytes)
    requires Argument(s, Single).Ok?
    ensures s != []
    ensures s[0] == '\'' as int ==> Argument(s, Single).value == Scan([], 1, Plain) && Ends(s[1..])
    ensures s[0] != '\'' as int ==> var u := SingleAt(s); var n := |UnitText(u)|;
              && n <= |s| && UnitText(u) == s[..n] && Argument(s[n..], Single).Ok?
              && Argument(s, Single).value == Behind([UnitMeaning(u)], n, Argument(s[n..], Single).value)
              && SingleUnit(u, n < |s| && s[n] == '\'' as int)
  {
    hide White, IsSpace, Argument;
    ArgumentOnce(s, Single);
    if s[0] == TICK && |s| > 1 {
      WhiteIff(s[1]);
    }
  }

  lemma {:induction false} SingleDerives(s: Bytes) returns (units: seq<Unit>)
    requires Argument(s, Single).Ok?
    ensures var r := Argument(s, Single).value;
            && SingleUnits(units) && s[..r.length] == UnitsText(units) + ['\'' as int] && r.bytes == UnitsMeaning(units)
            && Ends(s[r.length..])
    decreases |s|
  {
    hide Argument, Ends, SingleUnit, UnitText, UnitMeaning, UnitsText, UnitsMeaning, SingleAt;
    SingleShape(s);
    units := [];
    if s[0] == '\'' as int {
      UnitsMore([]);
      assert s[..1] == ['\'' as int];
    } else {
      var u := SingleAt(s);
      var n := |UnitText(u)|;
      var more := SingleDerives(s[n..]);
      units := [u] + more;
      assert units[1..] == more;
      CutBehind(s, n, Argument(s[n..], Single).value.length);
      UnitsMore(units);
      assert UnitText(u) + (UnitsText(more) + ['\'' as int]) == UnitText(u) + UnitsText(more) + ['\'' as int];
      if more == [] {
        UnitsMore([]);
        assert s[n] == s[n..][..Argument(s[n..], Single).value.length][0] == '\'' as int;
      }
      assert SingleUnit(u, |units| == 1) by { LastIsStricter(u, n < |s| && s[n] == '\'' as int, |units| == 1); }
    }
  }

  lemma {:induction false} LastIsStricter(u: Unit, last: bool, claimed: bool)
    requires SingleUnit(u, last) && (claimed ==> last)
    ensures SingleUnit(u, claimed)
  {
  }

  lemma {:induction false} WordDerives(s: Bytes) returns (w: Word)
    requires Argument(s, Plain).Ok?
    ensures var r := Argument(s, Plain).value;
            && s[..r.length] == WordText(w) && r.bytes == WordMeaning(w) && Ends(s[r.length..])
    ensures IsTail(w.tail) && IsFront(w.front)
    decreases |s|
  {
    hide White, DoubleUnits, SingleUnits, Argument, UnitsText, UnitsMeaning;
    PlainStep(s);
    w := Word([], Bare);
    if s != [] && !White(s[0]) {
      if s[0] == '"' as int {
        var units := DoubleDerives(s[1..]);
        w := Word([], InDouble(units));
        CutBehind(s, 1, Argument(s[1..], Double).value.length);
      } else if s[0] == '\'' as int {
        var units := SingleDerives(s[1..]);
        w := Word([], InSingle(units));
        CutBehind(s, 1, Argument(s[1..], Single).value.length);
      } else {
        var more := WordDerives(s[1..]);
        w := Word([s[0]] + more.front, more.tail);
        CutBehind(s, 1, Argument(s[1..], Plain).value.length);
        OneMoreOctet(s[0], more);
      }
    }
  }

  lemma {:induction false} OneMoreOctet(c: Byte, w: Word)
    ensures var more := Word([c] + w.front, w.tail);
            WordText(more) == [c] + WordText(w) && WordMeaning(more) == [c] + WordMeaning(w)
  {
    hide TailText, TailMeaning;
    assert [c] + w.front + TailText(w.tail) == [c] + (w.front + TailText(w.tail));
    assert [c] + w.front + TailMeaning(w.tail) == [c] + (w.front + TailMeaning(w.tail));
  }

  lemma {:induction false} BlankIsWhite(s: Bytes)
    ensures AllWhite(s[..Blank(s)])
  {
    hide White, IsSpace;
    forall k | 0 <= k < Blank(s) ensures White(s[k]) {
      WhiteIff(s[k]);
    }
  }

  /** The first word of a line, and what follows it. */
  lemma {:induction false} PieceDerives(s: Bytes, base: nat) returns (x: Piece, m: nat)
    requires Arguments(s, base).Ok? && Blank(s) < |s|
    ensures AllWhite(x.blank) && IsWord(x.word) && (x.blank == [] ==> !White(s[0]))
    ensures 0 < m <= |s| && s[..m] == x.blank + WordText(x.word) && Ends(s[m..]) && Arguments(s[m..], base + m).Ok?
  {
    hide Argument, WordText, WordMeaning, AllWhite, White, IsSpace, Blank, Arguments, IsTail, IsFront, Ends;
    ArgumentsOnce(s, base);
    var n := Blank(s);
    BlankIsWhite(s);
    var w := WordDerives(s[n..]);
    var k := Argument(s[n..], Plain).value.length;
    CutBehind(s, n, k);
    WordIsThere(w);
    x, m := Piece(s[..n], w), n + k;
    WhiteIff(s[0]);
    if n == 0 {
      BlankStops(s);
    }
  }

  lemma {:induction false} BlankStops(s: Bytes)
    requires s != [] && Blank(s) == 0
    ensures !IsSpace(s[0])
  {
  }

  lemma {:induction false} PiecesDerive(s: Bytes, base: nat, first: bool) returns (pieces: seq<Piece>, trailing: Bytes)
    requires Arguments(s, base).Ok? && (first || Ends(s))
    ensures ArePieces(pieces, first) && AllWhite(trailing) && s == PiecesText(pieces) + trailing
    decreases |s|
  {
    hide WordText, AllWhite, White, Blank, Arguments, IsWord;
    pieces, trailing := [], s;
    if Blank(s) == |s| {
      BlankIsWhite(s);
      assert s[..|s|] == s;
    } else {
      var x, m := PieceDerives(s, base);
      var more;
      more, trailing := PiecesDerive(s[m..], base + m, false);
      pieces := [x] + more;
      assert pieces[1..] == more;
      assert s == s[..m] + s[m..];
      assert (x.blank + WordText(x.word)) + (PiecesText(more) + trailing)
          == (x.blank + (WordText(x.word) + PiecesText(more))) + trailing;
    }
  }

  lemma {:induction false} WordIsThere(w: Word)
    ensures WordText(w) != [] ==> w.front != [] || !w.tail.Bare?
  {
  }

  /** A line is split exactly when it is words with white space between them, and then into their meanings at their places. */
  lemma {:induction false} SplitsExactlyLines(line: Bytes)
    ensures Arguments(line, 0).Ok? <==> exists pieces, trailing :: IsLine(line, pieces, trailing)
    ensures forall pieces, trailing :: IsLine(line, pieces, trailing) ==> Arguments(line, 0) == Ok(SpansOf(pieces, 0))
  {
    hide Arguments, ArePieces, AllWhite, PiecesText, SpansOf;
    forall pieces, trailing | IsLine(line, pieces, trailing) ensures Arguments(line, 0) == Ok(SpansOf(pieces, 0)) {
      PiecesRead(line, pieces, trailing, 0, true);
    }
    if Arguments(line, 0).Ok? {
      var pieces, trailing := PiecesDerive(line, 0, true);
      assert IsLine(line, pieces, trailing);
    }
  }
}
