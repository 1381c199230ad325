/** The text of a versioned file: a header line with the version, and the body behind it. */
module VersionedText {
  import opened Prelude
  import opened Utf8
  import opened Decimal

  const U64_LIMIT: int := 0x1_0000_0000_0000_0000

  /** An unsigned 64-bit counter. */
  type U64 = n: int | 0 <= n < U64_LIMIT

  const NEWLINE: Scalar := 0x0A
  const PLUS: Scalar := 0x2B

  /** `# penguin-version: ` */
  const HEADER: Text :=
    [0x23, 0x20, 0x70, 0x65, 0x6E, 0x67, 0x75, 0x69, 0x6E, 0x2D, 0x76, 0x65, 0x72, 0x73, 0x69, 0x6F, 0x6E, 0x3A, 0x20]

  datatype Versioned = Versioned(version: U64, body: Text)

  /** `version + 1` as a release build computes it. */
  function Succ(v: U64): U64 {
    (v + 1) % U64_LIMIT
  }

  function Numeral(v: U64): Text {
    Show(v)
  }

  function Print(version: U64, body: Text): Text {
    HEADER + Numeral(version) + [NEWLINE] + body
  }

  // ---------------------------------------------------------------- reading

  /** Up to the first newline, and what is behind it. */
  function SplitLine(t: Text): (r: (Text, Text))
    ensures t != [] ==> |r.1| < |t|
  {
    if t == [] then ([], [])
    else if t[0] == NEWLINE then ([], t[1..])
    else var rest := SplitLine(t[1..]); ([t[0]] + rest.0, rest.1)
  }

  /** Unicode's White_Space property. */
  predicate IsSpace(c: Scalar) {
    || 0x09 <= c <= 0x0D || c == 0x20 || c == 0x85 || c == 0xA0 || c == 0x1680 || 0x2000 <= c <= 0x200A
    || c == 0x2028 || c == 0x2029 || c == 0x202F || c == 0x205F || c == 0x3000
  }

  function TrimStart(t: Text): (r: Text)
    ensures |r| <= |t|
  {
    if t != [] && IsSpace(t[0]) then TrimStart(t[1..]) else t
  }

  function TrimEnd(t: Text): (r: Text)
    ensures |r| <= |t|
  {
    if t != [] && IsSpace(t[|t| - 1]) then TrimEnd(t[..|t| - 1]) else t
  }

  predicate IsDecimal(t: Text) {
    t != [] && forall k :: 0 <= k < |t| ==> 0x30 <= t[k] <= 0x39
  }

  /** `u64::from_str`: an optional plus, digits, and no overflow. */
  function ParseU64(t: Text): Option<U64> {
    var digits := if |t| > 1 && t[0] == PLUS then t[1..] else t;
    if !IsDecimal(digits) then None
    else
      var n := DecimalValue(digits);
      if 0 <= n < U64_LIMIT then Some(n) else None
  }

  function Parse(t: Text): Option<Versioned> {
    var (first, rest) := SplitLine(t);
    if !(HEADER <= first) then None
    else
      match ParseU64(TrimEnd(TrimStart(first[|HEADER|..])))
      case None => None
      case Some(v) => Some(Versioned(v, rest))
  }

  // ---------------------------------------------------------------- reading what was printed

  lemma {:induction false} SplitLineOf(line: Text, rest: Text)
    requires NEWLINE !in line
    ensures SplitLine(line + [NEWLINE] + rest) == (line, rest)
  {
    var t := line + [NEWLINE] + rest;
    if line == [] {
      assert t[1..] == rest;
    } else {
      assert t[1..] == line[1..] + [NEWLINE] + rest;
      SplitLineOf(line[1..], rest);
      assert line == [line[0]] + line[1..];
    }
  }

  lemma {:induction false} NumeralIsDigits(v: U64)
    ensures Numeral(v) != [] && forall k :: 0 <= k < |Numeral(v)| ==> 0x30 <= Numeral(v)[k] <= 0x39
  {
  }

  lemma {:induction false} NumeralParses(v: U64)
    ensures TrimEnd(TrimStart(Numeral(v))) == Numeral(v) && ParseU64(Numeral(v)) == Some(v)
  {
    NumeralIsDigits(v);
    ValueOfShow(v);
  }

  /** Reading a printed file gives back its version and its body, whatever the body holds. */
  lemma {:induction false} ParseInvertsPrint(v: U64, body: Text)
    ensures Parse(Print(v, body)) == Some(Versioned(v, body))
  {
    hide Show, TrimStart, TrimEnd, ParseU64, SplitLine;
    var line := HEADER + Numeral(v);
    NumeralIsDigits(v);
    SplitLineOf(line, body);
    assert line[|HEADER|..] == Numeral(v);
    NumeralParses(v);
  }

  // ---------------------------------------------------------------- what can be read

  /** The characters with Unicode's White_Space property, as PropList.txt lists them. */
  const WHITE: set<Scalar> :=
    {0x09, 0x0A, 0x0B, 0x0C, 0x0D, 0x20, 0x85, 0xA0, 0x1680, 0x2000, 0x2001, 0x2002, 0x2003, 0x2004, 0x2005, 0x2006,
     0x2007, 0x2008, 0x2009, 0x200A, 0x2028, 0x2029, 0x202F, 0x205F, 0x3000}

  /** The parts of a versioned text: white space, a plus or nothing, digits, white space, and the body behind a newline. */
  datatype Parts = Parts(lead: Text, plus: bool, digits: Text, trail: Text, body: Option<Text>)

  predicate White(t: Text) {
    forall k :: 0 <= k < |t| ==> t[k] in WHITE && t[k] != 0x0A
  }

  predicate IsVersion(digits: Text, v: U64) {
    && digits != [] && (forall k :: 0 <= k < |digits| ==> 0x30 <= digits[k] <= 0x39)
    && DecimalValue(digits) == v
  }

  /** The text made of these parts; no newline ends it where there is no body. */
  function Assembled(p: Parts): Text {
    Ascii("# penguin-version: ") + (p.lead + (if p.plus then Ascii("+") else []) + p.digits + p.trail)
    + (if p.body.None? then [] else [0x0A] + p.body.value)
  }

  predicate Spells(p: Parts, v: U64, body: Text) {
    White(p.lead) && White(p.trail) && IsVersion(p.digits, v) && body == if p.body.None? then [] else p.body.value
  }

  lemma {:induction false} HeaderIsWritten()
    ensures HEADER == Ascii("# penguin-version: ")
    ensures NEWLINE !in HEADER
  {
  }

  lemma {:induction false} WhiteIsSpace(c: Scalar)
    ensures IsSpace(c) <==> c in WHITE
  {
  }

  lemma {:induction false} TrimStartWhite(lead: Text, rest: Text)
    requires White(lead) && (rest != [] ==> !IsSpace(rest[0]))
    ensures TrimStart(lead + rest) == rest
  {
    hide IsSpace, WHITE;
    if lead == [] {
      assert lead + rest == rest;
    } else {
      WhiteIsSpace(lead[0]);
      assert (lead + rest)[1..] == lead[1..] + rest;
      TrimStartWhite(lead[1..], rest);
    }
  }

  lemma {:induction false} TrimEndWhite(front: Text, trail: Text)
    requires White(trail) && (front != [] ==> !IsSpace(front[|front| - 1]))
    ensures TrimEnd(front + trail) == front
    decreases |trail|
  {
    hide IsSpace, WHITE;
    if trail == [] {
      assert front + trail == front;
    } else {
      var n := |trail| - 1;
      WhiteIsSpace(trail[n]);
      assert (front + trail)[..|front| + n] == front + trail[..n];
      TrimEndWhite(front, trail[..n]);
    }
  }

  lemma {:induction false} TrimStartSplits(t: Text) returns (lead: Text)
    requires NEWLINE !in t
    ensures White(lead) && t == lead + TrimStart(t)
  {
    hide IsSpace, WHITE;
    lead := [];
    if t != [] && IsSpace(t[0]) {
      WhiteIsSpace(t[0]);
      var rest := TrimStartSplits(t[1..]);
      lead := [t[0]] + rest;
      assert t == [t[0]] + t[1..];
    }
  }

  lemma {:induction false} TrimEndSplits(t: Text) returns (trail: Text)
    requires NEWLINE !in t
    ensures White(trail) && t == TrimEnd(t) + trail
    decreases |t|
  {
    hide IsSpace, WHITE;
    trail := [];
    if t != [] && IsSpace(t[|t| - 1]) {
      var n := |t| - 1;
      WhiteIsSpace(t[n]);
      var rest := TrimEndSplits(t[..n]);
      trail := rest + [t[n]];
      assert t == t[..n] + [t[n]];
    } else {
      assert t == t + [];
    }
  }

  lemma {:induction false} SplitLineJoins(t: Text)
    ensures var (first, rest) := SplitLine(t);
            NEWLINE !in first && (t == first + [NEWLINE] + rest || (t == first && rest == []))
  {
    if t != [] {
      if t[0] != NEWLINE {
        SplitLineJoins(t[1..]);
      }
      assert t == [t[0]] + t[1..];
    }
  }

  lemma {:induction false} SplitLineAlone(line: Text)
    requires NEWLINE !in line
    ensures SplitLine(line) == (line, [])
  {
    if line != [] {
      SplitLineAlone(line[1..]);
      assert line == [line[0]] + line[1..];
    }
  }

  lemma {:induction false} ParseOnce(t: Text, behind: Text, rest: Text)
    requires SplitLine(t) == (HEADER + behind, rest)
    ensures Parse(t) == match ParseU64(TrimEnd(TrimStart(behind))) case None => None case Some(v) => Some(Versioned(v, rest))
  {
    hide SplitLine, TrimStart, TrimEnd, ParseU64;
    assert (HEADER + behind)[|HEADER|..] == behind;
  }

  lemma {:induction false} NumberParses(plus: bool, digits: Text, v: U64)
    requires IsVersion(digits, v)
    ensures ParseU64((if plus then Ascii("+") else []) + digits) == Some(v)
  {
    hide DecimalValue;
    var number := (if plus then Ascii("+") else []) + digits;
    assert plus ==> number[1..] == digits && number[0] == PLUS;
    assert !plus ==> number == digits;
  }

  lemma {:induction false} InnerParses(p: Parts, v: U64)
    requires White(p.lead) && White(p.trail) && IsVersion(p.digits, v)
    ensures ParseU64(TrimEnd(TrimStart(p.lead + (if p.plus then Ascii("+") else []) + p.digits + p.trail))) == Some(v)
  {
    hide TrimStart, TrimEnd, WHITE, DecimalValue, IsSpace, ParseU64;
    var number := (if p.plus then Ascii("+") else []) + p.digits;
    assert p.lead + (if p.plus then Ascii("+") else []) + p.digits + p.trail == p.lead + (number + p.trail);
    NumberStandsOut(p.plus, p.digits);
    TrimStartWhite(p.lead, number + p.trail);
    TrimEndWhite(number, p.trail);
    NumberParses(p.plus, p.digits, v);
  }

  lemma {:induction false} InnerIsOneLine(p: Parts, v: U64)
    requires White(p.lead) && White(p.trail) && IsVersion(p.digits, v)
    ensures NEWLINE !in p.lead + (if p.plus then Ascii("+") else []) + p.digits + p.trail
  {
    hide WHITE, DecimalValue;
  }

  /** A text that was assembled is read as what its parts say. */
  lemma {:induction false} AssembledParses(p: Parts, v: U64, body: Text)
    requires Spells(p, v, body)
    ensures Parse(Assembled(p)) == Some(Versioned(v, body))
  {
    hide SplitLine, Parse, ParseU64, TrimStart, TrimEnd, White, IsVersion, Ascii;
    HeaderIsWritten();
    var behind := p.lead + (if p.plus then Ascii("+") else []) + p.digits + p.trail;
    InnerIsOneLine(p, v);
    InnerParses(p, v);
    var line := HEADER + behind;
    if p.body.None? {
      assert Assembled(p) == line;
      SplitLineAlone(line);
    } else {
      assert Assembled(p) == line + [NEWLINE] + p.body.value;
      SplitLineOf(line, p.body.value);
    }
    ParseOnce(Assembled(p), behind, body);
  }

  lemma {:induction false} NumberStandsOut(plus: bool, digits: Text)
    requires digits != [] && forall k :: 0 <= k < |digits| ==> 0x30 <= digits[k] <= 0x39
    ensures var number := (if plus then Ascii("+") else []) + digits;
            && number != [] && !IsSpace(number[0]) && !IsSpace(number[|number| - 1]) && number[0] != NEWLINE
            && (plus <==> number[0] == PLUS)
  {
  }

  lemma {:induction false} ParsedHasHeader(t: Text) returns (behind: Text)
    requires Parse(t).Some?
    ensures SplitLine(t).0 == HEADER + behind && NEWLINE !in behind
  {
    hide SplitLine, TrimStart, TrimEnd, ParseU64;
    SplitLineJoins(t);
    var first := SplitLine(t).0;
    behind := first[|HEADER|..];
    assert first == HEADER + behind;
    assert forall k :: 0 <= k < |behind| ==> behind[k] == first[|HEADER| + k];
  }

  lemma {:induction false} NumberSplits(number: Text) returns (plus: bool, digits: Text)
    requires ParseU64(number).Some?
    ensures number == (if plus then Ascii("+") else []) + digits && IsVersion(digits, ParseU64(number).value)
  {
    hide DecimalValue, Ascii;
    plus := |number| > 1 && number[0] == PLUS;
    if plus {
      digits := number[1..];
      assert number == Ascii("+") + digits;
    } else {
      digits := number;
      assert number == [] + digits;
    }
  }

  /** A text that is read was assembled. */
  lemma {:induction false} ParsedIsAssembled(t: Text) returns (p: Parts)
    requires Parse(t).Some?
    ensures t == Assembled(p) && Spells(p, Parse(t).value.version, Parse(t).value.body)
  {
    hide SplitLine, Parse, TrimStart, TrimEnd, White, IsVersion, ParseU64, Ascii;
    HeaderIsWritten();
    SplitLineJoins(t);
    var (first, rest) := SplitLine(t);
    var behind := ParsedHasHeader(t);
    ParseOnce(t, behind, rest);
    var lead := TrimStartSplits(behind);
    var inner := TrimStart(behind);
    assert forall k :: 0 <= k < |inner| ==> inner[k] == behind[|lead| + k];
    var trail := TrimEndSplits(inner);
    var plus, digits := NumberSplits(TrimEnd(inner));
    p := Parts(lead, plus, digits, trail, if t == first then None else Some(rest));
    assert behind == lead + (if plus then Ascii("+") else []) + digits + trail;
    assert t != first ==> t == HEADER + behind + [0x0A] + rest;
  }

  /** Exactly the texts that are read, and as what. */
  lemma {:induction false} ParseExactly(t: Text, v: U64, body: Text)
    ensures Parse(t) == Some(Versioned(v, body)) <==> exists p :: t == Assembled(p) && Spells(p, v, body)
  {
    hide Parse, Assembled, Spells;
    if Parse(t) == Some(Versioned(v, body)) {
      var p := ParsedIsAssembled(t);
    }
    if p :| t == Assembled(p) && Spells(p, v, body) {
      AssembledParses(p, v, body);
    }
  }

  /** What another program wrote without the header is never read. */
  lemma {:induction false} NoHeaderNoVersion(t: Text)
    requires !(Ascii("# penguin-version: ") <= t)
    ensures Parse(t) == None
  {
    hide Parse, SplitLine;
    if Parse(t).Some? {
      HeaderIsWritten();
      SplitLineJoins(t);
      var behind := ParsedHasHeader(t);
    }
  }
}
