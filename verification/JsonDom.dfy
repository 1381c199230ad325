/**
  The lossless JSON tree of `pr-json` and the language its parser accepts (RFC 8259, sections 2 to 7),
  written as functions of a buffer and a position. `JsonParser` proves that the mutating parser
  computes exactly these functions; every later theorem is about them.
 */
module JsonDom {
  import opened Prelude
  import opened Utf8
  import opened JsonStrings

  // ---------------------------------------------------------------- tree

  /** A node and the half-open byte range it covers. */
  datatype Node = Node(start: int, end: int, kind: Kind)

  datatype Kind =
    | Null
    | Bool(truth: bool)
    | Number
    | String
    | Array(items: seq<Node>)
    | Object(members: seq<Member>)

  /** One member; `occurrence` is its 1-based rank among the `total` members sharing its key. */
  datatype Member = Member(keyStart: int, keyEnd: int, key: Text, occurrence: nat, total: nat, value: Node)

  /** A member as the parser first collects it, before occurrences are assigned. */
  datatype RawMember = RawMember(keyStart: int, keyEnd: int, key: Text, value: Node)

  datatype Document = Document(source: Bytes, root: Node)

  // ---------------------------------------------------------------- errors

  /** The messages of `JsonError::Syntax`. */
  datatype Fault =
    | ExpectedString | BadUnicodeEscape | BadEscape | ControlChar
    | ExpectedDigit | ExpectedFractionDigit | ExpectedExponentDigit
    | ExpectedNull | ExpectedTrue | ExpectedFalse
    | ExpectedCommaOrBracket | ExpectedCommaOrBrace | ExpectedColon
    | BadKeyEscape | UnexpectedToken

  /** The messages of `JsonError::BadPath`. */
  datatype PathFault =
    | EmptyMemberName | UnterminatedMember | ExpectedCloseBracket | ExpectedIndex | BadIndex
    | ExpectedDotOrBracket | ExpectedOccurrenceDigits | BadOccurrence | OccurrenceIsOneBased

  datatype JsonError =
    | Syntax(at: nat, fault: Fault)
    | Eof
    | DepthExceeded(max: nat)
    | Trailing(at: nat)
    | AmbiguousMember(name: Text, count: nat)
    | NoSuchPath
    | BadPath(why: PathFault)

  /** What a scan starting at a position yields: a value and the position after it. */
  datatype Parsed<+T> = Got(value: T, next: nat) | Fail(error: JsonError)

  // ---------------------------------------------------------------- tokens

  const QUOTE: Byte := 0x22
  const BACKSLASH: Byte := 0x5C
  const COMMA: Byte := 0x2C
  const COLON: Byte := 0x3A
  const OPEN_BRACKET: Byte := 0x5B
  const CLOSE_BRACKET: Byte := 0x5D
  const OPEN_BRACE: Byte := 0x7B
  const CLOSE_BRACE: Byte := 0x7D
  const MINUS: Byte := 0x2D
  const DOT: Byte := 0x2E

  const NULL: Bytes := [0x6E, 0x75, 0x6C, 0x6C]
  const TRUE: Bytes := [0x74, 0x72, 0x75, 0x65]
  const FALSE: Bytes := [0x66, 0x61, 0x6C, 0x73, 0x65]

  predicate IsWs(c: Byte) {
    c == 0x20 || c == 0x09 || c == 0x0A || c == 0x0D
  }

  function Ws(b: Bytes, i: nat): (j: nat)
    requires i <= |b|
    ensures i <= j <= |b|
    ensures j < |b| ==> !IsWs(b[j])
    decreases |b| - i
  {
    if i < |b| && IsWs(b[i]) then Ws(b, i + 1) else i
  }

  /** Everything `Ws` passes over is white space. */
  lemma {:induction false} WsBlank(b: Bytes, i: nat)
    requires i <= |b|
    ensures forall k :: i <= k < Ws(b, i) ==> IsWs(b[k])
    decreases |b| - i
  {
    if i < |b| && IsWs(b[i]) {
      WsBlank(b, i + 1);
    }
  }

  function Digits(b: Bytes, i: nat): (j: nat)
    requires i <= |b|
    ensures i <= j <= |b|
    ensures j < |b| ==> !IsDigit(b[j])
    decreases |b| - i
  {
    if i < |b| && IsDigit(b[i]) then Digits(b, i + 1) else i
  }

  function Literal(b: Bytes, i: nat, word: Bytes, kind: Kind, fault: Fault): (r: Parsed<Node>)
    requires i <= |b| && word != []
    ensures r.Got? ==> i < r.next <= |b|
  {
    if |b| >= i + |word| && b[i..i + |word|] == word then Got(Node(i, i + |word|, kind), i + |word|)
    else Fail(Syntax(i, fault))
  }

  /** `n` hexadecimal digits. */
  function HexRun(b: Bytes, i: nat, n: nat): (r: Parsed<()>)
    requires i <= |b|
    ensures r.Got? ==> r.next == i + n <= |b|
    decreases n
  {
    if n == 0 then Got((), i)
    else if i == |b| then Fail(Eof)
    else if !IsHexDigit(b[i]) then Fail(Syntax(i, BadUnicodeEscape))
    else HexRun(b, i + 1, n - 1)
  }

  predicate IsShortEscape(e: Byte) {
    ShortEscape(e).Some?
  }

  /** The rest of a string token, from just after the opening quote or a complete character. */
  function StringTail(b: Bytes, i: nat): (r: Parsed<()>)
    requires i <= |b|
    ensures r.Got? ==> i < r.next <= |b| && b[r.next - 1] == QUOTE
    decreases |b| - i
  {
    if i == |b| then Fail(Eof)
    else if b[i] == QUOTE then Got((), i + 1)
    else if b[i] == BACKSLASH then
      if i + 1 == |b| then Fail(Eof)
      else if b[i + 1] == LOWER_U then
        match HexRun(b, i + 2, 4)
        case Fail(e) => Fail(e)
        case Got(_, j) => StringTail(b, j)
      else if IsShortEscape(b[i + 1]) then StringTail(b, i + 2)
      else Fail(Syntax(i + 1, BadEscape))
    else if b[i] < 0x20 then Fail(Syntax(i, ControlChar))
    else StringTail(b, i + 1)
  }

  /** `Parser::string_span`: a whole string token. */
  function StringSpan(b: Bytes, i: nat): (r: Parsed<()>)
    requires i <= |b|
    ensures r.Got? ==> i + 1 < r.next <= |b| && b[i] == QUOTE && b[r.next - 1] == QUOTE
  {
    if i == |b| then Fail(Eof)
    else if b[i] != QUOTE then Fail(Syntax(i, ExpectedString))
    else StringTail(b, i + 1)
  }

  function IntPart(b: Bytes, i: nat): (r: Parsed<()>)
    requires i <= |b|
    ensures r.Got? ==> i < r.next <= |b|
  {
    if i == |b| then Fail(Eof)
    else if b[i] == 0x30 then Got((), i + 1)
    else if IsDigit(b[i]) then Got((), Digits(b, i))
    else Fail(Syntax(i, ExpectedDigit))
  }

  predicate At(b: Bytes, i: nat, c: Byte) {
    i < |b| && b[i] == c
  }

  function Fraction(b: Bytes, i: nat): (r: Parsed<()>)
    requires i <= |b|
    ensures r.Got? ==> i <= r.next <= |b|
  {
    if At(b, i, DOT) then
      var j := Digits(b, i + 1);
      if j == i + 1 then Fail(Syntax(j, ExpectedFractionDigit)) else Got((), j)
    else Got((), i)
  }

  predicate AtExponent(b: Bytes, i: nat) {
    At(b, i, 0x65) || At(b, i, 0x45)
  }

  function AfterSign(b: Bytes, i: nat): (j: nat)
    requires i <= |b|
    ensures i <= j <= |b|
  {
    if At(b, i, 0x2B) || At(b, i, MINUS) then i + 1 else i
  }

  function Exponent(b: Bytes, i: nat): (r: Parsed<()>)
    requires i <= |b|
    ensures r.Got? ==> i <= r.next <= |b|
  {
    if AtExponent(b, i) then
      var d := AfterSign(b, i + 1);
      var j := Digits(b, d);
      if j == d then Fail(Syntax(j, ExpectedExponentDigit)) else Got((), j)
    else Got((), i)
  }

  function AfterMinus(b: Bytes, i: nat): (j: nat)
    requires i <= |b|
    ensures i <= j <= |b|
  {
    if At(b, i, MINUS) then i + 1 else i
  }

  /** `Parser::number_span`: the longest number token (section 6 of RFC 8259). */
  function NumberSpan(b: Bytes, i: nat): (r: Parsed<()>)
    requires i <= |b|
    ensures r.Got? ==> i < r.next <= |b|
  {
    if i == |b| then Fail(Eof) else
    match IntPart(b, AfterMinus(b, i))
    case Fail(e) => Fail(e)
    case Got(_, j) =>
      match Fraction(b, j)
      case Fail(e) => Fail(e)
      case Got(_, k) => Exponent(b, k)
  }

  // ---------------------------------------------------------------- values

  /** A literal, string or number standing at `s`. */
  function Token(b: Bytes, s: nat): (r: Parsed<Node>)
    requires s < |b|
    ensures r.Got? ==> s < r.next <= |b|
  {
    if b[s] == 0x6E then Literal(b, s, NULL, Null, ExpectedNull)
    else if b[s] == 0x74 then Literal(b, s, TRUE, Bool(true), ExpectedTrue)
    else if b[s] == 0x66 then Literal(b, s, FALSE, Bool(false), ExpectedFalse)
    else if b[s] == QUOTE then
      match StringSpan(b, s)
      case Fail(e) => Fail(e)
      case Got(_, j) => Got(Node(s, j, String), j)
    else if b[s] == MINUS || IsDigit(b[s]) then
      match NumberSpan(b, s)
      case Fail(e) => Fail(e)
      case Got(_, j) => Got(Node(s, j, Number), j)
    else Fail(Syntax(s, UnexpectedToken))
  }

  /** `Parser::value`, entered with `depth` levels open. */
  function Value(b: Bytes, max: nat, depth: nat, i: nat): (r: Parsed<Node>)
    requires i <= |b|
    ensures r.Got? ==> i < r.next <= |b|
    decreases |b| - i, 0
  {
    if depth + 1 > max then Fail(DepthExceeded(max)) else
    var s := Ws(b, i);
    if s == |b| then Fail(Eof)
    else if b[s] == OPEN_BRACKET then ArrayAt(b, max, depth + 1, s)
    else if b[s] == OPEN_BRACE then ObjectAt(b, max, depth + 1, s)
    else Token(b, s)
  }

  /** The array whose bracket stands at `s`. */
  function ArrayAt(b: Bytes, max: nat, depth: nat, s: nat): (r: Parsed<Node>)
    requires s < |b|
    ensures r.Got? ==> s < r.next <= |b|
    decreases |b| - s - 1, 3
  {
    var k := Ws(b, s + 1);
    if k == |b| then Fail(Eof)
    else if b[k] == CLOSE_BRACKET then Got(Node(s, k + 1, Array([])), k + 1)
    else
      match Items(b, max, depth, k)
      case Fail(e) => Fail(e)
      case Got(items, j) => Got(Node(s, j, Array(items)), j)
  }

  /** The object whose brace stands at `s`. */
  function ObjectAt(b: Bytes, max: nat, depth: nat, s: nat): (r: Parsed<Node>)
    requires s < |b|
    ensures r.Got? ==> s < r.next <= |b|
    decreases |b| - s - 1, 3
  {
    var k := Ws(b, s + 1);
    if k == |b| then Fail(Eof)
    else if b[k] == CLOSE_BRACE then Got(Node(s, k + 1, Object([])), k + 1)
    else
      match Members(b, max, depth, k)
      case Fail(e) => Fail(e)
      case Got(raw, j) => Got(Node(s, j, Object(Numbered(raw))), j)
  }

  /** The items of an array, up to and including its closing bracket. */
  function Items(b: Bytes, max: nat, depth: nat, i: nat): (r: Parsed<seq<Node>>)
    requires i <= |b|
    ensures r.Got? ==> i < r.next <= |b| && r.value != []
    decreases |b| - i, 1
  {
    match Value(b, max, depth, i)
    case Fail(e) => Fail(e)
    case Got(v, j) =>
      var w := Ws(b, j);
      if w == |b| then Fail(Eof)
      else if b[w] == COMMA then
        match Items(b, max, depth, w + 1)
        case Fail(e) => Fail(e)
        case Got(rest, n) => Got([v] + rest, n)
      else if b[w] == CLOSE_BRACKET then Got([v], w + 1)
      else Fail(Syntax(w, ExpectedCommaOrBracket))
  }

  /** One `"key" : value` pair. */
  function Pair(b: Bytes, max: nat, depth: nat, i: nat): (r: Parsed<RawMember>)
    requires i <= |b|
    ensures r.Got? ==> i < r.next <= |b|
    decreases |b| - i, 1
  {
    var k := Ws(b, i);
    match StringSpan(b, k)
    case Fail(e) => Fail(e)
    case Got(_, j) =>
      match DecodeString(b[k..j])
      case None => Fail(Syntax(k, BadKeyEscape))
      case Some(key) =>
        var c := Ws(b, j);
        if c == |b| then Fail(Eof)
        else if b[c] != COLON then Fail(Syntax(c, ExpectedColon))
        else
          match Value(b, max, depth, c + 1)
          case Fail(e) => Fail(e)
          case Got(v, n) => Got(RawMember(k, j, key, v), n)
  }

  /** The members of an object, up to and including its closing brace. */
  function Members(b: Bytes, max: nat, depth: nat, i: nat): (r: Parsed<seq<RawMember>>)
    requires i <= |b|
    ensures r.Got? ==> i < r.next <= |b| && r.value != []
    decreases |b| - i, 2
  {
    match Pair(b, max, depth, i)
    case Fail(e) => Fail(e)
    case Got(m, j) =>
      var w := Ws(b, j);
      if w == |b| then Fail(Eof)
      else if b[w] == COMMA then
        match Members(b, max, depth, w + 1)
        case Fail(e) => Fail(e)
        case Got(rest, n) => Got([m] + rest, n)
      else if b[w] == CLOSE_BRACE then Got([m], w + 1)
      else Fail(Syntax(w, ExpectedCommaOrBrace))
  }

  /** How many of `raw` carry `key`. */
  function Count(raw: seq<RawMember>, key: Text): nat {
    if raw == [] then 0 else (if raw[0].key == key then 1 else 0) + Count(raw[1..], key)
  }

  function NumberOne(raw: seq<RawMember>, k: nat): Member
    requires k < |raw|
  {
    Member(raw[k].keyStart, raw[k].keyEnd, raw[k].key,
           Count(raw[..k + 1], raw[k].key), Count(raw, raw[k].key), raw[k].value)
  }

  /** Duplicates are kept in source order, and each learns which of how many it is. */
  function Numbered(raw: seq<RawMember>): (ms: seq<Member>)
    ensures |ms| == |raw|
    ensures forall k :: 0 <= k < |ms| ==> ms[k] == NumberOne(raw, k)
  {
    seq(|raw|, k requires 0 <= k < |raw| => NumberOne(raw, k))
  }

  /** `Document::parse`. */
  function ParseDocument(source: Bytes, max: nat): Result<Document, JsonError> {
    match Value(source, max, 0, 0)
    case Fail(e) => Err(e)
    case Got(root, j) =>
      var w := Ws(source, j);
      if w != |source| then Err(Trailing(w)) else Ok(Document(source, root))
  }

  /** `Document::raw`, total: positions outside the buffer give nothing. */
  function Raw(b: Bytes, n: Node): Bytes {
    if 0 <= n.start <= n.end <= |b| then b[n.start..n.end] else []
  }
}
