/** The bounded, resumable RESP decoder of `pr-protocol`. */
module Decoder {
  import opened Prelude
  import opened FloatSyntax
  import opened RespValue

  const CR: Byte := 0x0D
  const LF: Byte := 0x0A
  const MARK: Byte := 0x3F

  /** The length of something that fits in memory. */
  type Size = n: int | 0 <= n < 0x8000_0000_0000_0000

  datatype Budget = Budget(maxDepth: nat, maxElements: Size, maxBulkBytes: Size, maxFrameBytes: Size)

  /** Malformed framing, or a well-formed stream that is refused. The messages are not modelled. */
  datatype DecodeError = Protocol | OverBudget

  datatype Step<+T> = Got(value: T, end: nat) | More | Fail(error: DecodeError)

  // ---------------------------------------------------------------- lines and lengths

  function FirstBreak(b: Bytes, i: nat): (j: nat)
    requires i <= |b|
    ensures i <= j <= |b| && (j < |b| ==> b[j] == CR || b[j] == LF)
    ensures forall k :: i <= k < j ==> b[k] != CR && b[k] != LF
    decreases |b| - i
  {
    if i < |b| && b[i] != CR && b[i] != LF then FirstBreak(b, i + 1) else i
  }

  /** A line up to CR LF; a lone CR or LF in it is an error as soon as it is seen. */
  function Line(b: Bytes, pos: nat): (r: Step<Bytes>)
    requires pos <= |b|
    ensures r.Got? ==> pos < r.end <= |b|
  {
    var j := FirstBreak(b, pos);
    if j == |b| then More
    else if b[j] == LF then Fail(Protocol)
    else if j + 1 == |b| then More
    else if b[j + 1] != LF then Fail(Protocol)
    else Got(b[pos..j], j + 2)
  }

  predicate IsDigits(s: Bytes) {
    s != [] && forall k :: 0 <= k < |s| ==> IsDigit(s[k])
  }

  /** `parse_i64`: a minus and digits, within 64 bits. */
  function Integer64(s: Bytes): Option<I64> {
    var digits := if s != [] && s[0] == 0x2D then s[1..] else s;
    var n := NumeralValue(s);
    if IsDigits(digits) && -0x8000_0000_0000_0000 <= n < 0x8000_0000_0000_0000 then Some(n) else None
  }

  /** `parse_len`: minus one is the null form. */
  function Length(s: Bytes, cap: nat): Result<Option<nat>, DecodeError> {
    match Integer64(s)
    case None => Err(Protocol)
    case Some(n) =>
      if n == -1 then Ok(None)
      else if n < 0 then Err(Protocol)
      else if n > cap then Err(OverBudget)
      else Ok(Some(n))
  }

  predicate IsBigNumber(s: Bytes) {
    IsDigits(if s != [] && s[0] == 0x2D then s[1..] else s)
  }

  // ---------------------------------------------------------------- scalars

  function Scalar(tag: Byte, line: Bytes, end: nat): Step<Value> {
    if tag == 0x2B then Got(Simple(line), end)
    else if tag == 0x2D then Got(Error(line), end)
    else if tag == 0x3A then
      match Integer64(line)
      case None => Fail(Protocol)
      case Some(n) => Got(Integer(n), end)
    else if tag == 0x23 then
      if line == [0x74] then Got(Boolean(true), end)
      else if line == [0x66] then Got(Boolean(false), end)
      else Fail(Protocol)
    else if tag == 0x5F then if line == [] then Got(Null(Resp3Form), end) else Fail(Protocol)
    else if tag == 0x2C then if IsFloat(line) then Got(Double(line), end) else Fail(Protocol)
    else if IsBigNumber(line) then Got(BigNumber(line), end)
    else Fail(Protocol)
  }

  /** `n` octets and the CR LF behind them. */
  function Octets(b: Bytes, pos: nat, n: nat): (r: Step<Bytes>)
    requires pos <= |b|
    ensures r.Got? ==> pos < r.end <= |b| && |r.value| == n
  {
    if pos + n + 2 > |b| then More
    else if b[pos + n..pos + n + 2] != [CR, LF] then Fail(Protocol)
    else Got(b[pos..pos + n], pos + n + 2)
  }

  /** The chunks of a streamed bulk string, `taken` octets of which were read before. */
  function Chunks(b: Bytes, pos: nat, taken: nat, budget: Budget): (r: Step<Bytes>)
    requires pos <= |b|
    ensures r.Got? ==> pos < r.end <= |b|
    decreases |b| - pos
  {
    if pos == |b| then More
    else if b[pos] != 0x3B then Fail(Protocol)
    else
      match Line(b, pos + 1)
      case More => More
      case Fail(e) => Fail(e)
      case Got(line, at) =>
        match Length(line, budget.maxBulkBytes)
        case Err(e) => Fail(e)
        case Ok(None) => Fail(Protocol)
        case Ok(Some(n)) =>
          if n == 0 then Got([], at)
          else if taken + n > budget.maxBulkBytes then Fail(OverBudget)
          else
            match Octets(b, at, n)
            case More => More
            case Fail(e) => Fail(e)
            case Got(chunk, next) =>
              match Chunks(b, next, taken + n, budget)
              case More => More
              case Fail(e) => Fail(e)
              case Got(rest, end) => Got(chunk + rest, end)
  }

  /** Bulk strings, bulk errors and verbatim strings behind their header line. */
  function Blob(b: Bytes, tag: Byte, header: Bytes, at: nat, budget: Budget): (r: Step<Value>)
    requires at <= |b|
    ensures r.Got? ==> at <= r.end <= |b|
  {
    if tag == 0x24 && header == [MARK] then
      match Chunks(b, at, 0, budget)
      case More => More
      case Fail(e) => Fail(e)
      case Got(data, end) => Got(Bulk(data), end)
    else
      match Length(header, budget.maxBulkBytes)
      case Err(e) => Fail(e)
      case Ok(None) => Got(Null(BulkForm), at)
      case Ok(Some(n)) =>
        match Octets(b, at, n)
        case More => More
        case Fail(e) => Fail(e)
        case Got(data, end) =>
          if tag == 0x24 then Got(Bulk(data), end)
          else if tag == 0x21 then Got(BulkError(data), end)
          else if |data| < 4 || data[3] != 0x3A then Fail(Protocol)
          else Got(Verbatim(data[..3], data[4..]), end)
  }

  // ---------------------------------------------------------------- values

  predicate IsLineTag(tag: Byte) {
    tag == 0x2B || tag == 0x2D || tag == 0x3A || tag == 0x23 || tag == 0x5F || tag == 0x2C || tag == 0x28
  }

  predicate IsBlobTag(tag: Byte) {
    tag == 0x24 || tag == 0x21 || tag == 0x3D
  }

  predicate IsListTag(tag: Byte) {
    tag == 0x2A || tag == 0x7E || tag == 0x3E
  }

  function ListOf(tag: Byte, items: seq<Value>): Value {
    if tag == 0x7E then Set(items) else if tag == 0x3E then Push(items) else Array(items)
  }

  /** `parse_value`: one value from `pos` at nesting `depth`; `More` when the buffer ends inside it. */
  function ParseValue(b: Bytes, pos: nat, depth: nat, budget: Budget): (r: Step<Value>)
    requires pos <= |b|
    ensures r.Got? ==> pos < r.end <= |b|
    decreases |b| - pos, 0
  {
    if depth >= budget.maxDepth then Fail(OverBudget)
    else if pos == |b| then More
    else if !IsLineTag(b[pos]) && !IsBlobTag(b[pos]) && !IsListTag(b[pos]) && b[pos] != 0x25 && b[pos] != 0x7C
    then Fail(Protocol)
    else
      match Line(b, pos + 1)
      case More => More
      case Fail(e) => Fail(e)
      case Got(line, at) =>
        if IsLineTag(b[pos]) then Scalar(b[pos], line, at)
        else if IsBlobTag(b[pos]) then Blob(b, b[pos], line, at, budget)
        else if IsListTag(b[pos]) then ParseList(b, b[pos], line, at, depth, budget)
        else if b[pos] == 0x25 then ParseMap(b, line, at, depth, budget)
        else ParseAttribute(b, line, at, depth, budget)
  }

  function ParseList(b: Bytes, tag: Byte, header: Bytes, at: nat, depth: nat, budget: Budget): (r: Step<Value>)
    requires at <= |b|
    ensures r.Got? ==> at <= r.end <= |b|
    decreases |b| - at, 3
  {
    if header == [MARK] then
      match StreamItems(b, at, 0, depth + 1, budget)
      case More => More
      case Fail(e) => Fail(e)
      case Got(items, end) => Got(ListOf(tag, items), end)
    else
      match Length(header, budget.maxElements)
      case Err(e) => Fail(e)
      case Ok(None) => Got(Null(ArrayForm), at)
      case Ok(Some(n)) =>
        match Items(b, at, n, depth + 1, budget)
        case More => More
        case Fail(e) => Fail(e)
        case Got(items, end) => Got(ListOf(tag, items), end)
  }

  function ParseMap(b: Bytes, header: Bytes, at: nat, depth: nat, budget: Budget): (r: Step<Value>)
    requires at <= |b|
    ensures r.Got? ==> at <= r.end <= |b|
    decreases |b| - at, 3
  {
    if header == [MARK] then
      match StreamEntries(b, at, 0, depth + 1, budget)
      case More => More
      case Fail(e) => Fail(e)
      case Got(entries, end) => Got(Map(entries), end)
    else
      match Length(header, budget.maxElements)
      case Err(e) => Fail(e)
      case Ok(None) => Got(Null(ArrayForm), at)
      case Ok(Some(n)) =>
        match Entries(b, at, n, depth + 1, budget)
        case More => More
        case Fail(e) => Fail(e)
        case Got(entries, end) => Got(Map(entries), end)
  }

  function ParseAttribute(b: Bytes, header: Bytes, at: nat, depth: nat, budget: Budget): (r: Step<Value>)
    requires at <= |b|
    ensures r.Got? ==> at <= r.end <= |b|
    decreases |b| - at, 3
  {
    match Length(header, budget.maxElements)
    case Err(e) => Fail(e)
    case Ok(None) => Fail(Protocol)
    case Ok(Some(n)) =>
      match Entries(b, at, n, depth + 1, budget)
      case More => More
      case Fail(e) => Fail(e)
      case Got(attrs, next) =>
        match ParseValue(b, next, depth + 1, budget)
        case More => More
        case Fail(e) => Fail(e)
        case Got(value, end) => Got(Attribute(attrs, value), end)
  }

  /** Exactly `n` values. */
  function Items(b: Bytes, pos: nat, n: nat, depth: nat, budget: Budget): (r: Step<seq<Value>>)
    requires pos <= |b|
    ensures r.Got? ==> pos <= r.end <= |b|
    decreases |b| - pos, 1
  {
    if n == 0 then Got([], pos)
    else
      match ParseValue(b, pos, depth, budget)
      case More => More
      case Fail(e) => Fail(e)
      case Got(v, next) =>
        match Items(b, next, n - 1, depth, budget)
        case More => More
        case Fail(e) => Fail(e)
        case Got(rest, end) => Got([v] + rest, end)
  }

  /** One key and its value. */
  function ParsePair(b: Bytes, pos: nat, depth: nat, budget: Budget): (r: Step<Entry>)
    requires pos <= |b|
    ensures r.Got? ==> pos < r.end <= |b|
    decreases |b| - pos, 1
  {
    match ParseValue(b, pos, depth, budget)
    case More => More
    case Fail(e) => Fail(e)
    case Got(k, next) =>
      match ParseValue(b, next, depth, budget)
      case More => More
      case Fail(e) => Fail(e)
      case Got(v, end) => Got(Entry(k, v), end)
  }

  function Entries(b: Bytes, pos: nat, n: nat, depth: nat, budget: Budget): (r: Step<seq<Entry>>)
    requires pos <= |b|
    ensures r.Got? ==> pos <= r.end <= |b|
    decreases |b| - pos, 2
  {
    if n == 0 then Got([], pos)
    else
      match ParsePair(b, pos, depth, budget)
      case More => More
      case Fail(e) => Fail(e)
      case Got(entry, next) =>
        match Entries(b, next, n - 1, depth, budget)
        case More => More
        case Fail(e) => Fail(e)
        case Got(rest, end) => Got([entry] + rest, end)
  }

  /** The empty line that ends a streamed aggregate, from its dot. */
  function Terminator(b: Bytes, pos: nat): (r: Step<()>)
    requires pos < |b|
    ensures r.Got? ==> pos < r.end <= |b|
  {
    match Line(b, pos + 1)
    case More => More
    case Fail(e) => Fail(e)
    case Got(line, end) => if line == [] then Got((), end) else Fail(Protocol)
  }

  /** Values up to the terminator, `taken` of which were read before. */
  function StreamItems(b: Bytes, pos: nat, taken: nat, depth: nat, budget: Budget): (r: Step<seq<Value>>)
    requires pos <= |b|
    ensures r.Got? ==> pos <= r.end <= |b|
    decreases |b| - pos, 1
  {
    if pos == |b| then More
    else if b[pos] == 0x2E then
      match Terminator(b, pos)
      case More => More
      case Fail(e) => Fail(e)
      case Got(_, end) => Got([], end)
    else
      match ParseValue(b, pos, depth, budget)
      case More => More
      case Fail(e) => Fail(e)
      case Got(v, next) =>
        if taken + 1 > budget.maxElements then Fail(OverBudget)
        else
          match StreamItems(b, next, taken + 1, depth, budget)
          case More => More
          case Fail(e) => Fail(e)
          case Got(rest, end) => Got([v] + rest, end)
  }

  function StreamEntries(b: Bytes, pos: nat, taken: nat, depth: nat, budget: Budget): (r: Step<seq<Entry>>)
    requires pos <= |b|
    ensures r.Got? ==> pos <= r.end <= |b|
    decreases |b| - pos, 2
  {
    if pos == |b| then More
    else if b[pos] == 0x2E then
      match Terminator(b, pos)
      case More => More
      case Fail(e) => Fail(e)
      case Got(_, end) => Got([], end)
    else
      match ParsePair(b, pos, depth, budget)
      case More => More
      case Fail(e) => Fail(e)
      case Got(entry, next) =>
        if taken + 1 > budget.maxElements then Fail(OverBudget)
        else
          match StreamEntries(b, next, taken + 1, depth, budget)
          case More => More
          case Fail(e) => Fail(e)
          case Got(rest, end) => Got([entry] + rest, end)
  }

  // ---------------------------------------------------------------- the decoder

  /** What one attempt to decode the buffer gives. */
  function Attempt(buf: Bytes, budget: Budget): (r: Step<Value>)
    ensures r.Got? ==> 0 < r.end <= |buf|
  {
    if |buf| > budget.maxFrameBytes then Fail(OverBudget) else ParseValue(buf, 0, 0, budget)
  }

  class Decoder {
    var buf: Bytes
    const budget: Budget

    constructor (budget: Budget)
      ensures this.budget == budget && buf == []
    {
      this.budget, buf := budget, [];
    }

    method Feed(bytes: Bytes)
      modifies this
      ensures buf == old(buf) + bytes
    {
      buf := buf + bytes;
    }

    /** A complete value leaves the buffer; an incomplete one and an error leave it as it is. */
    method Decode() returns (r: Step<Value>)
      modifies this
      ensures r == Attempt(old(buf), budget)
      ensures buf == if r.Got? then old(buf)[r.end..] else old(buf)
    {
      if |buf| > budget.maxFrameBytes {
        return Fail(OverBudget);
      }
      r := ParseValue(buf, 0, 0, budget);
      if r.Got? {
        buf := buf[r.end..];
      }
    }
  }
}
