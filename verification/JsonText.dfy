/**
  JSON text as the printers of `pr-application` write it: no white space, strings escaped by
  `json_string`. Whatever they print, the parser of `pr-json` reads back.
 */
module JsonText {
  import opened Prelude
  import opened Utf8
  import opened JsonStrings
  import opened JsonDom

  /** The content of a document, with numbers as lexemes and duplicate members kept. */
  datatype Json =
    | JNull
    | JBool(truth: bool)
    | JNumber(lexeme: Bytes)
    | JString(text: Text)
    | JArray(items: seq<Json>)
    | JObject(members: seq<JMember>)

  datatype JMember = JMember(key: Text, value: Json)

  // ---------------------------------------------------------------- printing

  function LowerHex(v: int): Byte
    requires 0 <= v < 16
  {
    if v < 10 then 0x30 + v else 0x57 + v
  }

  /** What `json_string` writes for one character. */
  function EscapeChar(c: Scalar): (p: Bytes)
    ensures p != []
  {
    if c == 0x22 then [0x5C, 0x22]
    else if c == 0x5C then [0x5C, 0x5C]
    else if c == 0x0A then [0x5C, 0x6E]
    else if c == 0x0D then [0x5C, 0x72]
    else if c == 0x09 then [0x5C, 0x74]
    else if c < 0x20 then [0x5C, 0x75, 0x30, 0x30, LowerHex(c / 16), LowerHex(c % 16)]
    else Encode(c)
  }

  function EscapeAll(t: Text): Bytes {
    if t == [] then [] else EscapeChar(t[0]) + EscapeAll(t[1..])
  }

  /** `json_string`. */
  function JsonString(t: Text): Bytes {
    [QUOTE] + EscapeAll(t) + [QUOTE]
  }

  function PrintJson(j: Json): (s: Bytes)
    decreases j, 0
  {
    match j
    case JNull => NULL
    case JBool(t) => if t then TRUE else FALSE
    case JNumber(lexeme) => lexeme
    case JString(t) => JsonString(t)
    case JArray(items) => [OPEN_BRACKET] + PrintItems(items) + [CLOSE_BRACKET]
    case JObject(members) => [OPEN_BRACE] + PrintMembers(members) + [CLOSE_BRACE]
  }

  /** The items joined with commas. */
  function PrintItems(items: seq<Json>): Bytes
    decreases items, 1
  {
    if items == [] then []
    else if |items| == 1 then PrintJson(items[0])
    else PrintJson(items[0]) + [COMMA] + PrintItems(items[1..])
  }

  function PrintMember(m: JMember): Bytes
    decreases m, 1
  {
    JsonString(m.key) + [COLON] + PrintJson(m.value)
  }

  function PrintMembers(members: seq<JMember>): Bytes
    decreases members, 2
  {
    if members == [] then []
    else if |members| == 1 then PrintMember(members[0])
    else PrintMember(members[0]) + [COMMA] + PrintMembers(members[1..])
  }

  // ---------------------------------------------------------------- reading

  /** The content of a parsed node; `None` when some string of it does not decode. */
  function ReadJson(b: Bytes, n: Node): Option<Json>
    decreases n, 0
  {
    match n.kind
    case Null => Some(JNull)
    case Bool(t) => Some(JBool(t))
    case Number => Some(JNumber(Raw(b, n)))
    case String =>
      (match DecodeString(Raw(b, n))
       case None => None
       case Some(t) => Some(JString(t)))
    case Array(items) =>
      (match ReadItems(b, items)
       case None => None
       case Some(js) => Some(JArray(js)))
    case Object(ms) =>
      (match ReadMembers(b, ms)
       case None => None
       case Some(js) => Some(JObject(js)))
  }

  function ReadItems(b: Bytes, items: seq<Node>): Option<seq<Json>>
    decreases items, 1
  {
    if items == [] then Some([])
    else
      match (ReadJson(b, items[0]), ReadItems(b, items[1..]))
      case (Some(j), Some(rest)) => Some([j] + rest)
      case _ => None
  }

  function ReadMembers(b: Bytes, ms: seq<Member>): Option<seq<JMember>>
    decreases ms, 1
  {
    if ms == [] then Some([])
    else
      match (ReadJson(b, ms[0].value), ReadMembers(b, ms[1..]))
      case (Some(j), Some(rest)) => Some([JMember(ms[0].key, j)] + rest)
      case _ => None
  }

  function ReadRaws(b: Bytes, raw: seq<RawMember>): Option<seq<JMember>> {
    if raw == [] then Some([])
    else
      match (ReadJson(b, raw[0].value), ReadRaws(b, raw[1..]))
      case (Some(j), Some(rest)) => Some([JMember(raw[0].key, j)] + rest)
      case _ => None
  }

  // ---------------------------------------------------------------- what can be printed

  /** `lexeme` is one number of section 6 of RFC 8259. */
  predicate IsNumber(lexeme: Bytes) {
    NumberSpan(lexeme, 0).Got? && NumberSpan(lexeme, 0).next == |lexeme|
  }

  predicate Lexical(j: Json)
    decreases j
  {
    match j
    case JNumber(lexeme) => IsNumber(lexeme)
    case JArray(items) => forall k :: 0 <= k < |items| ==> Lexical(items[k])
    case JObject(members) => forall k :: 0 <= k < |members| ==> Lexical(members[k].value)
    case _ => true
  }

  /** `j` opens at most `budget` levels. */
  predicate Levels(j: Json, budget: int)
    decreases j
  {
    budget >= 1 &&
    match j
    case JArray(items) => forall k :: 0 <= k < |items| ==> Levels(items[k], budget - 1)
    case JObject(members) => forall k :: 0 <= k < |members| ==> Levels(members[k].value, budget - 1)
    case _ => true
  }
}
