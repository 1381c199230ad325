/** Decoded RESP values of `pr-protocol`: scalars keep their bytes, maps keep their entry order. */
module RespValue {
  import opened Prelude
  import opened Decimal

  type I64 = n: int | -0x8000_0000_0000_0000 <= n < 0x8000_0000_0000_0000

  datatype NullForm = BulkForm | ArrayForm | Resp3Form

  datatype Value =
    | Simple(text: Bytes)
    | Error(text: Bytes)
    | Integer(number: I64)
    | Bulk(data: Bytes)
    | Null(form: NullForm)
    | Array(items: seq<Value>)
    | Boolean(truth: bool)
    | Double(lexeme: Bytes)
    | BigNumber(digits: Bytes)
    | BulkError(data: Bytes)
    | Verbatim(format: Bytes, data: Bytes)
    | Map(entries: seq<Entry>)
    | Set(items: seq<Value>)
    | Attribute(attrs: seq<Entry>, value: Value)
    | Push(items: seq<Value>)

  datatype Entry = Entry(key: Value, val: Value)

  function Max(a: nat, b: nat): nat {
    if a < b then b else a
  }

  /** `Value::depth`: scalars are 1. */
  function Depth(v: Value): (d: nat)
    ensures d >= 1
    decreases v, 0
  {
    match v
    case Array(items) => 1 + MaxDepth(items)
    case Set(items) => 1 + MaxDepth(items)
    case Push(items) => 1 + MaxDepth(items)
    case Map(entries) => 1 + MaxEntryDepth(entries)
    case Attribute(attrs, value) => 1 + Max(MaxEntryDepth(attrs), Depth(value))
    case _ => 1
  }

  function MaxDepth(items: seq<Value>): nat
    decreases items, 1
  {
    if items == [] then 0 else Max(Depth(items[0]), MaxDepth(items[1..]))
  }

  function EntryDepth(e: Entry): nat
    decreases e, 1
  {
    Max(Depth(e.key), Depth(e.val))
  }

  function MaxEntryDepth(entries: seq<Entry>): nat
    decreases entries, 2
  {
    if entries == [] then 0 else Max(EntryDepth(entries[0]), MaxEntryDepth(entries[1..]))
  }

  lemma {:induction false} DepthAtMostMax(items: seq<Value>, k: nat)
    requires k < |items|
    ensures Depth(items[k]) <= MaxDepth(items)
  {
    if k > 0 {
      DepthAtMostMax(items[1..], k - 1);
    }
  }

  lemma {:induction false} EntryDepthAtMostMax(entries: seq<Entry>, k: nat)
    requires k < |entries|
    ensures Depth(entries[k].key) <= MaxEntryDepth(entries) && Depth(entries[k].val) <= MaxEntryDepth(entries)
  {
    if k > 0 {
      EntryDepthAtMostMax(entries[1..], k - 1);
    }
  }

  /** `output::is_push`: a push, possibly behind attributes. */
  predicate IsPush(v: Value) {
    match v
    case Push(_) => true
    case Attribute(_, value) => IsPush(value)
    case _ => false
  }

  // ---------------------------------------------------------------- numerals on the wire

  function Numeral(n: int): (s: Bytes)
    ensures s != [] && s[0] != 0x0D && forall k :: 0 <= k < |s| ==> s[k] != 0x0D && s[k] != 0x0A
  {
    if n < 0 then Bytes1(0x2D) + Show(-n) else Show(n)
  }

  function Bytes1(b: Byte): Bytes {
    [b]
  }

  function NumeralValue(s: Bytes): int {
    if s != [] && s[0] == 0x2D then -DecimalValue(s[1..]) else DecimalValue(s)
  }

  predicate AllDigits(s: Bytes) {
    s != [] && forall k :: 0 <= k < |s| ==> '0' as int <= s[k] <= '9' as int
  }

  predicate Negative(s: Bytes) {
    s != [] && s[0] == '-' as int
  }

  /** A minus or nothing, and digits worth `n`, within 64 bits. */
  predicate IsNumeral(s: Bytes, n: int) {
    && -0x8000_0000_0000_0000 <= n < 0x8000_0000_0000_0000
    && if Negative(s) then AllDigits(s[1..]) && n == -DecimalValue(s[1..]) else AllDigits(s) && n == DecimalValue(s)
  }

  lemma {:induction false} NumeralRoundTrip(n: int)
    ensures NumeralValue(Numeral(n)) == n
  {
    if n < 0 {
      ValueOfShow(-n);
      assert Numeral(n)[1..] == Show(-n);
    } else {
      ValueOfShow(n);
    }
  }
}
