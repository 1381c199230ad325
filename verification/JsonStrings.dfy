/**
  String tokens: `decode_string` of `pr-json`, over the octets between the quotes
  (section 7 of RFC 8259).
 */
module JsonStrings {
  import opened Prelude
  import opened Utf8

  const LOWER_U: Byte := 0x75
  const SLASH: Byte := 0x5C

  /** The character a two-octet escape stands for. */
  function ShortEscape(e: Byte): Option<Scalar> {
    if e == 0x22 then Some(0x22)
    else if e == 0x5C then Some(0x5C)
    else if e == 0x2F then Some(0x2F)
    else if e == 0x62 then Some(0x08)
    else if e == 0x66 then Some(0x0C)
    else if e == 0x6E then Some(0x0A)
    else if e == 0x72 then Some(0x0D)
    else if e == 0x74 then Some(0x09)
    else None
  }

  /** `u16::from_str_radix(_, 16)` on four octets, which also accepts a leading plus sign. */
  function Radix16(h: Bytes): Option<int>
    requires |h| == 4
  {
    if h[0] == 0x2B then
      if IsHexDigit(h[1]) && IsHexDigit(h[2]) && IsHexDigit(h[3])
      then Some(HexValue(h[1]) * 256 + HexValue(h[2]) * 16 + HexValue(h[3])) else None
    else
      if IsHexDigit(h[0]) && IsHexDigit(h[1]) && IsHexDigit(h[2]) && IsHexDigit(h[3])
      then Some(HexValue(h[0]) * 4096 + HexValue(h[1]) * 256 + HexValue(h[2]) * 16 + HexValue(h[3])) else None
  }

  predicate IsHigh(u: int) {
    0xD800 <= u < 0xDC00
  }

  predicate IsLow(u: int) {
    0xDC00 <= u < 0xE000
  }

  function FromPair(high: int, low: int): Scalar
    requires IsHigh(high) && IsLow(low)
  {
    0x10000 + (high - 0xD800) * 1024 + (low - 0xDC00)
  }

  /** One step of the decoding loop: the character at the front of `s` and the octets it took. */
  function DecodeOne(s: Bytes): (r: Option<Decoded>)
    requires s != []
    ensures r.Some? ==> 1 <= r.value.length <= |s|
  {
    if s[0] != SLASH then
      if !Valid(s) then None else First(s)
    else if |s| < 2 then None
    else if s[1] != LOWER_U then
      match ShortEscape(s[1])
      case None => None
      case Some(c) => Some(Decoded(c, 2))
    else if |s| < 6 then None
    else
      match Radix16(s[2..6])
      case None => None
      case Some(u) =>
        if IsHigh(u) then
          if |s| < 8 || s[6] != SLASH || s[7] != LOWER_U || |s| < 12 then None
          else
            match Radix16(s[8..12])
            case None => None
            case Some(l) => if IsLow(l) then Some(Decoded(FromPair(u, l), 12)) else None
        else if IsLow(u) then None
        else Some(Decoded(u, 6))
  }

  /** The decoding loop over the octets between the quotes. */
  function DecodeInner(s: Bytes): Option<Text>
    decreases |s|
  {
    if s == [] then Some([])
    else
      match DecodeOne(s)
      case None => None
      case Some(d) =>
        match DecodeInner(s[d.length..])
        case None => None
        case Some(rest) => Some([d.scalar] + rest)
  }

  /** `decode_string`: drops the first and last octet and decodes the rest. */
  function DecodeString(tok: Bytes): Option<Text> {
    if |tok| < 2 then None else DecodeInner(tok[1..|tok| - 1])
  }
}
