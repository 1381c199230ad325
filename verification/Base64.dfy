/** Base64 with padding (section 4 of RFC 4648), as `output::base64` computes it. */
module Base64 {
  import opened Prelude

  const PAD: Byte := 0x3D

  /** The 64-character alphabet. */
  function Symbol(k: int): (c: Byte)
    requires 0 <= k < 64
    ensures c != PAD && 0x20 <= c < 0x80 && c != 0x22 && c != 0x5C
  {
    if k < 26 then 0x41 + k else if k < 52 then 0x61 + (k - 26) else if k < 62 then 0x30 + (k - 52) else if k == 62 then 0x2B else 0x2F
  }

  function SymbolValue(c: Byte): (v: Option<int>)
    ensures v.Some? ==> 0 <= v.value < 64
  {
    if 'A' as int <= c <= 'Z' as int then Some(c - 'A' as int)
    else if 'a' as int <= c <= 'z' as int then Some(c - 'a' as int + 26)
    else if '0' as int <= c <= '9' as int then Some(c - '0' as int + 52)
    else if c == '+' as int then Some(62)
    else if c == '/' as int then Some(63)
    else None
  }

  lemma {:induction false} SymbolRoundTrip(k: int)
    requires 0 <= k < 64
    ensures SymbolValue(Symbol(k)) == Some(k)
  {
  }

  /** Twenty-four bits from up to three octets, missing ones read as zero. */
  function Pack(chunk: Bytes): (n: int)
    requires 1 <= |chunk| <= 3
    ensures 0 <= n < 0x100_0000
  {
    Bits(chunk[0], if |chunk| > 1 then chunk[1] else 0, if |chunk| > 2 then chunk[2] else 0)
  }

  function Bits(a: int, b: int, c: int): int {
    a * 65536 + b * 256 + c
  }

  /** The four characters of one chunk. */
  function Quad(chunk: Bytes): (q: Bytes)
    requires 1 <= |chunk| <= 3
    ensures |q| == 4
  {
    var n := Pack(chunk);
    [Symbol(n / 262144 % 64), Symbol(n / 4096 % 64),
     if |chunk| > 1 then Symbol(n / 64 % 64) else PAD,
     if |chunk| > 2 then Symbol(n % 64) else PAD]
  }

  function Encode64(input: Bytes): (s: Bytes)
    decreases |input|
  {
    if input == [] then []
    else if |input| <= 3 then Quad(input)
    else Quad(input[..3]) + Encode64(input[3..])
  }

  /** Four characters for every started group of three octets. */
  lemma {:induction false} Base64Length(input: Bytes)
    ensures |Encode64(input)| == (|input| + 2) / 3 * 4
    decreases |input|
  {
    hide Quad;
    if |input| > 3 {
      Base64Length(input[3..]);
    }
  }

  lemma {:induction false} EncodeStep(s: Bytes, k: nat)
    requires s != [] && k == if |s| < 3 then |s| else 3
    ensures Encode64(s) == Quad(s[..k]) + Encode64(s[k..])
  {
    hide Quad;
    if |s| <= 3 {
      assert s[..k] == s && s[k..] == [];
      assert Encode64([]) == [] && Quad(s) + [] == Quad(s);
    }
  }

  /** The loop over chunks that `output::base64` runs. */
  method EncodeChunks(input: Bytes) returns (out: Bytes)
    ensures out == Encode64(input)
  {
    hide Quad;
    out := [];
    var i := 0;
    assert input[0..] == input;
    while i < |input|
      invariant 0 <= i <= |input|
      invariant Encode64(input) == out + Encode64(input[i..])
    {
      var end := if i + 3 <= |input| then i + 3 else |input|;
      var chunk := input[i..end];
      EncodeStep(input[i..], |chunk|);
      assert input[i..][|chunk|..] == input[end..];
      assert input[i..][..|chunk|] == chunk;
      out := out + Quad(chunk);
      i := end;
    }
  }

  /** Reads one quad; padding may stand for the last one or two octets. */
  function Unquad(q: Bytes): Option<Bytes>
    requires |q| == 4
  {
    match (SymbolValue(q[0]), SymbolValue(q[1]))
    case (Some(a), Some(b)) =>
      if q[2] == '=' as int && q[3] == '=' as int then Some(Unpack(a * 262144 + b * 4096, 1))
      else
        (match (SymbolValue(q[2]), SymbolValue(q[3]))
         case (Some(c), Some(d)) => Some(Unpack(a * 262144 + b * 4096 + c * 64 + d, 3))
         case (Some(c), None) => if q[3] == '=' as int then Some(Unpack(a * 262144 + b * 4096 + c * 64, 2)) else None
         case _ => None)
    case _ => None
  }

  /** The first `count` of the three octets in twenty-four bits. */
  function Unpack(n: int, count: nat): Bytes
    requires 0 <= n < 0x100_0000 && 1 <= count <= 3
  {
    [n / 65536, n / 256 % 256, n % 256][..count]
  }

  function Decode64(s: Bytes): Option<Bytes>
    decreases |s|
  {
    if s == [] then Some([])
    else if |s| < 4 then None
    else
      match (Unquad(s[..4]), Decode64(s[4..]))
      case (Some(chunk), Some(rest)) => Some(chunk + rest)
      case _ => None
  }

  lemma {:induction false} Sextets(n: int)
    requires 0 <= n < 0x100_0000
    ensures n == n / 262144 % 64 * 262144 + n / 4096 % 64 * 4096 + n / 64 % 64 * 64 + n % 64
  {
    var x := n / 64;
    var y := x / 64;
    assert n / 4096 == y && n / 262144 == y / 64;
    assert n == x * 64 + n % 64 && x == y * 64 + x % 64 && y == y / 64 * 64 + y % 64;
  }

  lemma {:induction false} Octets(a: Byte, b: Byte, c: Byte)
    ensures var n := a * 65536 + b * 256 + c; n / 65536 == a && n / 256 % 256 == b && n % 256 == c
  {
  }

  /** Octets that are missing leave the sextets they would fill at zero. */
  lemma {:induction false} MissingOctets(a: Byte, b: Byte)
    ensures var n := a * 65536; n / 64 % 64 == 0 && n % 64 == 0
    ensures var n := a * 65536 + b * 256; n % 64 == 0
  {
    var n := a * 65536 + b * 256;
    assert n == (a * 1024 + b * 4) * 64;
    var m := a * 65536;
    assert m == a * 1024 * 64 && m / 64 == a * 16 * 64;
  }

  /** The octets of a chunk, out of its twenty-four bits; where octets are missing the last sextets are zero. */
  lemma {:induction false} UnpackOfPack(chunk: Bytes)
    requires 1 <= |chunk| <= 3
    ensures var n := Pack(chunk);
            && n == n / 262144 % 64 * 262144 + n / 4096 % 64 * 4096 + n / 64 % 64 * 64 + n % 64
            && (|chunk| < 3 ==> n % 64 == 0) && (|chunk| < 2 ==> n / 64 % 64 == 0) && Unpack(n, |chunk|) == chunk
  {
    var n := Pack(chunk);
    var b1, b2: Byte := if |chunk| > 1 then chunk[1] else 0, if |chunk| > 2 then chunk[2] else 0;
    Octets(chunk[0], b1, b2);
    Sextets(n);
    MissingOctets(chunk[0], b1);
  }

  lemma {:induction false} QuadRoundTrip(chunk: Bytes)
    requires 1 <= |chunk| <= 3
    ensures Unquad(Quad(chunk)) == Some(chunk)
  {
    hide Symbol, SymbolValue, Pack, Unpack;
    var n := Pack(chunk);
    UnpackOfPack(chunk);
    SymbolRoundTrip(n / 262144 % 64);
    SymbolRoundTrip(n / 4096 % 64);
    SymbolRoundTrip(n / 64 % 64);
    SymbolRoundTrip(n % 64);
    PadIsNoSymbol();
  }

  lemma {:induction false} PadIsNoSymbol()
    ensures SymbolValue(PAD) == None
  {
  }

  /** Decoding inverts encoding for every byte string. */
  lemma {:induction false} Base64RoundTrip(input: Bytes)
    ensures Decode64(Encode64(input)) == Some(input)
    decreases |input|
  {
    hide Quad, Unquad;
    if input == [] {
    } else if |input| <= 3 {
      QuadRoundTrip(input);
      var q := Quad(input);
      assert q[..4] == q && q[4..] == [] && input + [] == input;
    } else {
      QuadRoundTrip(input[..3]);
      Base64RoundTrip(input[3..]);
      var s := Encode64(input);
      assert s[..4] == Quad(input[..3]) && s[4..] == Encode64(input[3..]);
      assert input[..3] + input[3..] == input;
    }
  }

  /** The text holds only characters a JSON string carries unescaped. */
  lemma {:induction false} Base64IsPlain(input: Bytes)
    ensures forall k :: 0 <= k < |Encode64(input)| ==>
              0x20 <= Encode64(input)[k] < 0x80 && Encode64(input)[k] != 0x22 && Encode64(input)[k] != 0x5C
    decreases |input|
  {
    hide Symbol, Pack;
    if |input| > 3 {
      Base64IsPlain(input[3..]);
    }
  }
}
