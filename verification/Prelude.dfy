/** Vocabulary shared by every module: bytes, optional values and results. */
module Prelude {
  /** One octet of a buffer. */
  type Byte = b: int | 0 <= b < 256

  type Bytes = seq<Byte>

  datatype Option<+T> = None | Some(value: T)

  datatype Result<+T, +E> = Ok(value: T) | Err(error: E)

  /** A word of ASCII characters, as it stands in the source. */
  function Ascii(word: string): (b: Bytes)
    requires forall k :: 0 <= k < |word| ==> word[k] < 128 as char
    ensures |b| == |word| && forall k :: 0 <= k < |word| ==> b[k] == word[k] as int
  {
    seq(|word|, k requires 0 <= k < |word| => word[k] as int)
  }

  predicate IsDigit(c: Byte) {
    0x30 <= c <= 0x39
  }

  predicate IsHexDigit(c: Byte) {
    IsDigit(c) || 0x41 <= c <= 0x46 || 0x61 <= c <= 0x66
  }

  /** The value of a hexadecimal digit, in either case. */
  function HexValue(c: Byte): (v: int)
    requires IsHexDigit(c)
    ensures 0 <= v < 16
  {
    if IsDigit(c) then c - 0x30 else if c < 0x61 then c - 0x41 + 10 else c - 0x61 + 10
  }

  /** `b` carries `t` at position `i`. */
  predicate Carries<T(==)>(b: seq<T>, i: nat, t: seq<T>) {
    i + |t| <= |b| && b[i..i + |t|] == t
  }

  lemma {:induction false} CarriesAt<T>(b: seq<T>, i: nat, t: seq<T>, k: nat)
    requires Carries(b, i, t) && k < |t|
    ensures b[i + k] == t[k]
  {
    assert b[i + k] == b[i..i + |t|][k];
  }

  lemma {:induction false} CarriesParts<T>(b: seq<T>, i: nat, a: seq<T>, c: seq<T>)
    requires Carries(b, i, a + c)
    ensures Carries(b, i, a) && Carries(b, i + |a|, c)
  {
    assert (a + c)[..|a|] == a && (a + c)[|a|..] == c;
    assert b[i..i + |a|] == b[i..i + |a + c|][..|a|];
    assert b[i + |a|..i + |a| + |c|] == b[i..i + |a + c|][|a|..];
  }
}
