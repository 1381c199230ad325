/** What lossy decoding reads: characters where there are any, and one replacement for each maximal subpart. */
module LossyText {
  import opened Prelude
  import opened Utf8

  /** Some character's encoding begins with `p`. */
  ghost predicate Opens(p: Bytes) {
    exists c: Scalar :: p <= Encode(c)
  }

  ghost predicate StartsWith(s: Bytes, c: Scalar) {
    Encode(c) <= s
  }

  /** The longest beginning of `s` that some encoding shares, or one octet if there is none. */
  ghost predicate IsSubpart(s: Bytes, k: nat) {
    1 <= k <= |s| && (k == 1 || Opens(s[..k])) && forall m :: k < m <= |s| ==> !Opens(s[..m])
  }

  /** Characters are read as they are; where none stands, U+FFFD for the maximal subpart. */
  ghost predicate ReadsAs(s: Bytes, t: Text)
    decreases |t|
  {
    if t == [] then s == []
    else if StartsWith(s, t[0]) then ReadsAs(s[|Encode(t[0])|..], t[1..])
    else
      && (forall c: Scalar :: !StartsWith(s, c)) && t[0] == 0xFFFD
      && exists k: nat :: IsSubpart(s, k) && ReadsAs(s[k..], t[1..])
  }

  lemma {:induction false} StartsIff(s: Bytes, c: Scalar)
    ensures StartsWith(s, c) <==> First(s) == Some(Decoded(c, |Encode(c)|))
  {
    hide Encode, First;
    if StartsWith(s, c) {
      var n := |Encode(c)|;
      FirstOfEncode(c, s[n..]);
      assert s == Encode(c) + s[n..];
    }
    if First(s) == Some(Decoded(c, |Encode(c)|)) {
      EncodeOfFirst(s);
    }
  }

  lemma {:induction false} FirstStarts(s: Bytes)
    requires First(s).Some?
    ensures var f := First(s).value; StartsWith(s, f.scalar) && f.length == |Encode(f.scalar)|
  {
    hide Encode, First;
    EncodeOfFirst(s);
  }

  /** A beginning of an encoding has the octets that encodings have. */
  lemma {:induction false} OpeningShape(p: Bytes, c: Scalar)
    requires p <= Encode(c) && |p| >= 2
    ensures p[0] >= 0xC2 && IsCont(p[1]) && |p| <= |Encode(c)| <= 4
    ensures |Encode(c)| == 2 ==> p[0] < 0xE0
    ensures |Encode(c)| == 3 ==> 0xE0 <= p[0] < 0xF0 && (p[0] == 0xE0 ==> p[1] >= 0xA0) && (p[0] == 0xED ==> p[1] < 0xA0)
    ensures |Encode(c)| == 4 ==> 0xF0 <= p[0] < 0xF5 && (p[0] == 0xF0 ==> p[1] >= 0x90) && (p[0] == 0xF4 ==> p[1] < 0x90)
    ensures |p| > 2 ==> IsCont(p[2])
  {
    hide Encode;
    var e := Encode(c);
    FirstOfEncode(c, []);
    assert e + [] == e;
    ByteCount(e);
    assert p[0] == e[0] && p[1] == e[1] && (|p| > 2 ==> p[2] == e[2]);
  }

  lemma {:induction false} ByteCount(e: Bytes)
    requires First(e).Some? && First(e).value.length == |e| && |e| >= 2
    ensures |e| == 2 ==> Two(e)
    ensures |e| == 3 ==> Three(e)
    ensures |e| == 4 ==> Four(e)
    ensures |e| <= 4
  {
  }

  /** No encoding shares more than the bad octets. */
  lemma {:induction false} NothingLonger(s: Bytes, m: nat, c: Scalar)
    requires s != [] && First(s).None? && m <= |s| && s[..m] <= Encode(c)
    ensures m <= BadLength(s)
  {
    hide Encode, First;
    if m >= 2 {
      OpeningShape(s[..m], c);
      if m == |Encode(c)| {
        StartsIff(s, c);
      }
    }
  }

  lemma {:induction false} ThreeOpens(a: Byte, b: Byte)
    requires 0xE0 <= a < 0xF0 && IsCont(b) && (a == 0xE0 ==> b >= 0xA0) && (a == 0xED ==> b < 0xA0)
    ensures Opens([a, b])
  {
    hide Encode;
    var e: Bytes := [a, b, 0x80];
    EncodeOfFirst(e);
    assert e[..3] == e && [a, b] <= e;
  }

  lemma {:induction false} FourOpens(a: Byte, b: Byte, c: Byte)
    requires 0xF0 <= a < 0xF5 && IsCont(b) && IsCont(c) && (a == 0xF0 ==> b >= 0x90) && (a == 0xF4 ==> b < 0x90)
    ensures Opens([a, b]) && Opens([a, b, c])
  {
    hide Encode;
    var e: Bytes := [a, b, c, 0x80];
    EncodeOfFirst(e);
    assert e[..4] == e && [a, b, c] <= e && [a, b] <= e;
  }

  lemma {:induction false} BadIsSubpart(s: Bytes)
    requires s != [] && First(s).None?
    ensures IsSubpart(s, BadLength(s))
  {
    hide Encode, First, Opens;
    var k := BadLength(s);
    if k > 1 {
      BadOpens(s);
    }
    forall m | k < m <= |s| ensures !Opens(s[..m]) {
      NoneOpens(s, m);
    }
  }

  lemma {:induction false} BadOpens(s: Bytes)
    requires s != [] && BadLength(s) > 1
    ensures Opens(s[..BadLength(s)])
  {
    hide Encode, Opens;
    if s[0] < 0xF0 {
      ThreeOpens(s[0], s[1]);
      assert s[..2] == [s[0], s[1]];
    } else if BadLength(s) == 2 {
      FourOpens(s[0], s[1], 0x80);
      assert s[..2] == [s[0], s[1]];
    } else {
      FourOpens(s[0], s[1], s[2]);
      assert s[..3] == [s[0], s[1], s[2]];
    }
  }

  lemma {:induction false} NoneOpens(s: Bytes, m: nat)
    requires s != [] && First(s).None? && BadLength(s) < m <= |s|
    ensures !Opens(s[..m])
  {
    hide Encode, First, BadLength;
    if Opens(s[..m]) {
      var c: Scalar :| s[..m] <= Encode(c);
      NothingLonger(s, m, c);
    }
  }

  lemma {:induction false} OneSubpart(s: Bytes, j: nat, k: nat)
    requires IsSubpart(s, j) && IsSubpart(s, k)
    ensures j == k
  {
    hide Opens;
    NotLonger(s, j, k);
    NotLonger(s, k, j);
  }

  lemma {:induction false} NotLonger(s: Bytes, j: nat, k: nat)
    requires IsSubpart(s, j) && IsSubpart(s, k)
    ensures k <= j
  {
    hide Opens;
  }

  lemma {:induction false} NoneStarts(s: Bytes)
    ensures First(s).None? <==> forall c: Scalar :: !StartsWith(s, c)
  {
    hide StartsWith, First, Encode;
    if First(s).Some? {
      FirstStarts(s);
    } else {
      forall c: Scalar ensures !StartsWith(s, c) {
        StartsIff(s, c);
      }
    }
  }

  lemma {:induction false} LossyReads(s: Bytes)
    ensures ReadsAs(s, Lossy(s))
    decreases |s|
  {
    hide StartsWith, First, Encode, IsSubpart, BadLength;
    if s != [] {
      NoneStarts(s);
      if First(s).Some? {
        FirstStarts(s);
        LossyReads(s[First(s).value.length..]);
        assert Lossy(s)[1..] == Lossy(s[First(s).value.length..]);
      } else {
        BadIsSubpart(s);
        LossyReads(s[BadLength(s)..]);
        assert Lossy(s)[1..] == Lossy(s[BadLength(s)..]);
      }
    }
  }

  lemma {:induction false} ReadingIsLossy(s: Bytes, t: Text)
    requires ReadsAs(s, t)
    ensures t == Lossy(s)
    decreases |t|
  {
    hide StartsWith, First, Encode, Opens, BadLength;
    if t != [] {
      StartsIff(s, t[0]);
      ReadsSomething(s, t);
      NoneStarts(s);
      if StartsWith(s, t[0]) {
        ReadingIsLossy(s[|Encode(t[0])|..], t[1..]);
      } else {
        var k: nat :| IsSubpart(s, k) && ReadsAs(s[k..], t[1..]);
        BadIsSubpart(s);
        OneSubpart(s, k, BadLength(s));
        ReadingIsLossy(s[k..], t[1..]);
      }
      assert t == [t[0]] + t[1..];
    }
  }

  lemma {:induction false} ReadsSomething(s: Bytes, t: Text)
    requires t != [] && ReadsAs(s, t)
    ensures s != []
  {
    hide Opens;
  }

  /** `String::from_utf8_lossy`, told by what encodings look like. */
  lemma {:induction false} LossyExactly(s: Bytes, t: Text)
    ensures t == Lossy(s) <==> ReadsAs(s, t)
  {
    hide Lossy, ReadsAs;
    LossyReads(s);
    if ReadsAs(s, t) {
      ReadingIsLossy(s, t);
    }
  }
}
