/**
  Context independence of the parser: what a value parses to depends on its own bytes only,
  together with the fact that no number continues past its end.
 */
module JsonStability {
  import opened Prelude
  import opened Utf8
  import opened JsonStrings
  import opened JsonDom

  // ---------------------------------------------------------------- moving trees

  function Move(n: Node, d: int): (m: Node)
    decreases n, 1
  {
    Node(n.start + d, n.end + d, MoveKind(n.kind, d))
  }

  function MoveKind(k: Kind, d: int): Kind
    decreases k, 0
  {
    match k
    case Array(items) => Array(MoveItems(items, d))
    case Object(members) => Object(MoveMembers(members, d))
    case _ => k
  }

  function MoveItems(items: seq<Node>, d: int): (r: seq<Node>)
    ensures |r| == |items|
    ensures forall k :: 0 <= k < |items| ==> r[k] == Move(items[k], d)
    decreases items, 2
  {
    if items == [] then [] else [Move(items[0], d)] + MoveItems(items[1..], d)
  }

  function MoveMember(m: Member, d: int): Member
    decreases m, 2
  {
    Member(m.keyStart + d, m.keyEnd + d, m.key, m.occurrence, m.total, Move(m.value, d))
  }

  function MoveMembers(ms: seq<Member>, d: int): (r: seq<Member>)
    ensures |r| == |ms|
    ensures forall k :: 0 <= k < |ms| ==> r[k] == MoveMember(ms[k], d)
    decreases ms, 3
  {
    if ms == [] then [] else [MoveMember(ms[0], d)] + MoveMembers(ms[1..], d)
  }

  function MoveRaw(m: RawMember, d: int): RawMember {
    RawMember(m.keyStart + d, m.keyEnd + d, m.key, Move(m.value, d))
  }

  function MoveRaws(raw: seq<RawMember>, d: int): (r: seq<RawMember>)
    ensures |r| == |raw|
    ensures forall k :: 0 <= k < |raw| ==> r[k] == MoveRaw(raw[k], d)
  {
    if raw == [] then [] else [MoveRaw(raw[0], d)] + MoveRaws(raw[1..], d)
  }

  // ---------------------------------------------------------------- depth

  /** `n` opens at most `budget` levels. */
  predicate Fits(n: Node, budget: int)
    decreases n, 1
  {
    budget >= 1 && FitsKind(n.kind, budget - 1)
  }

  predicate FitsKind(k: Kind, budget: int)
    decreases k, 0
  {
    match k
    case Array(items) => forall x :: 0 <= x < |items| ==> Fits(items[x], budget)
    case Object(members) => forall x :: 0 <= x < |members| ==> Fits(members[x].value, budget)
    case _ => true
  }

  predicate FitsAll(items: seq<Node>, budget: int) {
    forall x :: 0 <= x < |items| ==> Fits(items[x], budget)
  }

  predicate FitsRaw(raw: seq<RawMember>, budget: int) {
    forall x :: 0 <= x < |raw| ==> Fits(raw[x].value, budget)
  }

  // ---------------------------------------------------------------- agreement of buffers

  /** `b2` holds at `i + d` what `b` holds at `i`, for every position of `[lo, hi)`. */
  predicate Agree(b: Bytes, b2: Bytes, d: int, lo: nat, hi: nat) {
    && lo <= hi <= |b| && 0 <= lo + d && hi + d <= |b2|
    && forall k {:trigger b[k]} :: lo <= k < hi ==> b2[k + d] == b[k]
  }

  /** No number token that stops at `j` could have been longer. */
  predicate NumberEnds(b: Bytes, j: nat) {
    j < |b| ==> !IsDigit(b[j]) && b[j] != DOT && b[j] != 0x65 && b[j] != 0x45
  }

  lemma {:induction false} AgreeSlice(b: Bytes, b2: Bytes, d: int, lo: nat, hi: nat, x: nat, y: nat)
    requires Agree(b, b2, d, lo, hi) && lo <= x <= y <= hi
    ensures b2[x + d..y + d] == b[x..y]
  {
  }

  lemma {:induction false} WsMoves(b: Bytes, b2: Bytes, d: int, i: nat, hi: nat)
    requires i < hi && Agree(b, b2, d, i, hi) && Ws(b, i) < hi
    ensures Ws(b2, i + d) == Ws(b, i) + d
    decreases hi - i
  {
    if IsWs(b[i]) {
      WsMoves(b, b2, d, i + 1, hi);
    }
  }

  lemma {:induction false} DigitsMove(b: Bytes, b2: Bytes, d: int, i: nat, hi: nat)
    requires i <= hi && Agree(b, b2, d, i, hi) && Digits(b, i) <= hi
    requires Digits(b, i) == hi ==> NumberEnds(b2, hi + d)
    ensures Digits(b2, i + d) == Digits(b, i) + d
    decreases hi - i
  {
    if i < hi {
      if IsDigit(b[i]) {
        DigitsMove(b, b2, d, i + 1, hi);
      }
    }
  }

  lemma {:induction false} HexRunMoves(b: Bytes, b2: Bytes, d: int, i: nat, n: nat, hi: nat)
    requires i <= hi && Agree(b, b2, d, i, hi) && HexRun(b, i, n).Got? && i + n <= hi
    ensures HexRun(b2, i + d, n) == Got((), i + n + d)
    decreases n
  {
    if n > 0 {
      assert b2[i + d] == b[i];
      HexRunMoves(b, b2, d, i + 1, n - 1, hi);
    }
  }

  lemma {:induction false} StringTailMoves(b: Bytes, b2: Bytes, d: int, i: nat)
    requires i <= |b| && StringTail(b, i).Got? && Agree(b, b2, d, i, StringTail(b, i).next)
    ensures StringTail(b2, i + d) == Got((), StringTail(b, i).next + d)
    decreases |b| - i
  {
    var hi := StringTail(b, i).next;
    assert b2[i + d] == b[i];
    if b[i] == QUOTE {
    } else if b[i] == BACKSLASH {
      assert b2[i + 1 + d] == b[i + 1];
      if b[i + 1] == LOWER_U {
        HexRunMoves(b, b2, d, i + 2, 4, hi);
        StringTailMoves(b, b2, d, i + 6);
      } else {
        StringTailMoves(b, b2, d, i + 2);
      }
    } else {
      StringTailMoves(b, b2, d, i + 1);
    }
  }

  lemma {:induction false} StringSpanMoves(b: Bytes, b2: Bytes, d: int, i: nat)
    requires i <= |b| && StringSpan(b, i).Got? && Agree(b, b2, d, i, StringSpan(b, i).next)
    ensures StringSpan(b2, i + d) == Got((), StringSpan(b, i).next + d)
  {
    assert b2[i + d] == b[i];
    StringTailMoves(b, b2, d, i + 1);
  }

  lemma {:induction false} IntPartMoves(b: Bytes, b2: Bytes, d: int, i: nat, hi: nat)
    requires i <= |b| && IntPart(b, i).Got? && IntPart(b, i).next <= hi && Agree(b, b2, d, i, hi)
    requires NumberEnds(b2, hi + d)
    ensures IntPart(b2, i + d) == Got((), IntPart(b, i).next + d)
  {
    assert b2[i + d] == b[i];
    if b[i] != 0x30 {
      DigitsMove(b, b2, d, i, hi);
    }
  }

  lemma {:induction false} FractionMoves(b: Bytes, b2: Bytes, d: int, i: nat, hi: nat)
    requires i <= |b| && Fraction(b, i).Got? && Fraction(b, i).next <= hi && Agree(b, b2, d, i, hi)
    requires NumberEnds(b2, hi + d)
    ensures Fraction(b2, i + d) == Got((), Fraction(b, i).next + d)
  {
    if i < hi {
      assert b2[i + d] == b[i];
      if b[i] == DOT {
        DigitsMove(b, b2, d, i + 1, hi);
      }
    }
  }

  lemma {:induction false} ExponentMoves(b: Bytes, b2: Bytes, d: int, i: nat, hi: nat)
    requires i <= |b| && Exponent(b, i).Got? && Exponent(b, i).next <= hi && Agree(b, b2, d, i, hi)
    requires NumberEnds(b2, hi + d)
    ensures Exponent(b2, i + d) == Got((), Exponent(b, i).next + d)
  {
    if i < hi {
      assert b2[i + d] == b[i];
      if AtExponent(b, i) {
        assert i + 1 < hi && b2[i + 1 + d] == b[i + 1];
        assert AfterSign(b2, i + 1 + d) == AfterSign(b, i + 1) + d;
        DigitsMove(b, b2, d, AfterSign(b, i + 1), hi);
      }
    }
  }

  lemma {:induction false} NumberSpanMoves(b: Bytes, b2: Bytes, d: int, i: nat)
    requires i <= |b| && NumberSpan(b, i).Got? && Agree(b, b2, d, i, NumberSpan(b, i).next)
    requires NumberEnds(b2, NumberSpan(b, i).next + d)
    ensures NumberSpan(b2, i + d) == Got((), NumberSpan(b, i).next + d)
  {
    hide Digits, IntPart, Fraction, Exponent;
    var hi := NumberSpan(b, i).next;
    assert b2[i + d] == b[i];
    assert AfterMinus(b2, i + d) == AfterMinus(b, i) + d;
    var a := AfterMinus(b, i);
    var j := IntPart(b, a).next;
    IntPartMoves(b, b2, d, a, hi);
    FractionMoves(b, b2, d, j, hi);
    ExponentMoves(b, b2, d, Fraction(b, j).next, hi);
  }

  lemma {:induction false} TokenMoves(b: Bytes, b2: Bytes, d: int, s: nat)
    requires s < |b| && Token(b, s).Got? && Agree(b, b2, d, s, Token(b, s).next)
    requires NumberEnds(b2, Token(b, s).next + d)
    ensures Token(b2, s + d) == Got(Move(Token(b, s).value, d), Token(b, s).next + d)
  {
    hide StringSpan, NumberSpan;
    var hi := Token(b, s).next;
    assert b2[s + d] == b[s];
    if b[s] == QUOTE {
      StringSpanMoves(b, b2, d, s);
    } else if b[s] == MINUS || IsDigit(b[s]) {
      NumberSpanMoves(b, b2, d, s);
    } else {
      AgreeSlice(b, b2, d, s, hi, s, hi);
    }
  }

  /** What follows a value inside a container, white space and then a structural character. */
  lemma {:induction false} SeparatorMoves(b: Bytes, b2: Bytes, d: int, j: nat, hi: nat)
    requires j < hi && Agree(b, b2, d, j, hi) && Ws(b, j) < hi
    requires b[Ws(b, j)] in {COMMA, CLOSE_BRACKET, CLOSE_BRACE}
    ensures Ws(b2, j + d) == Ws(b, j) + d && b2[Ws(b, j) + d] == b[Ws(b, j)] && NumberEnds(b2, j + d)
  {
    WsMoves(b, b2, d, j, hi);
    assert b2[j + d] == b[j];
  }

  lemma {:induction false} MoveItemsCons(v: Node, rest: seq<Node>, d: int)
    ensures MoveItems([v] + rest, d) == [Move(v, d)] + MoveItems(rest, d)
  {
    assert ([v] + rest)[1..] == rest;
  }

  lemma {:induction false} MoveRawsCons(m: RawMember, rest: seq<RawMember>, d: int)
    ensures MoveRaws([m] + rest, d) == [MoveRaw(m, d)] + MoveRaws(rest, d)
  {
    assert ([m] + rest)[1..] == rest;
  }

  // ---------------------------------------------------------------- numbering ignores positions

  predicate SameKeys(raw: seq<RawMember>, raw2: seq<RawMember>) {
    |raw| == |raw2| && forall k :: 0 <= k < |raw| ==> raw[k].key == raw2[k].key
  }

  lemma {:induction false} CountBySameKeys(raw: seq<RawMember>, raw2: seq<RawMember>, key: Text)
    requires SameKeys(raw, raw2)
    ensures Count(raw, key) == Count(raw2, key)
  {
    if raw != [] {
      CountBySameKeys(raw[1..], raw2[1..], key);
    }
  }

  /** Numbering looks at keys only, so any two lists with the same keys are numbered alike. */
  lemma {:induction false} NumberingBySameKeys(raw: seq<RawMember>, raw2: seq<RawMember>, k: nat)
    requires SameKeys(raw, raw2) && k < |raw|
    ensures var m, m2 := Numbered(raw)[k], Numbered(raw2)[k];
            m2.key == m.key && m2.occurrence == m.occurrence && m2.total == m.total
  {
    CountBySameKeys(raw, raw2, raw[k].key);
    CountBySameKeys(raw[..k + 1], raw2[..k + 1], raw[k].key);
  }

  lemma {:induction false} NumberedMoves(raw: seq<RawMember>, d: int)
    ensures Numbered(MoveRaws(raw, d)) == MoveMembers(Numbered(raw), d)
  {
    hide Count;
    var raw2 := MoveRaws(raw, d);
    forall k | 0 <= k < |raw| ensures Numbered(raw2)[k] == MoveMembers(Numbered(raw), d)[k] {
      NumberingBySameKeys(raw, raw2, k);
    }
  }

  // ---------------------------------------------------------------- every accepted value fits its budget

  lemma {:induction false} ValueFits(b: Bytes, max: nat, depth: nat, i: nat)
    requires i <= |b| && Value(b, max, depth, i).Got?
    ensures Fits(Value(b, max, depth, i).value, max - depth)
    decreases |b| - i, 0
  {
    hide Items, Pair;
    var s := Ws(b, i);
    if b[s] == OPEN_BRACKET {
      var k := Ws(b, s + 1);
      if b[k] != CLOSE_BRACKET {
        ItemsFit(b, max, depth + 1, k);
      }
    } else if b[s] == OPEN_BRACE {
      var k := Ws(b, s + 1);
      if b[k] != CLOSE_BRACE {
        MembersFit(b, max, depth + 1, k);
      }
    }
  }

  lemma {:induction false} ItemsFit(b: Bytes, max: nat, depth: nat, i: nat)
    requires i <= |b| && Items(b, max, depth, i).Got?
    ensures FitsAll(Items(b, max, depth, i).value, max - depth)
    decreases |b| - i, 1
  {
    ValueFits(b, max, depth, i);
    var w := Ws(b, Value(b, max, depth, i).next);
    if b[w] == COMMA {
      ItemsFit(b, max, depth, w + 1);
    }
  }

  lemma {:induction false} MembersFit(b: Bytes, max: nat, depth: nat, i: nat)
    requires i <= |b| && Members(b, max, depth, i).Got?
    ensures FitsRaw(Members(b, max, depth, i).value, max - depth)
    decreases |b| - i, 1
  {
    var j := StringSpan(b, Ws(b, i)).next;
    ValueFits(b, max, depth, Ws(b, j) + 1);
    var w := Ws(b, Pair(b, max, depth, i).next);
    if b[w] == COMMA {
      MembersFit(b, max, depth, w + 1);
    }
  }

  // ---------------------------------------------------------------- context independence

  /**
    A value that parses in one buffer parses in any buffer holding the same bytes, at any offset and
    under any limit its depth respects, to the same tree moved by the offset.
   */
  lemma {:induction false} ValueMoves(b: Bytes, max: nat, depth: nat, i: nat, b2: Bytes, max2: nat, depth2: nat, d: int)
    requires i <= |b| && Value(b, max, depth, i).Got?
    requires var r := Value(b, max, depth, i);
             Agree(b, b2, d, i, r.next) && NumberEnds(b2, r.next + d) && Fits(r.value, max2 - depth2)
    ensures var r := Value(b, max, depth, i);
            Value(b2, max2, depth2, i + d) == Got(Move(r.value, d), r.next + d)
    decreases |b| - i, 0
  {
    var r := Value(b, max, depth, i);
    var s := Ws(b, i);
    hide Ws, Token, ArrayAt, ObjectAt;
    WsMoves(b, b2, d, i, r.next);
    assert b2[s + d] == b[s];
    if b[s] == OPEN_BRACKET {
      ArrayMoves(b, max, depth + 1, s, b2, max2, depth2 + 1, d);
    } else if b[s] == OPEN_BRACE {
      ObjectMoves(b, max, depth + 1, s, b2, max2, depth2 + 1, d);
    } else {
      TokenMoves(b, b2, d, s);
    }
  }

  lemma {:induction false} ArrayMoves(b: Bytes, max: nat, depth: nat, s: nat, b2: Bytes, max2: nat, depth2: nat, d: int)
    requires s < |b| && b[s] == OPEN_BRACKET && ArrayAt(b, max, depth, s).Got?
    requires var r := ArrayAt(b, max, depth, s);
             Agree(b, b2, d, s, r.next) && FitsKind(r.value.kind, max2 - depth2)
    ensures var r := ArrayAt(b, max, depth, s);
            ArrayAt(b2, max2, depth2, s + d) == Got(Move(r.value, d), r.next + d)
    decreases |b| - s - 1, 3
  {
    hide Value, Ws, Items, Fits, Numbered;
    var r := ArrayAt(b, max, depth, s);
    var k := Ws(b, s + 1);
    WsMoves(b, b2, d, s + 1, r.next);
    assert b2[k + d] == b[k];
    if b[k] != CLOSE_BRACKET {
      ItemsMove(b, max, depth, k, b2, max2, depth2, d);
    }
  }

  lemma {:induction false} ObjectMoves(b: Bytes, max: nat, depth: nat, s: nat, b2: Bytes, max2: nat, depth2: nat, d: int)
    requires s < |b| && b[s] == OPEN_BRACE && ObjectAt(b, max, depth, s).Got?
    requires var r := ObjectAt(b, max, depth, s);
             Agree(b, b2, d, s, r.next) && FitsKind(r.value.kind, max2 - depth2)
    ensures var r := ObjectAt(b, max, depth, s);
            ObjectAt(b2, max2, depth2, s + d) == Got(Move(r.value, d), r.next + d)
    decreases |b| - s - 1, 3
  {
    hide Value, Ws, Pair, Members, MoveRaws, Fits, Numbered;
    var r := ObjectAt(b, max, depth, s);
    var k := Ws(b, s + 1);
    WsMoves(b, b2, d, s + 1, r.next);
    assert b2[k + d] == b[k];
    if b[k] != CLOSE_BRACE {
      var raw := Members(b, max, depth, k).value;
      assert FitsRaw(raw, max2 - depth2) by {
        forall x | 0 <= x < |raw| ensures Fits(raw[x].value, max2 - depth2) {
          assert Numbered(raw)[x].value == raw[x].value;
        }
      }
      MembersMove(b, max, depth, k, b2, max2, depth2, d);
      NumberedMoves(raw, d);
    }
  }

  lemma {:induction false} ItemsMove(b: Bytes, max: nat, depth: nat, i: nat, b2: Bytes, max2: nat, depth2: nat, d: int)
    requires i <= |b| && Items(b, max, depth, i).Got?
    requires var r := Items(b, max, depth, i);
             Agree(b, b2, d, i, r.next) && FitsAll(r.value, max2 - depth2)
    ensures var r := Items(b, max, depth, i);
            Items(b2, max2, depth2, i + d) == Got(MoveItems(r.value, d), r.next + d)
    decreases |b| - i, 1
  {
    hide Value, Ws, Move, MoveItems, Fits, Numbered;
    var r := Items(b, max, depth, i);
    var v, j := Value(b, max, depth, i).value, Value(b, max, depth, i).next;
    var w := Ws(b, j);
    assert r.value[0] == v;
    SeparatorMoves(b, b2, d, j, r.next);
    ValueMoves(b, max, depth, i, b2, max2, depth2, d);
    if b[w] == COMMA {
      var rest := Items(b, max, depth, w + 1).value;
      assert r.value[1..] == rest;
      ItemsMove(b, max, depth, w + 1, b2, max2, depth2, d);
      MoveItemsCons(v, rest, d);
    } else {
      assert MoveItems([v], d) == [Move(v, d)];
    }
  }

  lemma {:induction false} PairMoves(b: Bytes, max: nat, depth: nat, i: nat, b2: Bytes, max2: nat, depth2: nat, d: int)
    requires i <= |b| && Pair(b, max, depth, i).Got?
    requires var r := Pair(b, max, depth, i);
             Agree(b, b2, d, i, r.next) && NumberEnds(b2, r.next + d) && Fits(r.value.value, max2 - depth2)
    ensures var r := Pair(b, max, depth, i);
            Pair(b2, max2, depth2, i + d) == Got(MoveRaw(r.value, d), r.next + d)
    decreases |b| - i, 1
  {
    hide Value, Ws, StringSpan, DecodeString, Move, Fits, Numbered;
    var r := Pair(b, max, depth, i);
    var k := Ws(b, i);
    var j := StringSpan(b, k).next;
    var c := Ws(b, j);
    WsMoves(b, b2, d, i, r.next);
    StringSpanMoves(b, b2, d, k);
    AgreeSlice(b, b2, d, i, r.next, k, j);
    WsMoves(b, b2, d, j, r.next);
    assert b2[c + d] == b[c];
    assert r.next == Value(b, max, depth, c + 1).next;
    ValueMoves(b, max, depth, c + 1, b2, max2, depth2, d);
  }

  lemma {:induction false} MembersMove(b: Bytes, max: nat, depth: nat, i: nat, b2: Bytes, max2: nat, depth2: nat, d: int)
    requires i <= |b| && Members(b, max, depth, i).Got?
    requires var r := Members(b, max, depth, i);
             Agree(b, b2, d, i, r.next) && FitsRaw(r.value, max2 - depth2)
    ensures var r := Members(b, max, depth, i);
            Members(b2, max2, depth2, i + d) == Got(MoveRaws(r.value, d), r.next + d)
    decreases |b| - i, 2
  {
    hide Value, Pair, Ws, Move, MoveRaws, Fits, Numbered;
    var r := Members(b, max, depth, i);
    var m, j := Pair(b, max, depth, i).value, Pair(b, max, depth, i).next;
    var w := Ws(b, j);
    assert r.value[0] == m;
    SeparatorMoves(b, b2, d, j, r.next);
    PairMoves(b, max, depth, i, b2, max2, depth2, d);
    if b[w] == COMMA {
      var rest := Members(b, max, depth, w + 1).value;
      assert r.value[1..] == rest;
      MembersMove(b, max, depth, w + 1, b2, max2, depth2, d);
      MoveRawsCons(m, rest, d);
    } else {
      assert MoveRaws([m], d) == [MoveRaw(m, d)];
    }
  }
}
