/**
  The shape of a parsed tree: spans nest and are ordered, and a route of child indices names a node.
 */
module JsonTree {
  import opened Prelude
  import opened JsonDom

  /** The child values of a node, in source order. */
  function Children(n: Node): (c: seq<Node>)
    ensures n.kind.Array? ==> c == n.kind.items
    ensures n.kind.Object? ==> |c| == |n.kind.members|
    ensures n.kind.Object? ==> forall k :: 0 <= k < |c| ==> c[k] == n.kind.members[k].value
  {
    match n.kind
    case Array(items) => items
    case Object(members) => seq(|members|, k requires 0 <= k < |members| => members[k].value)
    case _ => []
  }

  /** The node reached by following child indices. */
  function Descend(n: Node, route: seq<nat>): Option<Node>
    decreases |route|
  {
    if route == [] then Some(n)
    else if route[0] < |Children(n)| then Descend(Children(n)[route[0]], route[1..])
    else None
  }

  // ---------------------------------------------------------------- nesting

  /** `n` lies in `[lo, hi)`, and its children lie strictly inside it, in order and disjoint. */
  predicate Nested(n: Node, lo: int, hi: int)
    decreases n, 1
  {
    lo <= n.start < n.end <= hi && NestedKind(n.kind, n.start + 1, n.end - 1)
  }

  predicate NestedKind(k: Kind, lo: int, hi: int)
    decreases k, 0
  {
    match k
    case Array(items) =>
      && (forall x :: 0 <= x < |items| ==> Nested(items[x], lo, hi))
      && (forall x, y :: 0 <= x < y < |items| ==> items[x].end < items[y].start)
    case Object(ms) =>
      && (forall x :: 0 <= x < |ms| ==> lo <= ms[x].keyStart < ms[x].keyEnd < ms[x].value.start && Nested(ms[x].value, lo, hi))
      && (forall x, y :: 0 <= x < y < |ms| ==> ms[x].value.end < ms[y].keyStart)
    case _ => true
  }

  predicate NestedItems(items: seq<Node>, lo: int, hi: int) {
    && (forall x :: 0 <= x < |items| ==> Nested(items[x], lo, hi))
    && (forall x, y :: 0 <= x < y < |items| ==> items[x].end < items[y].start)
  }

  predicate NestedRaw(raw: seq<RawMember>, lo: int, hi: int) {
    && (forall x :: 0 <= x < |raw| ==> lo <= raw[x].keyStart < raw[x].keyEnd < raw[x].value.start && Nested(raw[x].value, lo, hi))
    && (forall x, y :: 0 <= x < y < |raw| ==> raw[x].value.end < raw[y].keyStart)
  }

  lemma {:induction false} Widen(n: Node, lo: int, hi: int, lo2: int, hi2: int)
    requires Nested(n, lo, hi) && lo2 <= lo && hi <= hi2
    ensures Nested(n, lo2, hi2)
  {
  }

  /** A parsed value starts at its first non-blank byte and ends where the scan stopped. */
  lemma {:induction false} ValueSpan(b: Bytes, max: nat, depth: nat, i: nat)
    requires i <= |b| && Value(b, max, depth, i).Got?
    ensures var r := Value(b, max, depth, i);
            r.value.start == Ws(b, i) && r.value.end == r.next && Ws(b, i) < r.next
  {
    hide Ws, Items, Members, Numbered, StringSpan, NumberSpan;
  }

  /** Every tree the parser builds is properly nested. */
  lemma {:induction false} ValueNested(b: Bytes, max: nat, depth: nat, i: nat)
    requires i <= |b| && Value(b, max, depth, i).Got?
    ensures var r := Value(b, max, depth, i); Nested(r.value, i, r.next)
    decreases |b| - i, 0
  {
    hide Ws, Items, Members, Pair, Token, Nested;
    var r := Value(b, max, depth, i);
    var s := Ws(b, i);
    ValueSpan(b, max, depth, i);
    assert NestedKind(r.value.kind, s + 1, r.next - 1) by {
      if b[s] == OPEN_BRACKET {
        if b[Ws(b, s + 1)] != CLOSE_BRACKET {
          ItemsNested(b, max, depth + 1, Ws(b, s + 1), s + 1);
        }
      } else if b[s] == OPEN_BRACE {
        if b[Ws(b, s + 1)] != CLOSE_BRACE {
          MembersNested(b, max, depth + 1, Ws(b, s + 1), s + 1);
        }
      } else {
        TokenIsLeaf(b, s);
      }
    }
    NestedIntro(r.value, i, r.next);
  }

  lemma {:induction false} NestedIntro(n: Node, lo: int, hi: int)
    requires lo <= n.start < n.end <= hi && NestedKind(n.kind, n.start + 1, n.end - 1)
    ensures Nested(n, lo, hi)
  {
  }

  lemma {:induction false} TokenIsLeaf(b: Bytes, s: nat)
    requires s < |b| && Token(b, s).Got?
    ensures var k := Token(b, s).value.kind; !k.Array? && !k.Object?
  {
    hide StringSpan, NumberSpan;
  }

  lemma {:induction false} ItemsNested(b: Bytes, max: nat, depth: nat, i: nat, lo: int)
    requires lo <= i <= |b| && Items(b, max, depth, i).Got?
    ensures var r := Items(b, max, depth, i);
            NestedItems(r.value, lo, r.next - 1) && r.value[0].start >= i
    decreases |b| - i, 1
  {
    hide Value, Ws, Nested;
    var r := Items(b, max, depth, i);
    var v, j := Value(b, max, depth, i).value, Value(b, max, depth, i).next;
    var w := Ws(b, j);
    ValueNested(b, max, depth, i);
    ValueSpan(b, max, depth, i);
    Widen(v, i, j, lo, r.next - 1);
    if b[w] == COMMA {
      ItemsNested(b, max, depth, w + 1, w + 1);
      var rest := Items(b, max, depth, w + 1).value;
      forall x | 0 <= x < |rest| ensures Nested(rest[x], lo, r.next - 1) && rest[x].start > w {
        Bounds(rest[x], w + 1, r.next - 1);
        Widen(rest[x], w + 1, r.next - 1, lo, r.next - 1);
      }
    }
  }

  lemma {:induction false} Bounds(n: Node, lo: int, hi: int)
    requires Nested(n, lo, hi)
    ensures lo <= n.start < n.end <= hi
  {
  }

  lemma {:induction false} PairNested(b: Bytes, max: nat, depth: nat, i: nat)
    requires i <= |b| && Pair(b, max, depth, i).Got?
    ensures var r := Pair(b, max, depth, i); var m := r.value;
            i <= m.keyStart < m.keyEnd < m.value.start && Nested(m.value, i, r.next) && m.value.end == r.next
    decreases |b| - i, 1
  {
    hide Value, Ws, Nested, StringSpan;
    var j := StringSpan(b, Ws(b, i)).next;
    var c := Ws(b, j);
    ValueNested(b, max, depth, c + 1);
    ValueSpan(b, max, depth, c + 1);
    var r := Pair(b, max, depth, i);
    Widen(r.value.value, c + 1, r.next, i, r.next);
  }

  lemma {:induction false} MembersNested(b: Bytes, max: nat, depth: nat, i: nat, lo: int)
    requires lo <= i <= |b| && Members(b, max, depth, i).Got?
    ensures var r := Members(b, max, depth, i);
            NestedRaw(r.value, lo, r.next - 1) && r.value[0].keyStart >= i
    decreases |b| - i, 2
  {
    hide Value, Pair, Ws, Nested;
    var r := Members(b, max, depth, i);
    var m, j := Pair(b, max, depth, i).value, Pair(b, max, depth, i).next;
    var w := Ws(b, j);
    PairNested(b, max, depth, i);
    Widen(m.value, i, j, lo, r.next - 1);
    if b[w] == COMMA {
      MembersNested(b, max, depth, w + 1, w + 1);
      var rest := Members(b, max, depth, w + 1).value;
      forall x | 0 <= x < |rest| ensures Nested(rest[x].value, lo, r.next - 1) && rest[x].keyStart > w {
        Widen(rest[x].value, w + 1, r.next - 1, lo, r.next - 1);
      }
    }
  }

  /** A descendant lies inside its ancestor. */
  lemma {:induction false} DescendantInside(n: Node, lo: int, hi: int, route: seq<nat>)
    requires Nested(n, lo, hi) && Descend(n, route).Some?
    ensures var t := Descend(n, route).value;
            n.start <= t.start < t.end <= n.end && Nested(t, lo, hi)
            && (route != [] ==> n.start < t.start && t.end < n.end)
    decreases |route|
  {
    if route != [] {
      var c := Children(n)[route[0]];
      assert Nested(c, n.start + 1, n.end - 1);
      DescendantInside(c, n.start + 1, n.end - 1, route[1..]);
      var t := Descend(n, route).value;
      Widen(t, n.start + 1, n.end - 1, lo, hi);
    }
  }
}
