/**
  Edit locality: splicing a complete value over a node's bytes gives a document whose tree is the old
  one with that node exchanged, everything before it untouched and everything after it moved.
 */
module JsonEdit {
  import opened Prelude
  import opened JsonStrings
  import opened JsonDom
  import opened JsonTree
  import opened JsonStability

  /** The splice `Document::replace` performs on `[start, end)` of `source`. */
  datatype Edit = Edit(source: Bytes, start: nat, end: nat, insert: Bytes) {
    predicate InRange() {
      start <= end <= |source|
    }

    function After(): (r: Bytes)
      requires InRange()
      ensures |r| == |source| + Delta()
    {
      source[..start] + insert + source[end..]
    }

    function Delta(): int {
      |insert| - (end - start)
    }
  }

  // ---------------------------------------------------------------- the edited tree

  /** `items` with item `k` exchanged for `x` and the later ones moved by `d`. */
  function GraftItems(items: seq<Node>, k: nat, x: Node, d: int): seq<Node>
    requires k < |items|
  {
    items[..k] + [x] + MoveItems(items[k + 1..], d)
  }

  function GraftMembers(ms: seq<Member>, k: nat, x: Node, d: int): seq<Member>
    requires k < |ms|
  {
    ms[..k] + [ms[k].(value := x)] + MoveMembers(ms[k + 1..], d)
  }

  function GraftRaw(raw: seq<RawMember>, k: nat, x: Node, d: int): seq<RawMember>
    requires k < |raw|
  {
    raw[..k] + [raw[k].(value := x)] + MoveRaws(raw[k + 1..], d)
  }

  /** The tree `n` with the node at `route` exchanged for `m`, when the text grew by `d` there. */
  function Graft(n: Node, route: seq<nat>, m: Node, d: int): Node
    requires Descend(n, route).Some?
    decreases |route|
  {
    if route == [] then m
    else
      var x := Graft(Children(n)[route[0]], route[1..], m, d);
      match n.kind
      case Array(items) => Node(n.start, n.end + d, Array(GraftItems(items, route[0], x, d)))
      case Object(ms) => Node(n.start, n.end + d, Object(GraftMembers(ms, route[0], x, d)))
      case _ => n
  }

  lemma {:induction false} GraftRawAt(raw: seq<RawMember>, k: nat, x: Node, d: int)
    requires k < |raw|
    ensures var raw2 := GraftRaw(raw, k, x, d);
            |raw2| == |raw| && forall j :: 0 <= j < |raw| ==>
              raw2[j] == if j < k then raw[j] else if j == k then raw[k].(value := x) else MoveRaw(raw[j], d)
  {
    hide MoveRaws, MoveRaw;
  }

  lemma {:induction false} GraftMembersAt(ms: seq<Member>, k: nat, x: Node, d: int)
    requires k < |ms|
    ensures var ms2 := GraftMembers(ms, k, x, d);
            |ms2| == |ms| && forall j :: 0 <= j < |ms| ==>
              ms2[j] == if j < k then ms[j] else if j == k then ms[k].(value := x) else MoveMember(ms[j], d)
  {
    hide MoveMembers, MoveMember;
  }

  lemma {:induction false} NumberedGraft(raw: seq<RawMember>, k: nat, x: Node, d: int)
    requires k < |raw|
    ensures Numbered(GraftRaw(raw, k, x, d)) == GraftMembers(Numbered(raw), k, x, d)
  {
    hide Count, Numbered, Move, GraftRaw, GraftMembers;
    var raw2 := GraftRaw(raw, k, x, d);
    GraftRawAt(raw, k, x, d);
    GraftMembersAt(Numbered(raw), k, x, d);
    forall j | 0 <= j < |raw| ensures Numbered(raw2)[j] == GraftMembers(Numbered(raw), k, x, d)[j] {
      NumberingBySameKeys(raw, raw2, j);
    }
  }

  lemma {:induction false} GraftItemsCons(v: Node, rest: seq<Node>, k: nat, x: Node, d: int)
    requires k < |rest|
    ensures GraftItems([v] + rest, k + 1, x, d) == [v] + GraftItems(rest, k, x, d)
  {
    assert ([v] + rest)[..k + 1] == [v] + rest[..k];
    assert ([v] + rest)[k + 2..] == rest[k + 1..];
  }

  lemma {:induction false} GraftRawCons(m: RawMember, rest: seq<RawMember>, k: nat, x: Node, d: int)
    requires k < |rest|
    ensures GraftRaw([m] + rest, k + 1, x, d) == [m] + GraftRaw(rest, k, x, d)
  {
    assert ([m] + rest)[..k + 1] == [m] + rest[..k];
    assert ([m] + rest)[k + 2..] == rest[k + 1..];
  }

  // ---------------------------------------------------------------- moving by nothing

  lemma {:induction false} MoveByZero(n: Node)
    ensures Move(n, 0) == n
    decreases n, 1
  {
    match n.kind
    case Array(items) =>
      forall k | 0 <= k < |items| ensures Move(items[k], 0) == items[k] { MoveByZero(items[k]); }
      assert MoveItems(items, 0) == items;
    case Object(ms) =>
      forall k | 0 <= k < |ms| ensures MoveMember(ms[k], 0) == ms[k] { MoveByZero(ms[k].value); }
      assert MoveMembers(ms, 0) == ms;
    case _ =>
  }

  // ---------------------------------------------------------------- white space at the seams

  /** The end of a run of white space is determined by the run and by what stops it. */
  lemma {:induction false} WsIs(b: Bytes, i: nat, j: nat)
    requires i <= j <= |b| && (forall k :: i <= k < j ==> IsWs(b[k])) && (j < |b| ==> !IsWs(b[j]))
    ensures Ws(b, i) == j
    decreases j - i
  {
    if i < j {
      WsIs(b, i + 1, j);
    }
  }

  /** Leading white space does not change what a value parses to. */
  lemma {:induction false} ValueSkipsWs(b: Bytes, max: nat, depth: nat, i: nat, k: nat)
    requires i <= k <= |b| && k <= Ws(b, i)
    ensures Value(b, max, depth, i) == Value(b, max, depth, k)
  {
    WsBlank(b, i);
    WsIs(b, k, Ws(b, i));
  }

  /** Only white space, then a structural character or the end of the text, follows position `j`. */
  predicate Closed(b: Bytes, j: nat) {
    j <= |b| && (Ws(b, j) < |b| ==> b[Ws(b, j)] in {COMMA, CLOSE_BRACKET, CLOSE_BRACE})
  }

  /** `insert` is one complete value, with white space around it, for a place `depth` levels deep. */
  predicate Complete(insert: Bytes, max: nat, depth: nat) {
    var r := Value(insert, max, depth, 0);
    r.Got? && Ws(insert, r.next) == |insert|
  }

  /** The tree of the inserted value, at the place where it now stands. */
  function Inserted(e: Edit, max: nat, depth: nat): Node
    requires Complete(e.insert, max, depth)
  {
    Move(Value(e.insert, max, depth, 0).value, e.start)
  }

  lemma {:induction false} AfterBytes(e: Edit)
    requires e.InRange()
    ensures Agree(e.source, e.After(), 0, 0, e.start)
    ensures Agree(e.source, e.After(), e.Delta(), e.end, |e.source|)
    ensures Agree(e.insert, e.After(), e.start, 0, |e.insert|)
  {
  }

  lemma {:induction false} AgreeWithin(b: Bytes, b2: Bytes, d: int, lo: nat, hi: nat, x: nat, y: nat)
    requires Agree(b, b2, d, lo, hi) && lo <= x <= y <= hi
    ensures Agree(b, b2, d, x, y)
  {
  }

  lemma {:induction false} AgreeAt(b: Bytes, b2: Bytes, d: int, lo: nat, hi: nat, x: nat)
    requires Agree(b, b2, d, lo, hi) && lo <= x < hi
    ensures x + d < |b2| && b2[x + d] == b[x]
  {
  }

  // ---------------------------------------------------------------- the edit itself

  /** A scan of the edited text that yields `value` and stops at `next`. */
  ghost predicate Becomes<T>(r: Parsed<T>, value: T, next: int) {
    r.Got? && r.value == value && r.next == next
  }

  /** What an edit at `route` below the node `n` must satisfy. */
  ghost predicate EditsBelow(e: Edit, max: nat, depth: nat, n: Node, route: seq<nat>) {
    && e.InRange()
    && Descend(n, route).Some?
    && e.start == Descend(n, route).value.start
    && e.end == Descend(n, route).value.end
    && Complete(e.insert, max, depth + |route|)
  }

  /** The node `n` after the edit. */
  ghost function Edited(e: Edit, max: nat, depth: nat, n: Node, route: seq<nat>): Node
    requires EditsBelow(e, max, depth, n, route)
  {
    Graft(n, route, Inserted(e, max, depth + |route|), e.Delta())
  }

  /** Blanks from `i` up to the edit, then those that lead the inserted value. */
  lemma {:induction false} WsIntoInsert(e: Edit, i: nat, lead: nat)
    requires e.InRange() && i <= e.start && (forall k :: i <= k < e.start ==> IsWs(e.source[k]))
    requires lead < |e.insert| && lead == Ws(e.insert, 0)
    ensures Ws(e.After(), i) == e.start + lead
  {
    hide Ws, IsWs, Edit.After;
    var b2 := e.After();
    AfterBytes(e);
    WsBlank(e.insert, 0);
    forall k | i <= k < e.start + lead ensures IsWs(b2[k]) {
      if k < e.start {
        assert b2[k + 0] == e.source[k];
      } else {
        assert b2[k] == e.insert[k - e.start];
      }
    }
    assert b2[e.start + lead] == e.insert[lead];
    WsIs(b2, i, e.start + lead);
  }

  /** Blanks that trail the inserted value, then those that followed the old one. */
  lemma {:induction false} WsOutOfInsert(e: Edit, q: nat)
    requires e.InRange() && q <= |e.insert| && Ws(e.insert, q) == |e.insert|
    ensures Ws(e.After(), q + e.start) == Ws(e.source, e.end) + e.Delta()
  {
    hide Ws, IsWs, Edit.After;
    var b, b2, d := e.source, e.After(), e.Delta();
    var w := Ws(b, e.end);
    AfterBytes(e);
    WsBlank(b, e.end);
    WsBlank(e.insert, q);
    forall k | e.start + q <= k < w + d ensures IsWs(b2[k]) {
      if k < e.start + |e.insert| {
        assert b2[k] == e.insert[k - e.start];
      } else {
        assert b2[k] == b[k - d];
      }
    }
    assert w < |b| ==> b2[w + d] == b[w];
    WsIs(b2, e.start + q, w + d);
  }

  /** The edited node itself. */
  lemma {:induction false} EditHere(e: Edit, max: nat, depth: nat, i: nat)
    requires e.InRange() && i <= e.start && Value(e.source, max, depth, i).Got?
    requires var r := Value(e.source, max, depth, i); e.start == r.value.start && e.end == r.value.end && Closed(e.source, r.next)
    requires Complete(e.insert, max, depth)
    ensures var r, r2 := Value(e.source, max, depth, i), Value(e.After(), max, depth, i);
            && r2.Got? && r2.value == Inserted(e, max, depth)
            && Ws(e.After(), r2.next) == Ws(e.source, r.next) + e.Delta()
  {
    hide Value, Fits, Move, Ws, Edit.After;
    var b2 := e.After();
    var r, v := Value(e.source, max, depth, i), Value(e.insert, max, depth, 0);
    ValueSpan(e.source, max, depth, i);
    ValueSpan(e.insert, max, depth, 0);
    AfterBytes(e);
    WsBlank(e.source, i);
    WsIntoInsert(e, i, Ws(e.insert, 0));
    WsOutOfInsert(e, v.next);
    var w := Ws(e.source, r.next);
    assert w < |e.source| ==> b2[w + e.Delta()] == e.source[w];
    WsBlank(b2, v.next + e.start);
    assert NumberEnds(b2, v.next + e.start);
    WsIntoInsert(e, e.start, Ws(e.insert, 0));
    ValueSkipsWs(b2, max, depth, i, e.start);
    ValueFits(e.insert, max, depth, 0);
    AgreeWithin(e.insert, b2, e.start, 0, |e.insert|, 0, v.next);
    ValueMoves(e.insert, max, depth, 0, b2, max, depth, e.start);
  }

  /** The bytes an edit below a value replaces lie inside the value. */
  lemma {:induction false} EditInsideValue(e: Edit, max: nat, depth: nat, i: nat, route: seq<nat>)
    requires i <= |e.source| && Value(e.source, max, depth, i).Got?
    requires EditsBelow(e, max, depth, Value(e.source, max, depth, i).value, route)
    ensures var r := Value(e.source, max, depth, i);
            && i <= Ws(e.source, i) == r.value.start <= e.start && e.end <= r.next == r.value.end
            && (route != [] ==> r.value.start < e.start && e.end < r.next)
  {
    hide Value, Ws, Complete, Nested;
    var r := Value(e.source, max, depth, i);
    ValueNested(e.source, max, depth, i);
    ValueSpan(e.source, max, depth, i);
    DescendantInside(r.value, i, r.next, route);
  }

  lemma {:induction false} EditValue(e: Edit, max: nat, depth: nat, i: nat, route: seq<nat>)
    requires i <= e.start && i <= |e.source| && Value(e.source, max, depth, i).Got?
    requires var r := Value(e.source, max, depth, i); EditsBelow(e, max, depth, r.value, route) && Closed(e.source, r.next)
    ensures var r, r2 := Value(e.source, max, depth, i), Value(e.After(), max, depth, i);
            && r2.Got? && r2.value == Edited(e, max, depth, r.value, route)
            && Ws(e.After(), r2.next) == Ws(e.source, r.next) + e.Delta()
    decreases |e.source| - i, 0
  {
    hide Value, Ws, Complete, Edit.After, Inserted;
    EditInsideValue(e, max, depth, i, route);
    if route == [] {
      EditHere(e, max, depth, i);
    } else {
      EditInside(e, max, depth, i, route);
    }
  }

  lemma {:induction false} EditInside(e: Edit, max: nat, depth: nat, i: nat, route: seq<nat>)
    requires i <= e.start && i <= |e.source| && Value(e.source, max, depth, i).Got? && route != []
    requires var r := Value(e.source, max, depth, i);
             EditsBelow(e, max, depth, r.value, route) && Closed(e.source, r.next)
             && r.value.start < e.start && e.end < r.next && r.value.start == Ws(e.source, i)
    ensures var r, r2 := Value(e.source, max, depth, i), Value(e.After(), max, depth, i);
            && r2.Got? && r2.value == Edited(e, max, depth, r.value, route)
            && Ws(e.After(), r2.next) == Ws(e.source, r.next) + e.Delta()
    decreases |e.source| - i - 1, 5
  {
    hide Items, Members, Pair, Ws, Token, Fits, ArrayAt, ObjectAt, Numbered, Descend, Edited, Complete, Move, Edit.After;
    var b, b2 := e.source, e.After();
    var r := Value(b, max, depth, i);
    var s := Ws(b, i);
    AfterBytes(e);
    AgreeWithin(b, b2, 0, 0, e.start, i, s + 1);
    WsMoves(b, b2, 0, i, s + 1);
    assert b2[s + 0] == b[s];
    if b[s] == OPEN_BRACKET {
      EditArray(e, max, depth + 1, s, route);
    } else if b[s] == OPEN_BRACE {
      EditObject(e, max, depth + 1, s, route);
    } else {
      TokenIsLeaf(b, s);
      DescendLeaf(r.value, route);
      assert false;
    }
    WsAfter(e, r.next);
  }

  lemma {:induction false} DescendLeaf(n: Node, route: seq<nat>)
    requires route != [] && !n.kind.Array? && !n.kind.Object?
    ensures Descend(n, route).None?
  {
  }

  /** White space beyond the edit ends at the same place, moved. */
  lemma {:induction false} WsAfter(e: Edit, j: nat)
    requires e.InRange() && e.end <= j <= |e.source|
    ensures Ws(e.After(), j + e.Delta()) == Ws(e.source, j) + e.Delta()
  {
    hide Ws, IsWs, Edit.After;
    var b, b2, d := e.source, e.After(), e.Delta();
    var w := Ws(b, j);
    AfterBytes(e);
    WsBlank(b, j);
    forall k | j + d <= k < w + d ensures IsWs(b2[k]) {
      assert b2[k] == b[k - d];
    }
    assert w < |b| ==> b2[w + d] == b[w];
    WsIs(b2, j + d, w + d);
  }

  lemma {:induction false} EditArray(e: Edit, max: nat, depth: nat, s: nat, route: seq<nat>)
    requires s < |e.source| && e.source[s] == OPEN_BRACKET && ArrayAt(e.source, max, depth, s).Got? && route != [] && depth > 0
    requires EditsBelow(e, max, depth - 1, ArrayAt(e.source, max, depth, s).value, route)
    requires s < e.start && e.end < ArrayAt(e.source, max, depth, s).next
    ensures var r, r2 := ArrayAt(e.source, max, depth, s), ArrayAt(e.After(), max, depth, s);
            Becomes(r2, Edited(e, max, depth - 1, r.value, route), r.next + e.Delta())
    decreases |e.source| - s - 1, 3
  {
    hide Items, Ws, Inserted, Complete, Move, Edit.After, GraftItems;
    var b, b2 := e.source, e.After();
    var r := ArrayAt(b, max, depth, s);
    var k := Ws(b, s + 1);
    assert b[k] != CLOSE_BRACKET;
    var items := Items(b, max, depth, k).value;
    var c := items[route[0]];
    assert Descend(c, route[1..]) == Descend(r.value, route);
    ItemStart(e, max, depth, k, route[0], route[1..]);
    FirstItem(e, max, depth + |route| - 1, s, k);
    ItemsSkipWs(b2, max, depth, k, Ws(b2, s + 1));
    AfterBytes(e);
    assert b2[s + 0] == b[s];
    EditItems(e, max, depth, k, route[0], route[1..]);
  }

  /** The edit stands behind the first non-blank byte of the list that holds it. */
  lemma {:induction false} ItemStart(e: Edit, max: nat, depth: nat, i: nat, k: nat, route: seq<nat>)
    requires i <= |e.source| && Items(e.source, max, depth, i).Got?
    requires var items := Items(e.source, max, depth, i).value; k < |items| && EditsBelow(e, max, depth, items[k], route)
    ensures var r := Items(e.source, max, depth, i);
            i <= e.start < e.end < r.next
  {
    hide Items, Complete, Nested;
    var r := Items(e.source, max, depth, i);
    ItemsNested(e.source, max, depth, i, i);
    DescendantInside(r.value[k], i, r.next - 1, route);
    Bounds(r.value[k], i, r.next - 1);
  }

  /** Leading white space does not change what a list of items parses to. */
  lemma {:induction false} ItemsSkipWs(b: Bytes, max: nat, depth: nat, i: nat, k: nat)
    requires i <= k <= |b| && k <= Ws(b, i)
    ensures Items(b, max, depth, i) == Items(b, max, depth, k)
  {
    hide Value, Ws;
    ValueSkipsWs(b, max, depth, i, k);
  }

  /** A value does not start with a closing bracket. */
  lemma {:induction false} ValueOpens(b: Bytes, max: nat, depth: nat, i: nat)
    requires i <= |b| && Value(b, max, depth, i).Got?
    ensures Ws(b, i) < |b| && b[Ws(b, i)] != CLOSE_BRACKET
  {
    hide ArrayAt, ObjectAt, Ws, StringSpan, NumberSpan;
  }

  /** The first item is still found behind the bracket, even when it is the one being replaced. */
  lemma {:induction false} FirstItem(e: Edit, max: nat, depth: nat, s: nat, k: nat)
    requires e.InRange() && s < k <= e.start && e.start < |e.source| && k == Ws(e.source, s + 1) && e.source[k] != CLOSE_BRACKET
    requires Complete(e.insert, max, depth)
    ensures var k2 := Ws(e.After(), s + 1);
            k <= k2 < |e.After()| && k2 <= Ws(e.After(), k) && e.After()[k2] != CLOSE_BRACKET
  {
    hide Value, Ws, Edit.After;
    var b, b2 := e.source, e.After();
    AfterBytes(e);
    ValueOpens(e.insert, max, depth, 0);
    if k < e.start {
      AgreeWithin(b, b2, 0, 0, e.start, s + 1, k + 1);
      WsMoves(b, b2, 0, s + 1, k + 1);
      assert b2[k + 0] == b[k];
      WsIs(b2, k, k);
    } else {
      var lead := Ws(e.insert, 0);
      WsBlank(b, s + 1);
      WsIntoInsert(e, s + 1, lead);
      WsIntoInsert(e, k, lead);
      assert b2[e.start + lead] == e.insert[lead];
    }
  }

  lemma {:induction false} EditItems(e: Edit, max: nat, depth: nat, i: nat, k: nat, route: seq<nat>)
    requires i <= e.start && i <= |e.source| && Items(e.source, max, depth, i).Got?
    requires var items := Items(e.source, max, depth, i).value; k < |items| && EditsBelow(e, max, depth, items[k], route)
    ensures var r, r2 := Items(e.source, max, depth, i), Items(e.After(), max, depth, i);
            Becomes(r2, GraftItems(r.value, k, Edited(e, max, depth, r.value[k], route), e.Delta()), r.next + e.Delta())
    decreases |e.source| - i, 1
  {
    hide Value, Ws, Complete, Edited, Edit.After, GraftItems, Descend;
    var b := e.source;
    var r := Items(b, max, depth, i);
    var v, j := Value(b, max, depth, i).value, Value(b, max, depth, i).next;
    assert r.value[0] == v;
    if k == 0 {
      EditValue(e, max, depth, i, route);
      EditInsideValue(e, max, depth, i, route);
      LaterItems(e, max, depth, i, Edited(e, max, depth, v, route));
    } else {
      EditLaterItem(e, max, depth, i, k, route);
    }
  }

  lemma {:induction false} EditLaterItem(e: Edit, max: nat, depth: nat, i: nat, k: nat, route: seq<nat>)
    requires i <= e.start && i <= |e.source| && Items(e.source, max, depth, i).Got?
    requires var items := Items(e.source, max, depth, i).value; 0 < k < |items| && EditsBelow(e, max, depth, items[k], route)
    ensures var r, r2 := Items(e.source, max, depth, i), Items(e.After(), max, depth, i);
            Becomes(r2, GraftItems(r.value, k, Edited(e, max, depth, r.value[k], route), e.Delta()), r.next + e.Delta())
    decreases |e.source| - i, 0
  {
    hide Value, Ws, Complete, Edited, Edit.After, GraftItems, Descend, IsWs;
    var b := e.source;
    var r := Items(b, max, depth, i);
    var v, j := Value(b, max, depth, i).value, Value(b, max, depth, i).next;
    var w := Ws(b, j);
    assert b[w] == COMMA;
    var rest := Items(b, max, depth, w + 1).value;
    assert r.value == [v] + rest && r.value[k] == rest[k - 1];
    ItemStart(e, max, depth, w + 1, k - 1, route);
    EditItems(e, max, depth, w + 1, k - 1, route);
    EarlierItem(e, max, depth, i);
    GraftItemsCons(v, rest, k - 1, Edited(e, max, depth, r.value[k], route), e.Delta());
  }

  /** The items behind an edited one follow it, moved. */
  lemma {:induction false} LaterItems(e: Edit, max: nat, depth: nat, i: nat, x: Node)
    requires i <= e.start && e.InRange() && Items(e.source, max, depth, i).Got?
    requires var v := Value(e.source, max, depth, i); e.end <= v.next
    requires var v, v2 := Value(e.source, max, depth, i), Value(e.After(), max, depth, i);
             v2.Got? && v2.value == x && Ws(e.After(), v2.next) == Ws(e.source, v.next) + e.Delta()
    ensures var r, r2 := Items(e.source, max, depth, i), Items(e.After(), max, depth, i);
            Becomes(r2, GraftItems(r.value, 0, x, e.Delta()), r.next + e.Delta())
  {
    hide Value, Ws, Edit.After, GraftItems, Fits, Agree, IsWs;
    var b, b2, d := e.source, e.After(), e.Delta();
    var r := Items(b, max, depth, i);
    var v, j := Value(b, max, depth, i).value, Value(b, max, depth, i).next;
    var w := Ws(b, j);
    AfterBytes(e);
    AgreeAt(b, b2, d, e.end, |b|, w);
    if b[w] == COMMA {
      var rest := Items(b, max, depth, w + 1).value;
      ItemsFit(b, max, depth, w + 1);
      AgreeWithin(b, b2, d, e.end, |b|, w + 1, r.next);
      ItemsMove(b, max, depth, w + 1, b2, max, depth, d);
      GraftFirst(v, rest, x, d);
    } else {
      GraftFirst(v, [], x, d);
      assert [v] + [] == r.value && [x] + MoveItems([], d) == [x];
    }
  }

  lemma {:induction false} GraftFirst(v: Node, rest: seq<Node>, x: Node, d: int)
    ensures GraftItems([v] + rest, 0, x, d) == [x] + MoveItems(rest, d)
  {
    assert ([v] + rest)[1..] == rest;
  }

  /** An item in front of the edit, and the comma behind it, are untouched. */
  lemma {:induction false} EarlierItem(e: Edit, max: nat, depth: nat, i: nat)
    requires e.InRange() && i <= e.start && Items(e.source, max, depth, i).Got?
    requires var w := Ws(e.source, Value(e.source, max, depth, i).next); e.source[w] == COMMA && w + 1 <= e.start
    requires Items(e.After(), max, depth, Ws(e.source, Value(e.source, max, depth, i).next) + 1).Got?
    ensures var v := Value(e.source, max, depth, i); var r2 := Items(e.After(), max, depth, i);
            var rest := Items(e.After(), max, depth, Ws(e.source, v.next) + 1);
            Becomes(r2, [v.value] + rest.value, rest.next)
  {
    hide Value, Ws, Edit.After, Fits, Agree, IsWs, NumberEnds, Move;
    var b, b2 := e.source, e.After();
    var v, j := Value(b, max, depth, i).value, Value(b, max, depth, i).next;
    var w := Ws(b, j);
    AfterBytes(e);
    AgreeWithin(b, b2, 0, 0, e.start, i, j);
    AgreeWithin(b, b2, 0, 0, e.start, j, w + 1);
    SeparatorMoves(b, b2, 0, j, w + 1);
    ValueFits(b, max, depth, i);
    ValueMoves(b, max, depth, i, b2, max, depth, 0);
    MoveByZero(v);
  }

  lemma {:induction false} EditObject(e: Edit, max: nat, depth: nat, s: nat, route: seq<nat>)
    requires s < |e.source| && e.source[s] == OPEN_BRACE && ObjectAt(e.source, max, depth, s).Got? && route != [] && depth > 0
    requires EditsBelow(e, max, depth - 1, ObjectAt(e.source, max, depth, s).value, route)
    requires s < e.start && e.end < ObjectAt(e.source, max, depth, s).next
    ensures var r, r2 := ObjectAt(e.source, max, depth, s), ObjectAt(e.After(), max, depth, s);
            Becomes(r2, Edited(e, max, depth - 1, r.value, route), r.next + e.Delta())
    decreases |e.source| - s - 1, 4
  {
    hide Members, Ws, Inserted, Complete, Move, Edit.After, GraftMembers, GraftRaw, Numbered, IsWs;
    var b, b2 := e.source, e.After();
    var r := ObjectAt(b, max, depth, s);
    var k := Ws(b, s + 1);
    assert b[k] != CLOSE_BRACE;
    var raw := Members(b, max, depth, k).value;
    var c := raw[route[0]].value;
    assert Children(r.value)[route[0]] == c;
    assert Descend(c, route[1..]) == Descend(r.value, route);
    MemberStart(e, max, depth, k, route[0], route[1..]);
    AfterBytes(e);
    AgreeWithin(b, b2, 0, 0, e.start, s + 1, k + 1);
    WsMoves(b, b2, 0, s + 1, k + 1);
    assert b2[k + 0] == b[k];
    EditMembers(e, max, depth, k, route[0], route[1..]);
    NumberedGraft(raw, route[0], Edited(e, max, depth, c, route[1..]), e.Delta());
  }

  lemma {:induction false} MemberStart(e: Edit, max: nat, depth: nat, i: nat, k: nat, route: seq<nat>)
    requires i <= |e.source| && Members(e.source, max, depth, i).Got?
    requires var raw := Members(e.source, max, depth, i).value; k < |raw| && EditsBelow(e, max, depth, raw[k].value, route)
    ensures i < e.start < e.end < Members(e.source, max, depth, i).next
  {
    hide Members, Complete, Nested;
    var r := Members(e.source, max, depth, i);
    MembersNested(e.source, max, depth, i, i);
    DescendantInside(r.value[k].value, i, r.next - 1, route);
    Bounds(r.value[k].value, i, r.next - 1);
  }

  lemma {:induction false} EditPair(e: Edit, max: nat, depth: nat, i: nat, route: seq<nat>)
    requires i <= e.start && i <= |e.source| && Pair(e.source, max, depth, i).Got?
    requires var r := Pair(e.source, max, depth, i); EditsBelow(e, max, depth, r.value.value, route) && Closed(e.source, r.next)
    ensures var r, r2 := Pair(e.source, max, depth, i), Pair(e.After(), max, depth, i);
            && r2.Got? && r2.value == r.value.(value := Edited(e, max, depth, r.value.value, route))
            && Ws(e.After(), r2.next) == Ws(e.source, r.next) + e.Delta()
            && e.end <= r.next
    decreases |e.source| - i, 1
  {
    hide Value, Ws, StringSpan, Edited, Complete, Descend, DecodeString, Edit.After;
    var b, b2 := e.source, e.After();
    var r := Pair(b, max, depth, i);
    var k := Ws(b, i);
    var j := StringSpan(b, k).next;
    var c := Ws(b, j);
    EditInsideValue(e, max, depth, c + 1, route);
    EditValue(e, max, depth, c + 1, route);
    AfterBytes(e);
    KeyKept(b, b2, i, e.start);
  }

  /** The key and colon of a pair are read from the bytes they occupy. */
  lemma {:induction false} KeyKept(b: Bytes, b2: Bytes, i: nat, hi: nat)
    requires i <= |b| && i <= |b2| && StringSpan(b, Ws(b, i)).Got?
    requires var c := Ws(b, StringSpan(b, Ws(b, i)).next); c < hi && hi <= |b| && hi <= |b2| && Agree(b, b2, 0, 0, hi)
    ensures var k := Ws(b, i); var j := StringSpan(b, k).next; var c := Ws(b, j);
            && Ws(b2, i) == k && StringSpan(b2, k).Got? && StringSpan(b2, k).next == j && b2[k..j] == b[k..j]
            && Ws(b2, j) == c && b2[c] == b[c]
  {
    hide Ws, StringSpan, Agree, IsWs;
    var k := Ws(b, i);
    var j := StringSpan(b, k).next;
    var c := Ws(b, j);
    AgreeWithin(b, b2, 0, 0, hi, i, j);
    AgreeWithin(b, b2, 0, 0, hi, k, j);
    AgreeWithin(b, b2, 0, 0, hi, j, c + 1);
    WsMoves(b, b2, 0, i, j);
    StringSpanMoves(b, b2, 0, k);
    AgreeSlice(b, b2, 0, i, j, k, j);
    WsMoves(b, b2, 0, j, c + 1);
    AgreeAt(b, b2, 0, j, c + 1, c);
  }

  lemma {:induction false} EditMembers(e: Edit, max: nat, depth: nat, i: nat, k: nat, route: seq<nat>)
    requires i <= e.start && i <= |e.source| && Members(e.source, max, depth, i).Got?
    requires var raw := Members(e.source, max, depth, i).value; k < |raw| && EditsBelow(e, max, depth, raw[k].value, route)
    ensures var r, r2 := Members(e.source, max, depth, i), Members(e.After(), max, depth, i);
            Becomes(r2, GraftRaw(r.value, k, Edited(e, max, depth, r.value[k].value, route), e.Delta()), r.next + e.Delta())
    decreases |e.source| - i, 2
  {
    hide Value, Pair, Ws, Complete, Edited, Edit.After, GraftRaw, Descend;
    var b := e.source;
    var r := Members(b, max, depth, i);
    var m, j := Pair(b, max, depth, i).value, Pair(b, max, depth, i).next;
    assert r.value[0] == m;
    if k == 0 {
      EditPair(e, max, depth, i, route);
      LaterMembers(e, max, depth, i, Edited(e, max, depth, m.value, route));
    } else {
      EditLaterMember(e, max, depth, i, k, route);
    }
  }

  lemma {:induction false} EditLaterMember(e: Edit, max: nat, depth: nat, i: nat, k: nat, route: seq<nat>)
    requires i <= e.start && i <= |e.source| && Members(e.source, max, depth, i).Got?
    requires var raw := Members(e.source, max, depth, i).value; 0 < k < |raw| && EditsBelow(e, max, depth, raw[k].value, route)
    ensures var r, r2 := Members(e.source, max, depth, i), Members(e.After(), max, depth, i);
            Becomes(r2, GraftRaw(r.value, k, Edited(e, max, depth, r.value[k].value, route), e.Delta()), r.next + e.Delta())
    decreases |e.source| - i, 1
  {
    hide Value, Pair, Ws, Complete, Edited, Edit.After, GraftRaw, Descend, IsWs;
    var b := e.source;
    var r := Members(b, max, depth, i);
    var m, j := Pair(b, max, depth, i).value, Pair(b, max, depth, i).next;
    var w := Ws(b, j);
    assert b[w] == COMMA;
    var rest := Members(b, max, depth, w + 1).value;
    assert r.value == [m] + rest && r.value[k] == rest[k - 1];
    MemberStart(e, max, depth, w + 1, k - 1, route);
    EditMembers(e, max, depth, w + 1, k - 1, route);
    EarlierMember(e, max, depth, i);
    GraftRawCons(m, rest, k - 1, Edited(e, max, depth, r.value[k].value, route), e.Delta());
  }

  /** The members behind an edited one follow it, moved. */
  lemma {:induction false} LaterMembers(e: Edit, max: nat, depth: nat, i: nat, x: Node)
    requires i <= e.start && e.InRange() && Members(e.source, max, depth, i).Got?
    requires var m := Pair(e.source, max, depth, i); e.end <= m.next
    requires var m, m2 := Pair(e.source, max, depth, i), Pair(e.After(), max, depth, i);
             m2.Got? && m2.value == m.value.(value := x) && Ws(e.After(), m2.next) == Ws(e.source, m.next) + e.Delta()
    ensures var r, r2 := Members(e.source, max, depth, i), Members(e.After(), max, depth, i);
            Becomes(r2, GraftRaw(r.value, 0, x, e.Delta()), r.next + e.Delta())
  {
    hide Pair, Ws, Edit.After, GraftRaw, Fits, Agree, IsWs;
    var b, b2, d := e.source, e.After(), e.Delta();
    var r := Members(b, max, depth, i);
    var m, j := Pair(b, max, depth, i).value, Pair(b, max, depth, i).next;
    var w := Ws(b, j);
    AfterBytes(e);
    AgreeAt(b, b2, d, e.end, |b|, w);
    if b[w] == COMMA {
      var rest := Members(b, max, depth, w + 1).value;
      MembersFit(b, max, depth, w + 1);
      AgreeWithin(b, b2, d, e.end, |b|, w + 1, r.next);
      MembersMove(b, max, depth, w + 1, b2, max, depth, d);
      GraftFirstRaw(m, rest, x, d);
    } else {
      var m2 := m.(value := x);
      GraftFirstRaw(m, [], x, d);
      assert [m] + [] == r.value && [m2] + MoveRaws([], d) == [m2];
    }
  }

  lemma {:induction false} GraftFirstRaw(m: RawMember, rest: seq<RawMember>, x: Node, d: int)
    ensures GraftRaw([m] + rest, 0, x, d) == [m.(value := x)] + MoveRaws(rest, d)
  {
    assert ([m] + rest)[1..] == rest;
  }

  /** A member in front of the edit, and the comma behind it, are untouched. */
  lemma {:induction false} EarlierMember(e: Edit, max: nat, depth: nat, i: nat)
    requires e.InRange() && i <= e.start && Members(e.source, max, depth, i).Got?
    requires var w := Ws(e.source, Pair(e.source, max, depth, i).next); e.source[w] == COMMA && w + 1 <= e.start
    requires Members(e.After(), max, depth, Ws(e.source, Pair(e.source, max, depth, i).next) + 1).Got?
    ensures var m := Pair(e.source, max, depth, i); var r2 := Members(e.After(), max, depth, i);
            var rest := Members(e.After(), max, depth, Ws(e.source, m.next) + 1);
            Becomes(r2, [m.value] + rest.value, rest.next)
  {
    hide Pair, Ws, Edit.After, Fits, Agree, IsWs, NumberEnds, Move;
    var b, b2 := e.source, e.After();
    var m, j := Pair(b, max, depth, i).value, Pair(b, max, depth, i).next;
    var w := Ws(b, j);
    AfterBytes(e);
    AgreeWithin(b, b2, 0, 0, e.start, i, j);
    AgreeWithin(b, b2, 0, 0, e.start, j, w + 1);
    SeparatorMoves(b, b2, 0, j, w + 1);
    PairFits(b, max, depth, i);
    PairMoves(b, max, depth, i, b2, max, depth, 0);
    MoveByZero(m.value);
  }

  lemma {:induction false} PairFits(b: Bytes, max: nat, depth: nat, i: nat)
    requires i <= |b| && Pair(b, max, depth, i).Got?
    ensures Fits(Pair(b, max, depth, i).value.value, max - depth)
  {
    var j := StringSpan(b, Ws(b, i)).next;
    ValueFits(b, max, depth, Ws(b, j) + 1);
  }
}
