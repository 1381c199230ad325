/**
  The document-level guarantees of `pr-json`: looking a path up, replacing the node it names, and
  what a replacement leaves alone.
 */
module JsonDocument {
  import opened Prelude
  import opened Utf8
  import opened JsonDom
  import opened JsonTree
  import opened JsonStability
  import opened JsonEdit
  import opened JsonPath

  /** `Document::get` after its path has been parsed: the node the steps lead to. */
  function Get(doc: Document, steps: seq<Step>): Result<Node, JsonError> {
    match Locate(doc.root, steps)
    case Err(e) => Err(e)
    case Ok(route) => Ok(Descend(doc.root, route).value)
  }

  /** `Document::replace` after its path has been parsed. */
  function Replace(doc: Document, steps: seq<Step>, insert: Bytes): Result<Bytes, JsonError>
    requires Sound(doc)
  {
    match Locate(doc.root, steps)
    case Err(e) => Err(e)
    case Ok(route) =>
      var t := Descend(doc.root, route).value;
      DescendantInside(doc.root, 0, |doc.source|, route);
      Ok(Edit(doc.source, t.start, t.end, insert).After())
  }

  /** The spans of a document lie in its source. */
  predicate Sound(doc: Document) {
    Nested(doc.root, 0, |doc.source|)
  }

  /** Every parsed document has nested spans inside its source and members numbered by rank. */
  lemma {:induction false} ParsedIsSound(source: Bytes, max: nat)
    requires ParseDocument(source, max).Ok?
    ensures var doc := ParseDocument(source, max).value;
            doc.source == source && Sound(doc) && WellNumbered(doc.root) && Fits(doc.root, max)
  {
    hide Value, Nested, WellNumbered, Fits;
    ValueNested(source, max, 0, 0);
    ValueWellNumbered(source, max, 0, 0);
    ValueFits(source, max, 0, 0);
    Widen(Value(source, max, 0, 0).value, 0, Value(source, max, 0, 0).next, 0, |source|);
  }

  // ---------------------------------------------------------------- the inserted text

  /** The position after the last non-blank byte. */
  function TrimEnd(b: Bytes): (j: nat)
    ensures j <= |b|
  {
    if b != [] && IsWs(b[|b| - 1]) then TrimEnd(b[..|b| - 1]) else |b|
  }

  /** The text without the white space around it. */
  function Trim(b: Bytes): Bytes {
    if Ws(b, 0) <= TrimEnd(b) then b[Ws(b, 0)..TrimEnd(b)] else []
  }

  lemma {:induction false} TrimEndIs(b: Bytes, j: nat)
    requires 0 < j <= |b| && !IsWs(b[j - 1]) && forall k :: j <= k < |b| ==> IsWs(b[k])
    ensures TrimEnd(b) == j
  {
    if j < |b| {
      TrimEndIs(b[..|b| - 1], j);
    }
  }

  /** A value does not end in white space. */
  lemma {:induction false} ValueEndsTight(b: Bytes, max: nat, depth: nat, i: nat)
    requires i <= |b| && Value(b, max, depth, i).Got?
    ensures !IsWs(b[Value(b, max, depth, i).next - 1])
  {
    hide Ws, Items, Members, Numbered, Token;
    var s := Ws(b, i);
    if b[s] == OPEN_BRACKET {
      if b[Ws(b, s + 1)] != CLOSE_BRACKET {
        ItemsEndTight(b, max, depth + 1, Ws(b, s + 1));
      }
    } else if b[s] == OPEN_BRACE {
      if b[Ws(b, s + 1)] != CLOSE_BRACE {
        MembersEndTight(b, max, depth + 1, Ws(b, s + 1));
      }
    } else {
      TokenEndsTight(b, s);
    }
  }

  lemma {:induction false} ItemsEndTight(b: Bytes, max: nat, depth: nat, i: nat)
    requires i <= |b| && Items(b, max, depth, i).Got?
    ensures b[Items(b, max, depth, i).next - 1] == CLOSE_BRACKET
    decreases |b| - i
  {
    hide Value, Ws;
    var w := Ws(b, Value(b, max, depth, i).next);
    if b[w] == COMMA {
      ItemsEndTight(b, max, depth, w + 1);
    }
  }

  lemma {:induction false} MembersEndTight(b: Bytes, max: nat, depth: nat, i: nat)
    requires i <= |b| && Members(b, max, depth, i).Got?
    ensures b[Members(b, max, depth, i).next - 1] == CLOSE_BRACE
    decreases |b| - i
  {
    hide Pair, Ws;
    var w := Ws(b, Pair(b, max, depth, i).next);
    if b[w] == COMMA {
      MembersEndTight(b, max, depth, w + 1);
    }
  }

  lemma {:induction false} TokenEndsTight(b: Bytes, s: nat)
    requires s < |b| && Token(b, s).Got?
    ensures !IsWs(b[Token(b, s).next - 1])
  {
    hide StringSpan, NumberSpan;
    var j := Token(b, s).next;
    if b[s] == QUOTE {
    } else if b[s] == MINUS || IsDigit(b[s]) {
      NumberEndsInDigit(b, s);
    } else {
      assert b[j - 1] == b[s..j][j - s - 1];
      assert NULL[3] == 0x6C && TRUE[3] == 0x65 && FALSE[4] == 0x65;
    }
  }

  lemma {:induction false} DigitsAreDigits(b: Bytes, i: nat)
    requires i <= |b| && i < Digits(b, i)
    ensures IsDigit(b[Digits(b, i) - 1])
    decreases |b| - i
  {
    if i + 1 < Digits(b, i) {
      DigitsAreDigits(b, i + 1);
    }
  }

  lemma {:induction false} NumberEndsInDigit(b: Bytes, i: nat)
    requires i <= |b| && NumberSpan(b, i).Got?
    ensures IsDigit(b[NumberSpan(b, i).next - 1])
  {
    hide Digits;
    var a := AfterMinus(b, i);
    var j := IntPart(b, a).next;
    if b[a] != 0x30 {
      assert j > a;
      DigitsAreDigits(b, a);
    }
    var k := Fraction(b, j).next;
    if k > j {
      DigitsAreDigits(b, j + 1);
    }
    if Exponent(b, k).next > k {
      DigitsAreDigits(b, AfterSign(b, k + 1));
    }
  }

  // ---------------------------------------------------------------- levels that remain

  /** How deep a value may still nest below `route`. */
  function Remaining(max: nat, route: seq<nat>): nat {
    if |route| <= max then max - |route| else 0
  }

  /** A value that parses on its own within the remaining levels is complete at its place. */
  lemma {:induction false} CompleteAtDepth(insert: Bytes, max: nat, route: seq<nat>)
    requires ParseDocument(insert, Remaining(max, route)).Ok?
    ensures Complete(insert, max, |route|)
    ensures Value(insert, max, |route|, 0).value == ParseDocument(insert, Remaining(max, route)).value.root
  {
    hide Value, Fits, Move, Ws;
    var m := Remaining(max, route);
    var r := Value(insert, m, 0, 0);
    assert m > 0 by { PositiveLimit(insert, m); }
    ValueFits(insert, m, 0, 0);
    assert NumberEnds(insert, r.next) by { WsBlank(insert, r.next); }
    ValueMoves(insert, m, 0, 0, insert, max, |route|, 0);
    MoveByZero(r.value);
  }

  lemma {:induction false} PositiveLimit(b: Bytes, max: nat)
    requires Value(b, max, 0, 0).Got?
    ensures max > 0
  {
  }

  // ---------------------------------------------------------------- edit locality

  /** What `replace` hands back parses again, to the tree with the new value grafted in. */
  lemma {:induction false} ReplaceParses(source: Bytes, max: nat, steps: seq<Step>, insert: Bytes)
    requires ParseDocument(source, max).Ok?
    requires var doc := ParseDocument(source, max).value; Sound(doc) && Locate(doc.root, steps).Ok?
    requires var route := Locate(ParseDocument(source, max).value.root, steps).value;
             ParseDocument(insert, Remaining(max, route)).Ok?
    ensures var doc := ParseDocument(source, max).value;
            var route := Locate(doc.root, steps).value;
            var t := Descend(doc.root, route).value;
            var m := ParseDocument(insert, Remaining(max, route)).value.root;
            var after := Replace(doc, steps, insert);
            && after.Ok?
            && ParseDocument(after.value, max) ==
               Ok(Document(after.value, Graft(doc.root, route, Move(m, t.start), |insert| - (t.end - t.start))))
  {
    hide Value, Ws, Nested, Graft, Move, Edit.After, Locate, Descend, Closed;
    var doc := ParseDocument(source, max).value;
    var route := Locate(doc.root, steps).value;
    var t := Descend(doc.root, route).value;
    DescendantInside(doc.root, 0, |source|, route);
    CompleteAtDepth(insert, max, route);
    var e := Edit(source, t.start, t.end, insert);
    assert Closed(source, Value(source, max, 0, 0).next) by { ClosedAtEnd(source, Value(source, max, 0, 0).next); }
    assert EditsBelow(e, max, 0, doc.root, route);
    EditValue(e, max, 0, 0, route);
  }

  lemma {:induction false} ClosedAtEnd(b: Bytes, j: nat)
    requires j <= |b| && Ws(b, j) == |b|
    ensures Closed(b, j)
  {
  }

  /** The labels of a node: what kind it is, and for an object its keys with their numbers. */
  predicate SameLabels(n: Node, m: Node) {
    match (n.kind, m.kind)
    case (Array(x), Array(y)) => |x| == |y|
    case (Object(x), Object(y)) =>
      && |x| == |y|
      && forall k :: 0 <= k < |x| ==>
           x[k].key == y[k].key && x[k].occurrence == y[k].occurrence && x[k].total == y[k].total
    case _ => n.kind == m.kind
  }

  lemma {:induction false} DescendMove(n: Node, d: int, route: seq<nat>)
    ensures Descend(Move(n, d), route) ==
            match Descend(n, route) { case None => None case Some(t) => Some(Move(t, d)) }
    decreases |route|
  {
    MoveKeepsChildren(n, d);
    if route != [] && route[0] < |Children(n)| {
      DescendMove(Children(n)[route[0]], d, route[1..]);
    }
  }

  lemma {:induction false} MoveKeepsChildren(n: Node, d: int)
    ensures |Children(Move(n, d))| == |Children(n)| && SameLabels(n, Move(n, d))
    ensures forall k :: 0 <= k < |Children(n)| ==> Children(Move(n, d))[k] == Move(Children(n)[k], d)
  {
  }

  /** A grafted node keeps its labels; its children are the old ones, the new one, and moved ones. */
  lemma {:induction false} GraftKeepsChildren(n: Node, route: seq<nat>, m: Node, d: int)
    requires Descend(n, route).Some? && route != []
    ensures var g, k := Graft(n, route, m, d), route[0];
            && SameLabels(n, g) && |Children(g)| == |Children(n)|
            && g.start == n.start && g.end == n.end + d
            && Children(g)[k] == Graft(Children(n)[k], route[1..], m, d)
            && (forall j :: 0 <= j < k ==> Children(g)[j] == Children(n)[j])
            && (forall j :: k < j < |Children(n)| ==> Children(g)[j] == Move(Children(n)[j], d))
  {
    hide Move, MoveItems, MoveMembers;
  }

  /** What the edited tree holds at a route that does not pass through the edited node. */
  ghost predicate Kept(before: Option<Node>, after: Option<Node>, t: Node, d: int) {
    match (before, after)
    case (None, None) => true
    case (Some(x), Some(y)) =>
      (y == x && x.end <= t.start) || (y == Move(x, d) && t.end <= x.start)
    case _ => false
  }

  /** At any route beside the edit the node is the old one, moved if it stood behind the edit. */
  lemma {:induction false} GraftBeside(n: Node, lo: int, hi: int, route: seq<nat>, m: Node, d: int, other: seq<nat>)
    requires Nested(n, lo, hi) && Descend(n, route).Some? && !(route <= other) && !(other <= route)
    ensures Kept(Descend(n, other), Descend(Graft(n, route, m, d), other), Descend(n, route).value, d)
    decreases |route|
  {
    hide Graft, Move, Nested;
    var g := Graft(n, route, m, d);
    var t := Descend(n, route).value;
    GraftKeepsChildren(n, route, m, d);
    var k, j := route[0], other[0];
    if j < |Children(n)| {
      ChildNested(n, lo, hi, k);
      ChildNested(n, lo, hi, j);
      if j == k {
        assert !(route[1..] <= other[1..]) by { PrefixTail(route, other); }
        assert !(other[1..] <= route[1..]) by { PrefixTail(other, route); }
        GraftBeside(Children(n)[k], n.start + 1, n.end - 1, route[1..], m, d, other[1..]);
      } else {
        ChildrenOrdered(n, lo, hi, k, j);
        DescendantInside(Children(n)[k], n.start + 1, n.end - 1, route[1..]);
        DescendMove(Children(n)[j], d, other[1..]);
        if Descend(Children(n)[j], other[1..]).Some? {
          DescendantInside(Children(n)[j], n.start + 1, n.end - 1, other[1..]);
        }
      }
    }
  }

  lemma {:induction false} PrefixTail(a: seq<nat>, c: seq<nat>)
    requires a != [] && c != [] && a[0] == c[0]
    ensures a[1..] <= c[1..] ==> a <= c
  {
    if a[1..] <= c[1..] {
      assert forall k :: 0 < k < |a| ==> a[k] == a[1..][k - 1] == c[1..][k - 1] == c[k];
    }
  }

  lemma {:induction false} ChildNested(n: Node, lo: int, hi: int, k: nat)
    requires Nested(n, lo, hi) && k < |Children(n)|
    ensures Nested(Children(n)[k], n.start + 1, n.end - 1)
  {
  }

  lemma {:induction false} ChildrenOrdered(n: Node, lo: int, hi: int, j: nat, k: nat)
    requires Nested(n, lo, hi) && j < |Children(n)| && k < |Children(n)| && j != k
    ensures j < k ==> Children(n)[j].end < Children(n)[k].start
    ensures k < j ==> Children(n)[k].end < Children(n)[j].start
  {
  }

  /** Above the edit nothing but the end of a node changes, and the edited route holds the new node. */
  lemma {:induction false} GraftAlong(n: Node, route: seq<nat>, m: Node, d: int, above: seq<nat>)
    requires Descend(n, route).Some? && above <= route
    ensures var g := Graft(n, route, m, d);
            && Descend(g, route) == Some(m)
            && Descend(g, above).Some? && Descend(n, above).Some?
            && (above != route ==>
                  && SameLabels(Descend(n, above).value, Descend(g, above).value)
                  && Descend(g, above).value.start == Descend(n, above).value.start
                  && Descend(g, above).value.end == Descend(n, above).value.end + d)
    decreases |route|
  {
    hide Graft, SameLabels;
    if route == [] {
      GraftHere(n, m, d);
    } else {
      GraftKeepsChildren(n, route, m, d);
      var c := Children(n)[route[0]];
      if above == [] {
        GraftAlong(c, route[1..], m, d, []);
      } else {
        GraftAlong(c, route[1..], m, d, above[1..]);
      }
    }
  }

  lemma {:induction false} GraftHere(n: Node, m: Node, d: int)
    ensures Graft(n, [], m, d) == m
  {
  }

  /** Steps choose by labels, so nodes with the same labels send a step to the same child. */
  lemma {:induction false} ChooseBySameLabels(n: Node, m: Node, st: Step)
    requires SameLabels(n, m)
    ensures Choose(n, st) == Choose(m, st)
  {
    if n.kind.Object? && st.Named? {
      SearchBySameLabels(n.kind.members, m.kind.members, st.name, 0);
      if st.occurrence.Some? {
        OccurrenceBySameLabels(n.kind.members, m.kind.members, st.name, st.occurrence.value, 0);
      }
    }
  }

  predicate SameMembers(x: seq<Member>, y: seq<Member>) {
    |x| == |y| && forall k :: 0 <= k < |x| ==> x[k].key == y[k].key && x[k].occurrence == y[k].occurrence
  }

  lemma {:induction false} SearchBySameLabels(x: seq<Member>, y: seq<Member>, name: Text, k: nat)
    requires SameMembers(x, y) && k <= |x|
    ensures FirstNamed(x, name, k) == FirstNamed(y, name, k) && CountNamed(x, name) == CountNamed(y, name)
    decreases |x|, |x| - k
  {
    if k < |x| {
      SearchBySameLabels(x, y, name, k + 1);
    } else if x != [] {
      SearchBySameLabels(x[1..], y[1..], name, 0);
    }
  }

  lemma {:induction false} OccurrenceBySameLabels(x: seq<Member>, y: seq<Member>, name: Text, o: nat, k: nat)
    requires SameMembers(x, y) && k <= |x|
    ensures FirstOccurrence(x, name, o, k) == FirstOccurrence(y, name, o, k)
    decreases |x| - k
  {
    if k < |x| {
      OccurrenceBySameLabels(x, y, name, o, k + 1);
    }
  }

  /** The same steps lead along the same route to the grafted node. */
  lemma {:induction false} LocateThroughGraft(n: Node, steps: seq<Step>, m: Node, d: int)
    requires Locate(n, steps).Ok?
    ensures Locate(Graft(n, Locate(n, steps).value, m, d), steps) == Locate(n, steps)
    decreases |steps|
  {
    hide Choose, SameLabels, Graft;
    if steps != [] {
      var route := Locate(n, steps).value;
      var k := Choose(n, steps[0]).value;
      var c := Children(n)[k];
      assert route[0] == k && route[1..] == Locate(c, steps[1..]).value;
      GraftKeepsChildren(n, route, m, d);
      ChooseBySameLabels(n, Graft(n, route, m, d), steps[0]);
      LocateThroughGraft(c, steps[1..], m, d);
    }
  }

  /** The bytes of a kept node are the bytes it had. */
  lemma {:induction false} KeptRaw(e: Edit, x: Node, t: Node)
    requires e.InRange() && e.start == t.start && e.end == t.end && 0 <= x.start <= x.end <= |e.source|
    ensures x.end <= t.start ==> Raw(e.After(), x) == Raw(e.source, x)
    ensures t.end <= x.start ==> Raw(e.After(), Move(x, e.Delta())) == Raw(e.source, x)
  {
    var b2 := e.After();
    AfterBytes(e);
    if x.end <= t.start {
      AgreeSlice(e.source, b2, 0, 0, e.start, x.start, x.end);
    }
    if t.end <= x.start {
      AgreeSlice(e.source, b2, e.Delta(), e.end, |e.source|, x.start, x.end);
    }
  }

  /** The document `replace` produces. */
  ghost predicate Replaced(source: Bytes, max: nat, steps: seq<Step>, insert: Bytes, doc: Document, doc2: Document, route: seq<nat>) {
    && ParseDocument(source, max) == Ok(doc)
    && Sound(doc)
    && Locate(doc.root, steps) == Ok(route)
    && ParseDocument(insert, Remaining(max, route)).Ok?
    && Replace(doc, steps, insert).Ok?
    && ParseDocument(Replace(doc, steps, insert).value, max) == Ok(doc2)
  }

  /**
    Edit locality, the edited node: replacing the node some steps name with any complete value that
    fits the remaining depth gives a document that parses; the same steps lead along the same route to
    a node whose bytes are the new text without its surrounding white space.
   */
  lemma {:induction false} ReplaceInstallsValue(source: Bytes, max: nat, steps: seq<Step>, insert: Bytes)
    returns (doc: Document, doc2: Document, route: seq<nat>)
    requires ParseDocument(source, max).Ok?
    requires Locate(ParseDocument(source, max).value.root, steps).Ok?
    requires var route := Locate(ParseDocument(source, max).value.root, steps).value;
             ParseDocument(insert, Remaining(max, route)).Ok?
    ensures Replaced(source, max, steps, insert, doc, doc2, route)
    ensures Locate(doc2.root, steps) == Ok(route)
    ensures Get(doc2, steps).Ok? && Raw(doc2.source, Get(doc2, steps).value) == Trim(insert)
  {
    hide Value, Graft, Move, Locate, Nested, WellNumbered, Fits, Edit.After, Ws, TrimEnd;
    doc := ParseDocument(source, max).value;
    ParsedIsSound(source, max);
    ReplaceParses(source, max, steps, insert);
    route := Locate(doc.root, steps).value;
    doc2 := ParseDocument(Replace(doc, steps, insert).value, max).value;
    var t := Descend(doc.root, route).value;
    DescendantInside(doc.root, 0, |source|, route);
    var e := Edit(source, t.start, t.end, insert);
    var m := ParseDocument(insert, Remaining(max, route)).value.root;
    LocateThroughGraft(doc.root, steps, Move(m, t.start), e.Delta());
    GraftAlong(doc.root, route, Move(m, t.start), e.Delta(), route);
    InsertedRaw(e, Remaining(max, route));
  }

  /** The bytes of the inserted node are the trimmed text. */
  lemma {:induction false} InsertedRaw(e: Edit, max: nat)
    requires e.InRange() && ParseDocument(e.insert, max).Ok?
    ensures Raw(e.After(), Move(ParseDocument(e.insert, max).value.root, e.start)) == Trim(e.insert)
  {
    hide Value, Ws, Edit.After, IsWs;
    var r := Value(e.insert, max, 0, 0);
    ValueSpan(e.insert, max, 0, 0);
    ValueEndsTight(e.insert, max, 0, 0);
    WsBlank(e.insert, r.next);
    TrimEndIs(e.insert, r.next);
    AfterBytes(e);
    AgreeSlice(e.insert, e.After(), e.start, 0, |e.insert|, r.value.start, r.next);
    MoveSpan(r.value, e.start);
  }

  lemma {:induction false} MoveSpan(n: Node, d: int)
    ensures Move(n, d).start == n.start + d && Move(n, d).end == n.end + d
  {
  }

  /**
    Edit locality, every other node: a node that is neither an ancestor nor a descendant of the edited
    one is still at its route with its bytes unchanged, and no route there appears or disappears; an
    ancestor keeps its kind, its keys and its occurrence numbers.
   */
  lemma {:induction false} ReplaceKeepsTheRest(source: Bytes, max: nat, steps: seq<Step>, insert: Bytes,
                                               doc: Document, doc2: Document, route: seq<nat>, other: seq<nat>)
    requires Replaced(source, max, steps, insert, doc, doc2, route) && !(route <= other)
    ensures Descend(doc2.root, other).Some? <==> Descend(doc.root, other).Some?
    ensures Descend(doc.root, other).Some? ==>
              SameLabels(Descend(doc.root, other).value, Descend(doc2.root, other).value)
    ensures Descend(doc.root, other).Some? && !(other <= route) ==>
              Raw(doc2.source, Descend(doc2.root, other).value) == Raw(source, Descend(doc.root, other).value)
  {
    hide Value, Graft, Move, Locate, Nested, SameLabels, Edit.After, Raw, Children;
    ReplaceParses(source, max, steps, insert);
    var t := Descend(doc.root, route).value;
    DescendantInside(doc.root, 0, |source|, route);
    var e := Edit(source, t.start, t.end, insert);
    var m := Move(ParseDocument(insert, Remaining(max, route)).value.root, t.start);
    if other <= route {
      GraftAlong(doc.root, route, m, e.Delta(), other);
    } else {
      GraftBeside(doc.root, 0, |source|, route, m, e.Delta(), other);
      if Descend(doc.root, other).Some? {
        var x := Descend(doc.root, other).value;
        DescendantInside(doc.root, 0, |source|, other);
        KeptRaw(e, x, t);
        MoveKeepsChildren(x, e.Delta());
        LabelsReflexive(x);
      }
    }
  }

  lemma {:induction false} LabelsReflexive(n: Node)
    ensures SameLabels(n, n)
  {
  }
}
