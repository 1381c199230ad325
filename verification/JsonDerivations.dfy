/** The parser accepts exactly the derived texts, and its tree is that of the derivation. */
module JsonDerivations {
  import opened Prelude
  import opened JsonStrings
  import opened JsonDom
  import opened JsonStability
  import opened JsonEdit
  import opened JsonGrammar
  import JsonNumerals
  import JsonRoundTrip

  ghost predicate GoodItem(x: Item, levels: int) {
    White(x.lead) && Good(x.value, levels) && White(x.trail)
  }

  ghost predicate GoodItems(items: seq<Item>, levels: int) {
    forall k :: 0 <= k < |items| ==> GoodItem(items[k], levels)
  }

  ghost predicate GoodPart(m: Part, levels: int) {
    && White(m.lead) && IsToken(m.key) && DecodeString(m.key).Some? && White(m.mid) && White(m.next)
    && Good(m.value, levels) && White(m.trail)
  }

  ghost predicate GoodParts(members: seq<Part>, levels: int) {
    forall k :: 0 <= k < |members| ==> GoodPart(members[k], levels)
  }

  lemma {:induction false} GoodHasLevel(t: Tree, levels: int)
    requires Good(t, levels)
    ensures levels >= 1
  {
  }

  lemma {:induction false} GoodArray(t: Tree, levels: int)
    requires t.OfArray?
    ensures Good(t, levels) <==> levels >= 1 && White(t.hollow) && GoodItems(t.items, levels - 1)
  {
    hide White;
    if Good(t, levels) {
      forall k | 0 <= k < |t.items| ensures GoodItem(t.items[k], levels - 1) {
        assert ItemDerives(t.items[k]);
      }
    }
    if GoodItems(t.items, levels - 1) {
      forall k | 0 <= k < |t.items|
        ensures ItemDerives(t.items[k]) && KeysDecode(t.items[k].value) && Within(t.items[k].value, levels - 1)
      {
        assert GoodItem(t.items[k], levels - 1);
      }
    }
  }

  lemma {:induction false} GoodObject(t: Tree, levels: int)
    requires t.OfObject?
    ensures Good(t, levels) <==> levels >= 1 && White(t.hollow) && GoodParts(t.members, levels - 1)
  {
    hide White, IsToken, DecodeString;
    if Good(t, levels) {
      forall k | 0 <= k < |t.members| ensures GoodPart(t.members[k], levels - 1) {
        assert PartDerives(t.members[k]);
      }
    }
    if GoodParts(t.members, levels - 1) {
      forall k | 0 <= k < |t.members|
        ensures PartDerives(t.members[k]) && DecodeString(t.members[k].key).Some?
        ensures KeysDecode(t.members[k].value) && Within(t.members[k].value, levels - 1)
      {
        assert GoodPart(t.members[k], levels - 1);
      }
    }
  }

  lemma {:induction false} GoodIsDerived(t: Tree, levels: int)
    requires Good(t, levels)
    ensures Derives(t)
  {
  }

  // ---------------------------------------------------------------- derived texts are accepted

  /** A derivation's text begins with neither white space nor a separator. */
  lemma {:induction false} TextStart(t: Tree)
    requires Derives(t)
    ensures TextOf(t) != []
    ensures var c := TextOf(t)[0]; !IsWs(c) && c != CLOSE_BRACKET && c != CLOSE_BRACE
    ensures (t.OfArray? <==> TextOf(t)[0] == OPEN_BRACKET) && (t.OfObject? <==> TextOf(t)[0] == OPEN_BRACE)
  {
    hide JsonNumerals.RfcNumber, IsContent, ItemsText, PartsText;
    if t.OfNumber? {
      JsonNumerals.NumberIffGrammar(t.lexeme);
      JsonRoundTrip.NumberStart(t.lexeme);
    }
  }

  lemma {:induction false} ValueAt(b: Bytes, max: nat, depth: nat, i: nat, s: nat)
    requires i <= s < |b| && Ws(b, i) == s && depth < max
    ensures Value(b, max, depth, i) ==
      if b[s] == OPEN_BRACKET then ArrayAt(b, max, depth + 1, s)
      else if b[s] == OPEN_BRACE then ObjectAt(b, max, depth + 1, s)
      else Token(b, s)
  {
    hide Ws, ArrayAt, ObjectAt, Token;
  }

  lemma {:induction false} WordsAre()
    ensures NULL == Ascii("null") && TRUE == Ascii("true") && FALSE == Ascii("false")
  {
  }

  /** A word, a number or a string, where it stands. */
  lemma {:induction false} ScalarReads(b: Bytes, s: nat, t: Tree)
    requires Derives(t) && !t.OfArray? && !t.OfObject? && Carries(b, s, TextOf(t)) && NumberEnds(b, s + |TextOf(t)|)
    ensures s < |b| && Token(b, s) == Got(NodeOf(t, s), s + |TextOf(t)|)
  {
    hide StringSpan, NumberSpan, IsToken, JsonNumerals.RfcNumber;
    WordsAre();
    match t
    case OfNumber(lexeme) => NumberScans(b, s, lexeme);
    case OfString(token) => TokenScans(b, s, token);
    case OfNull => CarriesAt(b, s, Ascii("null"), 0);
    case OfTrue => CarriesAt(b, s, Ascii("true"), 0);
    case OfFalse => CarriesAt(b, s, Ascii("false"), 0);
  }

  /** White space and a separator behind a value. */
  lemma {:induction false} SeparatorStands(b: Bytes, j: nat, trail: Bytes, c: Byte)
    requires Carries(b, j, trail + [c]) && White(trail) && (c == COMMA || c == CLOSE_BRACKET || c == CLOSE_BRACE || c == COLON)
    ensures var w := j + |trail|; w < |b| && Ws(b, j) == w && b[w] == c
    ensures NumberEnds(b, j)
  {
    hide Ws;
    CarriesParts(b, j, trail, [c]);
    CarriesAt(b, j + |trail|, [c], 0);
    WhiteIsBlank(b, j, trail);
    if trail != [] {
      CarriesAt(b, j, trail, 0);
    }
  }

  /** A derived value is read wherever it stands, white space in front of it included. */
  lemma {:induction false} DerivedReads(b: Bytes, max: nat, depth: nat, i: nat, lead: Bytes, t: Tree)
    requires White(lead) && Good(t, max - depth) && Carries(b, i, lead + TextOf(t)) && NumberEnds(b, i + |lead| + |TextOf(t)|)
    ensures i <= |b| && Value(b, max, depth, i) == Got(NodeOf(t, i + |lead|), i + |lead| + |TextOf(t)|)
    decreases t, 3
  {
    hide Value, Ws, ArrayAt, ObjectAt, Token, NodeOf, TextOf, Good, Derives, GoodItems, GoodParts, Carries, White, NumberEnds;
    var s := i + |lead|;
    CarriesParts(b, i, lead, TextOf(t));
    JsonRoundTrip.CarriesFits(b, s, TextOf(t));
    GoodHasLevel(t, max - depth);
    GoodIsDerived(t, max - depth);
    TextStart(t);
    CarriesAt(b, s, TextOf(t), 0);
    WhiteIsBlank(b, i, lead);
    ValueAt(b, max, depth, i, s);
    if t.OfArray? {
      GoodArray(t, max - depth);
      ArrayReads(b, max, depth + 1, s, t);
    } else if t.OfObject? {
      GoodObject(t, max - depth);
      ObjectReads(b, max, depth + 1, s, t);
    } else {
      ScalarReads(b, s, t);
    }
  }

  lemma {:induction false} ArrayText(t: Tree)
    requires t.OfArray?
    ensures TextOf(t) == [OPEN_BRACKET] + ((if t.items == [] then t.hollow else ItemsText(t.items)) + [CLOSE_BRACKET])
  {
    hide ItemsText;
  }

  lemma {:induction false} ObjectText(t: Tree)
    requires t.OfObject?
    ensures TextOf(t) == [OPEN_BRACE] + ((if t.members == [] then t.hollow else PartsText(t.members)) + [CLOSE_BRACE])
  {
    hide PartsText;
  }

  lemma {:induction false} ArrayReads(b: Bytes, max: nat, depth: nat, s: nat, t: Tree)
    requires t.OfArray? && White(t.hollow) && GoodItems(t.items, max - depth) && Carries(b, s, TextOf(t))
    ensures s < |b| && ArrayAt(b, max, depth, s) == Got(NodeOf(t, s), s + |TextOf(t)|)
    decreases t, 2
  {
    hide Items, Ws, TextOf, ItemsText, NodesOf, GoodItem, Carries, White;
    ArrayText(t);
    var inside := if t.items == [] then t.hollow else ItemsText(t.items);
    JsonRoundTrip.CarriesFits(b, s, TextOf(t));
    CarriesParts(b, s, [OPEN_BRACKET], inside + [CLOSE_BRACKET]);
    if t.items == [] {
      SeparatorStands(b, s + 1, t.hollow, CLOSE_BRACKET);
      assert NodesOf([], s + 1) == [] by { NoNodes(s + 1); }
    } else {
      ItemsRead(b, max, depth, s + 1, t.items);
      FirstItemStands(b, max, depth, s + 1, t.items);
    }
  }

  lemma {:induction false} NoNodes(at: int)
    ensures NodesOf([], at) == [] && RawsOf([], at) == [] && Numbered([]) == []
  {
  }

  /** What stands behind the white space of the first item. */
  function BehindItem(items: seq<Item>): Bytes
    requires items != []
  {
    if |items| == 1 then [CLOSE_BRACKET] else [COMMA] + (ItemsText(items[1..]) + [CLOSE_BRACKET])
  }

  lemma {:induction false} Regroup(lead: Bytes, value: Bytes, trail: Bytes, c: Bytes, d: Bytes)
    ensures lead + value + trail + c == (lead + value) + (trail + c) == lead + (value + (trail + c))
    ensures lead + value + trail + d + c == (lead + value + trail) + (d + c)
  {
    assert lead + value + trail + c == (lead + value) + (trail + c);
    assert (lead + value) + (trail + c) == lead + (value + (trail + c));
    assert lead + value + trail + d + c == (lead + value + trail) + (d + c);
  }

  lemma {:induction false} ItemsTextSplits(items: seq<Item>)
    requires items != []
    ensures var x := items[0];
            ItemsText(items) + [CLOSE_BRACKET] == (x.lead + TextOf(x.value)) + (x.trail + BehindItem(items))
    ensures var x := items[0];
            ItemsText(items) + [CLOSE_BRACKET] == x.lead + (TextOf(x.value) + (x.trail + BehindItem(items)))
    ensures |BehindItem(items)| > 0
  {
    hide TextOf;
    var x := items[0];
    Regroup(x.lead, TextOf(x.value), x.trail, BehindItem(items), []);
    if |items| > 1 {
      Regroup(x.lead, TextOf(x.value), x.trail, [CLOSE_BRACKET], [COMMA] + ItemsText(items[1..]));
      assert ItemText(x) + [',' as int] + ItemsText(items[1..]) == ItemText(x) + ([COMMA] + ItemsText(items[1..]));
      assert [COMMA] + ItemsText(items[1..]) + [CLOSE_BRACKET] == BehindItem(items);
    }
  }

  /** The first item does not close the array, and may be read from behind its white space. */
  lemma {:induction false} FirstItemStands(b: Bytes, max: nat, depth: nat, i: nat, items: seq<Item>)
    requires items != [] && GoodItems(items, max - depth) && Carries(b, i, ItemsText(items) + [CLOSE_BRACKET])
    ensures var k := Ws(b, i); k < |b| && b[k] != CLOSE_BRACKET && Items(b, max, depth, k) == Items(b, max, depth, i)
  {
    hide Ws, Value, TextOf, Good, Carries, White, IsWs, ItemsText, BehindItem, Items;
    var x := items[0];
    assert GoodItem(x, max - depth);
    GoodIsDerived(x.value, max - depth);
    ItemsTextSplits(items);
    var k := i + |x.lead|;
    CarriesParts(b, i, x.lead, TextOf(x.value) + (x.trail + BehindItem(items)));
    CarriesParts(b, k, TextOf(x.value), x.trail + BehindItem(items));
    TextStart(x.value);
    JsonRoundTrip.CarriesFits(b, k, TextOf(x.value));
    CarriesAt(b, k, TextOf(x.value), 0);
    WhiteIsBlank(b, i, x.lead);
    WhiteIsBlank(b, k, []) by { NothingIsWhite(b, k); }
    ItemsSkipWs(b, max, depth, i, k);
  }

  lemma {:induction false} NothingIsWhite(b: Bytes, k: nat)
    requires k <= |b|
    ensures White([]) && Carries(b, k, [])
  {
  }

  lemma {:induction false} ItemsSkipWs(b: Bytes, max: nat, depth: nat, i: nat, k: nat)
    requires i <= k <= |b| && k == Ws(b, i) == Ws(b, k)
    ensures Items(b, max, depth, k) == Items(b, max, depth, i)
  {
    hide Ws, Value;
    ValueSkipsWs(b, max, depth, i, k);
  }

  lemma {:induction false} LastItem(b: Bytes, max: nat, depth: nat, i: nat, v: Node, j: nat)
    requires i <= |b| && Value(b, max, depth, i) == Got(v, j) && Ws(b, j) < |b| && b[Ws(b, j)] == CLOSE_BRACKET
    ensures Items(b, max, depth, i) == Got([v], Ws(b, j) + 1)
  {
    hide Value, Ws;
  }

  lemma {:induction false} MoreItems(b: Bytes, max: nat, depth: nat, i: nat, v: Node, j: nat, rest: seq<Node>, n: nat)
    requires i <= |b| && Value(b, max, depth, i) == Got(v, j) && Ws(b, j) < |b| && b[Ws(b, j)] == COMMA
    requires Items(b, max, depth, Ws(b, j) + 1) == Got(rest, n)
    ensures Items(b, max, depth, i) == Got([v] + rest, n)
  {
    hide Value, Ws;
  }

  lemma {:induction false} OneNode(x: Item, at: int)
    ensures NodesOf([x], at) == [NodeOf(x.value, at + |x.lead|)]
    ensures ItemsText([x]) == x.lead + TextOf(x.value) + x.trail
  {
    hide NodeOf, TextOf;
    assert [x][1..] == [];
  }

  lemma {:induction false} MoreNodes(items: seq<Item>, at: int)
    requires |items| > 1
    ensures var x := items[0]; var w := at + |x.lead + TextOf(x.value)| + |x.trail|;
            && NodesOf(items, at) == [NodeOf(x.value, at + |x.lead|)] + NodesOf(items[1..], w + 1)
            && at + |ItemsText(items)| == w + 1 + |ItemsText(items[1..])|
  {
    hide NodeOf, TextOf;
  }

  lemma {:induction false} BehindIs(items: seq<Item>)
    requires items != []
    ensures BehindItem(items)
         == if |items| == 1 then [CLOSE_BRACKET] else [COMMA] + (ItemsText(items[1..]) + [CLOSE_BRACKET])
  {
  }

  lemma {:induction false} FirstIsGood(items: seq<Item>, levels: int)
    requires items != [] && GoodItems(items, levels)
    ensures White(items[0].lead) && Good(items[0].value, levels) && White(items[0].trail) && GoodItems(items[1..], levels)
  {
    hide White, Good;
    assert GoodItem(items[0], levels);
  }

  lemma {:induction false} CommaStands(b: Bytes, j: nat, trail: Bytes, rest: Bytes)
    requires White(trail) && Carries(b, j, trail + ([COMMA] + rest))
    ensures var w := j + |trail|; w < |b| && Ws(b, j) == w && b[w] == COMMA && NumberEnds(b, j) && Carries(b, w + 1, rest)
  {
    hide White, Carries, Ws, NumberEnds;
    assert trail + ([COMMA] + rest) == (trail + [COMMA]) + rest;
    CarriesParts(b, j, trail + [COMMA], rest);
    SeparatorStands(b, j, trail, COMMA);
  }

  lemma {:induction false} ItemsRead(b: Bytes, max: nat, depth: nat, i: nat, items: seq<Item>)
    requires items != [] && GoodItems(items, max - depth) && Carries(b, i, ItemsText(items) + [CLOSE_BRACKET])
    ensures i <= |b| && Items(b, max, depth, i) == Got(NodesOf(items, i), i + |ItemsText(items)| + 1)
    decreases items, 1
  {
    hide Value, Items, Ws, TextOf, NodeOf, NodesOf, GoodItems, Good, Carries, White, NumberEnds, ItemsText, ItemText, BehindItem;
    var x := items[0];
    JsonRoundTrip.CarriesFits(b, i, ItemsText(items) + [CLOSE_BRACKET]);
    FirstIsGood(items, max - depth);
    var v := x.lead + TextOf(x.value);
    var j := i + |v|;
    var w := j + |x.trail|;
    ItemsTextSplits(items);
    CarriesParts(b, i, v, x.trail + BehindItem(items));
    BehindIs(items);
    if |items| == 1 {
      assert items == [x];
      SeparatorStands(b, j, x.trail, CLOSE_BRACKET);
      DerivedReads(b, max, depth, i, x.lead, x.value);
      OneNode(x, i);
      LastItem(b, max, depth, i, NodeOf(x.value, i + |x.lead|), j);
    } else {
      CommaStands(b, j, x.trail, ItemsText(items[1..]) + [CLOSE_BRACKET]);
      DerivedReads(b, max, depth, i, x.lead, x.value);
      ItemsRead(b, max, depth, w + 1, items[1..]);
      MoreNodes(items, i);
      MoreItems(b, max, depth, i, NodeOf(x.value, i + |x.lead|), j,
                NodesOf(items[1..], w + 1), w + 1 + |ItemsText(items[1..])| + 1);
    }
  }

  // ---------------------------------------------------------------- objects

  lemma {:induction false} ObjectReads(b: Bytes, max: nat, depth: nat, s: nat, t: Tree)
    requires t.OfObject? && White(t.hollow) && GoodParts(t.members, max - depth) && Carries(b, s, TextOf(t))
    ensures s < |b| && ObjectAt(b, max, depth, s) == Got(NodeOf(t, s), s + |TextOf(t)|)
    decreases t, 2
  {
    hide Members, Ws, TextOf, PartsText, RawsOf, GoodPart, Numbered, Carries, White;
    ObjectText(t);
    JsonRoundTrip.CarriesFits(b, s, TextOf(t));
    var inside := if t.members == [] then t.hollow else PartsText(t.members);
    CarriesParts(b, s, [OPEN_BRACE], inside + [CLOSE_BRACE]);
    if t.members == [] {
      SeparatorStands(b, s + 1, t.hollow, CLOSE_BRACE);
      NoNodes(s + 1);
    } else {
      PartsRead(b, max, depth, s + 1, t.members);
      FirstPartStands(b, max, depth, s + 1, t.members);
    }
  }

  lemma {:induction false} PairSkipsWs(b: Bytes, max: nat, depth: nat, i: nat, k: nat)
    requires i <= k <= |b| && k == Ws(b, i) == Ws(b, k)
    ensures Members(b, max, depth, i) == Members(b, max, depth, k)
  {
    hide Ws, Value, StringSpan, DecodeString;
    assert Pair(b, max, depth, i) == Pair(b, max, depth, k);
  }

  /** A member up to the end of its value. */
  function Core(m: Part): Bytes {
    m.lead + (m.key + ((m.mid + [COLON]) + (m.next + TextOf(m.value))))
  }

  /** What stands behind the white space of the first member. */
  function BehindPart(members: seq<Part>): Bytes
    requires members != []
  {
    if |members| == 1 then [CLOSE_BRACE] else [COMMA] + (PartsText(members[1..]) + [CLOSE_BRACE])
  }

  lemma {:induction false} CoreLength(m: Part)
    ensures |Core(m)| == |m.lead| + |m.key| + |m.mid| + 1 + |m.next| + |TextOf(m.value)|
    ensures PartText(m) == Core(m) + m.trail
  {
    hide TextOf;
    var v := TextOf(m.value);
    assert m.lead + m.key + m.mid + [COLON] + m.next + v == m.lead + (m.key + ((m.mid + [COLON]) + (m.next + v)));
  }

  lemma {:induction false} PartsTextSplits(members: seq<Part>)
    requires members != []
    ensures PartsText(members) + [CLOSE_BRACE] == Core(members[0]) + (members[0].trail + BehindPart(members))
  {
    hide TextOf, Core, PartText;
    var m := members[0];
    CoreLength(m);
    var c := Core(m);
    Regroup([], c, m.trail, BehindPart(members), []);
    if |members| > 1 {
      var rest := PartsText(members[1..]);
      Regroup([], c, m.trail, [CLOSE_BRACE], [COMMA] + rest);
      assert c + m.trail + [COMMA] + rest == c + m.trail + ([COMMA] + rest);
      assert [COMMA] + rest + [CLOSE_BRACE] == BehindPart(members);
      assert PartsText(members) + [CLOSE_BRACE] == c + m.trail + ([COMMA] + rest) + [CLOSE_BRACE];
      assert c + m.trail + ([COMMA] + rest) + [CLOSE_BRACE] == c + m.trail + BehindPart(members);
    }
    assert c + m.trail + BehindPart(members) == c + (m.trail + BehindPart(members));
  }

  lemma {:induction false} CoreStands(b: Bytes, i: nat, m: Part)
    requires Carries(b, i, Core(m))
    ensures Carries(b, i, m.lead) && Carries(b, i + |m.lead|, m.key)
    ensures Carries(b, i + |m.lead| + |m.key|, m.mid + [COLON])
    ensures Carries(b, i + |m.lead| + |m.key| + |m.mid| + 1, m.next + TextOf(m.value))
  {
    hide TextOf, Carries;
    var v := m.next + TextOf(m.value);
    CarriesParts(b, i, m.lead, m.key + ((m.mid + [COLON]) + v));
    CarriesParts(b, i + |m.lead|, m.key, (m.mid + [COLON]) + v);
    CarriesParts(b, i + |m.lead| + |m.key|, m.mid + [COLON], v);
  }

  /** The first member does not close the object, and may be read from behind its white space. */
  lemma {:induction false} FirstPartStands(b: Bytes, max: nat, depth: nat, i: nat, members: seq<Part>)
    requires members != [] && GoodParts(members, max - depth) && Carries(b, i, PartsText(members) + [CLOSE_BRACE])
    ensures var k := Ws(b, i); k < |b| && b[k] != CLOSE_BRACE && Members(b, max, depth, k) == Members(b, max, depth, i)
  {
    hide Ws, TextOf, Good, IsToken, Members, DecodeString, Carries, White, PartsText, Core, BehindPart;
    var m := members[0];
    assert GoodPart(m, max - depth);
    PartsTextSplits(members);
    CarriesParts(b, i, Core(m), m.trail + BehindPart(members));
    CoreStands(b, i, m);
    var k := i + |m.lead|;
    TokenScans(b, k, m.key);
    JsonRoundTrip.TokenStartIsNotBlank(b, k);
    WhiteIsBlank(b, i, m.lead);
    PairSkipsWs(b, max, depth, i, k);
  }

  lemma {:induction false} PairIs(b: Bytes, max: nat, depth: nat, i: nat, k: nat, j: nat, c: nat, v: Node, n: nat)
    requires i <= |b| && Ws(b, i) == k && StringSpan(b, k) == Got((), j) && DecodeString(b[k..j]).Some?
    requires Ws(b, j) == c < |b| && b[c] == COLON && Value(b, max, depth, c + 1) == Got(v, n)
    ensures Pair(b, max, depth, i) == Got(RawMember(k, j, DecodeString(b[k..j]).value, v), n)
  {
    hide Ws, StringSpan, DecodeString, Value;
  }

  lemma {:induction false} RawIs(m: Part, at: int)
    requires DecodeString(m.key).Some?
    ensures var k := at + |m.lead|; var j := k + |m.key|;
            RawOf(m, at) == RawMember(k, j, DecodeString(m.key).value, NodeOf(m.value, j + |m.mid| + 1 + |m.next|))
  {
    hide DecodeString, NodeOf;
  }

  /** One member up to the end of its value. */
  lemma {:induction false} PartReads(b: Bytes, max: nat, depth: nat, i: nat, m: Part)
    requires GoodPart(m, max - depth) && Carries(b, i, Core(m)) && NumberEnds(b, i + |Core(m)|)
    ensures i <= |b| && Pair(b, max, depth, i) == Got(RawOf(m, i), i + |Core(m)|)
    decreases m, 1
  {
    hide Value, Ws, TextOf, NodeOf, Good, IsToken, StringSpan, DecodeString, Carries, White, NumberEnds, Core, Pair, RawOf;
    JsonRoundTrip.CarriesFits(b, i, Core(m));
    CoreLength(m);
    CoreStands(b, i, m);
    var k := i + |m.lead|;
    var j := k + |m.key|;
    TokenScans(b, k, m.key);
    JsonRoundTrip.TokenStartIsNotBlank(b, k);
    WhiteIsBlank(b, i, m.lead);
    SeparatorStands(b, j, m.mid, COLON);
    var c := j + |m.mid|;
    DerivedReads(b, max, depth, c + 1, m.next, m.value);
    RawIs(m, i);
    PairIs(b, max, depth, i, k, j, c, NodeOf(m.value, c + 1 + |m.next|), i + |Core(m)|);
  }

  lemma {:induction false} LastPart(b: Bytes, max: nat, depth: nat, i: nat, v: RawMember, j: nat)
    requires i <= |b| && Pair(b, max, depth, i) == Got(v, j) && Ws(b, j) < |b| && b[Ws(b, j)] == CLOSE_BRACE
    ensures Members(b, max, depth, i) == Got([v], Ws(b, j) + 1)
  {
    hide Pair, Ws;
  }

  lemma {:induction false} MoreParts(b: Bytes, max: nat, depth: nat, i: nat, v: RawMember, j: nat, rest: seq<RawMember>, n: nat)
    requires i <= |b| && Pair(b, max, depth, i) == Got(v, j) && Ws(b, j) < |b| && b[Ws(b, j)] == COMMA
    requires Members(b, max, depth, Ws(b, j) + 1) == Got(rest, n)
    ensures Members(b, max, depth, i) == Got([v] + rest, n)
  {
    hide Pair, Ws;
  }

  lemma {:induction false} OneRaw(m: Part, at: int)
    ensures RawsOf([m], at) == [RawOf(m, at)] && PartsText([m]) == Core(m) + m.trail
  {
    hide RawOf, Core, PartText;
    CoreLength(m);
    assert [m][1..] == [];
  }

  lemma {:induction false} MoreRaws(members: seq<Part>, at: int)
    requires |members| > 1
    ensures var m := members[0]; var w := at + |Core(m)| + |m.trail|;
            && RawsOf(members, at) == [RawOf(m, at)] + RawsOf(members[1..], w + 1)
            && at + |PartsText(members)| == w + 1 + |PartsText(members[1..])|
  {
    hide RawOf, Core, PartText;
    CoreLength(members[0]);
  }

  lemma {:induction false} BehindPartIs(members: seq<Part>)
    requires members != []
    ensures BehindPart(members)
         == if |members| == 1 then [CLOSE_BRACE] else [COMMA] + (PartsText(members[1..]) + [CLOSE_BRACE])
  {
  }

  lemma {:induction false} FirstPartIsGood(members: seq<Part>, levels: int)
    requires members != [] && GoodParts(members, levels)
    ensures GoodPart(members[0], levels) && White(members[0].trail) && GoodParts(members[1..], levels)
  {
    hide White, Good, IsToken, DecodeString;
    assert GoodPart(members[0], levels);
  }

  lemma {:induction false} PartsRead(b: Bytes, max: nat, depth: nat, i: nat, members: seq<Part>)
    requires members != [] && GoodParts(members, max - depth) && Carries(b, i, PartsText(members) + [CLOSE_BRACE])
    ensures i <= |b| && Members(b, max, depth, i) == Got(RawsOf(members, i), i + |PartsText(members)| + 1)
    decreases members, 2
  {
    hide Pair, Members, Ws, TextOf, RawOf, RawsOf, GoodPart, GoodParts, Carries, White, NumberEnds, PartsText, PartText,
         Core, BehindPart;
    JsonRoundTrip.CarriesFits(b, i, PartsText(members) + [CLOSE_BRACE]);
    var m := members[0];
    FirstPartIsGood(members, max - depth);
    var j := i + |Core(m)|;
    var w := j + |m.trail|;
    PartsTextSplits(members);
    CarriesParts(b, i, Core(m), m.trail + BehindPart(members));
    BehindPartIs(members);
    if |members| == 1 {
      assert members == [m];
      SeparatorStands(b, j, m.trail, CLOSE_BRACE);
      PartReads(b, max, depth, i, m);
      OneRaw(m, i);
      LastPart(b, max, depth, i, RawOf(m, i), j);
    } else {
      CommaStands(b, j, m.trail, PartsText(members[1..]) + [CLOSE_BRACE]);
      PartReads(b, max, depth, i, m);
      PartsRead(b, max, depth, w + 1, members[1..]);
      MoreRaws(members, i);
      MoreParts(b, max, depth, i, RawOf(m, i), j, RawsOf(members[1..], w + 1), w + 1 + |PartsText(members[1..])| + 1);
    }
  }
}
