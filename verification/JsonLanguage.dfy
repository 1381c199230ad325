/** Which texts the parser accepts: exactly those of RFC 8259 whose keys decode and whose nesting is allowed. */
module JsonLanguage {
  import opened Prelude
  import opened JsonStrings
  import opened JsonDom
  import opened JsonStability
  import opened JsonGrammar
  import opened JsonDerivations
  import JsonNumerals

  /** White space around one derived value whose keys decode, nested at most `max` deep. */
  ghost predicate IsText(s: Bytes, max: nat, before: Bytes, t: Tree, behind: Bytes) {
    White(before) && White(behind) && Good(t, max) && s == before + TextOf(t) + behind
  }

  // ---------------------------------------------------------------- what was read is derived

  lemma {:induction false} Cut(b: Bytes, i: nat, k: nat, j: nat)
    requires i <= k <= j <= |b|
    ensures b[i..j] == b[i..k] + b[k..j]
  {
  }

  lemma {:induction false} CutOne(b: Bytes, i: nat, k: nat)
    requires i <= k < |b|
    ensures b[i..k + 1] == b[i..k] + [b[k]]
  {
  }

  lemma {:induction false} CutThrice(b: Bytes, i: nat, j: nat, w: nat, n: nat)
    requires i <= j <= w <= n <= |b|
    ensures b[i..n] == b[i..j] + (b[j..w] + b[w..n])
  {
    Cut(b, j, w, n);
    Cut(b, i, j, n);
  }

  /** A separator in front of what a list goes on with. */
  lemma {:induction false} CutSeparator(b: Bytes, w: nat, n: nat)
    requires w < n <= |b|
    ensures b[w..n] == [b[w]] + b[w + 1..n] && b[w..w + 1] == [b[w]]
  {
  }

  lemma {:induction false} TokenDerives(b: Bytes, s: nat, levels: int) returns (t: Tree)
    requires s < |b| && Token(b, s).Got? && levels >= 1
    ensures Good(t, levels) && b[s..Token(b, s).next] == TextOf(t) && Token(b, s).value == NodeOf(t, s)
  {
    hide StringSpan, NumberSpan, IsToken, JsonNumerals.RfcNumber;
    WordsAre();
    var text := b[s..Token(b, s).next];
    if b[s] == QUOTE {
      ScannedIsToken(b, s);
      t := OfString(text);
    } else if b[s] == MINUS || IsDigit(b[s]) {
      ScannedIsNumber(b, s);
      t := OfNumber(text);
    } else if b[s] == 0x6E {
      t := OfNull;
    } else if b[s] == 0x74 {
      t := OfTrue;
    } else {
      t := OfFalse;
    }
  }

  lemma {:induction false} ValueDerives(b: Bytes, max: nat, depth: nat, i: nat) returns (lead: Bytes, t: Tree)
    requires i <= |b| && Value(b, max, depth, i).Got?
    ensures White(lead) && Good(t, max - depth) && b[i..Value(b, max, depth, i).next] == lead + TextOf(t)
    ensures Value(b, max, depth, i).value == NodeOf(t, i + |lead|)
    decreases |b| - i, 0
  {
    hide ArrayAt, ObjectAt, Token, Good, White, NodeOf, TextOf;
    var s := Ws(b, i);
    lead := b[i..s];
    BlankIsWhite(b, i);
    Cut(b, i, s, Value(b, max, depth, i).next);
    if b[s] == OPEN_BRACKET {
      t := ArrayDerives(b, max, depth + 1, s);
    } else if b[s] == OPEN_BRACE {
      t := ObjectDerives(b, max, depth + 1, s);
    } else {
      t := TokenDerives(b, s, max - depth);
    }
  }

  lemma {:induction false} ArrayDerives(b: Bytes, max: nat, depth: nat, s: nat) returns (t: Tree)
    requires s < |b| && b[s] == OPEN_BRACKET && ArrayAt(b, max, depth, s).Got? && depth <= max
    ensures Good(t, max - depth + 1) && b[s..ArrayAt(b, max, depth, s).next] == TextOf(t)
    ensures ArrayAt(b, max, depth, s).value == NodeOf(t, s)
    decreases |b| - s - 1, 3
  {
    hide Items, Ws, Good, White, GoodItem, ItemsText, NodesOf;
    var k := Ws(b, s + 1);
    CutOne(b, s, s);
    BlankIsWhite(b, s + 1);
    if b[k] == CLOSE_BRACKET {
      t := OfArray(b[s + 1..k], []);
      CutOne(b, s + 1, k);
      NoNodes(s + 1);
    } else {
      SkipTwice(b, s + 1);
      ItemsSkipWs(b, max, depth, s + 1, k);
      var items := ItemsDerive(b, max, depth, s + 1);
      t := OfArray([], items);
      NothingIsWhite(b, s);
    }
    GoodArray(t, max - depth + 1);
    Cut(b, s, s + 1, ArrayAt(b, max, depth, s).next);
    ArrayText(t);
  }

  lemma {:induction false} SkipTwice(b: Bytes, i: nat)
    requires i <= |b|
    ensures Ws(b, Ws(b, i)) == Ws(b, i)
  {
  }

  lemma {:induction false} ItemsShape(b: Bytes, max: nat, depth: nat, i: nat)
    requires i <= |b| && Items(b, max, depth, i).Got?
    ensures Value(b, max, depth, i).Got?
    ensures var v := Value(b, max, depth, i); var w := Ws(b, v.next); var r := Items(b, max, depth, i);
            && w < |b|
            && if b[w] == CLOSE_BRACKET then r == Got([v.value], w + 1)
               else
                 && b[w] == COMMA && Items(b, max, depth, w + 1).Got?
                 && r == Got([v.value] + Items(b, max, depth, w + 1).value, Items(b, max, depth, w + 1).next)
  {
    hide Value, Ws;
  }

  lemma {:induction false} ItemsDerive(b: Bytes, max: nat, depth: nat, i: nat) returns (items: seq<Item>)
    requires i <= |b| && Items(b, max, depth, i).Got?
    ensures items != [] && GoodItems(items, max - depth)
    ensures b[i..Items(b, max, depth, i).next] == ItemsText(items) + [CLOSE_BRACKET]
    ensures Items(b, max, depth, i).value == NodesOf(items, i)
    decreases |b| - i, 1
  {
    hide Value, Items, Ws, Good, White, TextOf, ItemsText, NodeOf, NodesOf, BehindItem;
    ItemsShape(b, max, depth, i);
    var lead, v := ValueDerives(b, max, depth, i);
    var j := Value(b, max, depth, i).next;
    var w := Ws(b, j);
    BlankIsWhite(b, j);
    var x := Item(lead, v, b[j..w]);
    var n := Items(b, max, depth, i).next;
    CutThrice(b, i, j, w, n);
    CutSeparator(b, w, n);
    if b[w] == CLOSE_BRACKET {
      items := [x];
      OneNode(x, i);
    } else {
      var rest := ItemsDerive(b, max, depth, w + 1);
      items := [x] + rest;
      assert items[1..] == rest;
      MoreNodes(items, i);
    }
    ItemsTextSplits(items);
    BehindIs(items);
  }

  lemma {:induction false} ObjectDerives(b: Bytes, max: nat, depth: nat, s: nat) returns (t: Tree)
    requires s < |b| && b[s] == OPEN_BRACE && ObjectAt(b, max, depth, s).Got? && depth <= max
    ensures Good(t, max - depth + 1) && b[s..ObjectAt(b, max, depth, s).next] == TextOf(t)
    ensures ObjectAt(b, max, depth, s).value == NodeOf(t, s)
    decreases |b| - s - 1, 3
  {
    hide Members, Ws, Good, White, GoodPart, PartsText, RawsOf, Numbered;
    var k := Ws(b, s + 1);
    CutOne(b, s, s);
    BlankIsWhite(b, s + 1);
    if b[k] == CLOSE_BRACE {
      t := OfObject(b[s + 1..k], []);
      CutOne(b, s + 1, k);
      NoNodes(s + 1);
    } else {
      SkipTwice(b, s + 1);
      PairSkipsWs(b, max, depth, s + 1, k);
      var members := MembersDerive(b, max, depth, s + 1);
      t := OfObject([], members);
      NothingIsWhite(b, s);
    }
    GoodObject(t, max - depth + 1);
    Cut(b, s, s + 1, ObjectAt(b, max, depth, s).next);
    ObjectText(t);
  }

  lemma {:induction false} PairDerives(b: Bytes, max: nat, depth: nat, i: nat) returns (m: Part)
    requires i <= |b| && Pair(b, max, depth, i).Got?
    ensures m.trail == [] && GoodPart(m, max - depth)
    ensures b[i..Pair(b, max, depth, i).next] == Core(m) && Pair(b, max, depth, i).value == RawOf(m, i)
    decreases |b| - i, 1
  {
    hide Value, Ws, Good, White, TextOf, NodeOf, IsToken, StringSpan, DecodeString;
    var k := Ws(b, i);
    var j := StringSpan(b, k).next;
    var c := Ws(b, j);
    var n := Pair(b, max, depth, i).next;
    BlankIsWhite(b, i);
    ScannedIsToken(b, k);
    BlankIsWhite(b, j);
    NothingIsWhite(b, i);
    var next, v := ValueDerives(b, max, depth, c + 1);
    m := Part(b[i..k], b[k..j], b[j..c], next, v, []);
    RawIs(m, i);
    Cut(b, i, k, n);
    Cut(b, k, j, n);
    Cut(b, j, c + 1, n);
    CutOne(b, j, c);
  }

  lemma {:induction false} Widen(m: Part, trail: Bytes, levels: int) returns (w: Part)
    requires m.trail == [] && GoodPart(m, levels) && White(trail)
    ensures w.trail == trail && GoodPart(w, levels) && Core(w) == Core(m) && forall at :: RawOf(w, at) == RawOf(m, at)
  {
    hide White, Good, IsToken, TextOf, NodeOf, DecodeString;
    w := m.(trail := trail);
  }

  lemma {:induction false} MembersShape(b: Bytes, max: nat, depth: nat, i: nat)
    requires i <= |b| && Members(b, max, depth, i).Got?
    ensures Pair(b, max, depth, i).Got?
    ensures var v := Pair(b, max, depth, i); var w := Ws(b, v.next); var r := Members(b, max, depth, i);
            && w < |b|
            && if b[w] == CLOSE_BRACE then r == Got([v.value], w + 1)
               else
                 && b[w] == COMMA && Members(b, max, depth, w + 1).Got?
                 && r == Got([v.value] + Members(b, max, depth, w + 1).value, Members(b, max, depth, w + 1).next)
  {
    hide Pair, Ws;
  }

  lemma {:induction false} MembersDerive(b: Bytes, max: nat, depth: nat, i: nat) returns (members: seq<Part>)
    requires i <= |b| && Members(b, max, depth, i).Got?
    ensures members != [] && GoodParts(members, max - depth)
    ensures b[i..Members(b, max, depth, i).next] == PartsText(members) + [CLOSE_BRACE]
    ensures Members(b, max, depth, i).value == RawsOf(members, i)
    decreases |b| - i, 2
  {
    hide Pair, Members, Ws, White, GoodPart, Core, PartsText, RawOf, RawsOf, BehindPart;
    MembersShape(b, max, depth, i);
    var p := PairDerives(b, max, depth, i);
    var j := Pair(b, max, depth, i).next;
    var w := Ws(b, j);
    BlankIsWhite(b, j);
    var m := Widen(p, b[j..w], max - depth);
    var n := Members(b, max, depth, i).next;
    CutThrice(b, i, j, w, n);
    CutSeparator(b, w, n);
    if b[w] == CLOSE_BRACE {
      members := [m];
      OneRaw(m, i);
    } else {
      var rest := MembersDerive(b, max, depth, w + 1);
      members := [m] + rest;
      assert members[1..] == rest;
      MoreRaws(members, i);
    }
    PartsTextSplits(members);
    BehindPartIs(members);
  }

  // ---------------------------------------------------------------- documents

  /** Whatever derivation a text has, the document is its tree. */
  lemma {:induction false} DocumentIsDerivation(s: Bytes, max: nat, before: Bytes, t: Tree, behind: Bytes)
    requires IsText(s, max, before, t, behind)
    ensures ParseDocument(s, max) == Ok(Document(s, NodeOf(t, |before|)))
  {
    hide Value, Ws, NodeOf, TextOf, Good, White;
    var j := |before| + |TextOf(t)|;
    assert before + TextOf(t) == s[0..j];
    assert Carries(s, 0, before + TextOf(t)) && Carries(s, j, behind);
    BehindEndsNumbers(s, j, behind);
    DerivedReads(s, max, 0, 0, before, t);
    WhiteIsBlank(s, j, behind);
  }

  lemma {:induction false} BehindEndsNumbers(s: Bytes, j: nat, w: Bytes)
    requires j <= |s| && s[j..] == w && White(w)
    ensures NumberEnds(s, j)
  {
    if w != [] {
      assert s[j] == w[0];
    }
  }

  lemma {:induction false} DocumentDerives(s: Bytes, max: nat) returns (before: Bytes, t: Tree, behind: Bytes)
    requires ParseDocument(s, max).Ok?
    ensures IsText(s, max, before, t, behind)
  {
    hide Value, Ws, NodeOf, TextOf, Good, White;
    before, t := ValueDerives(s, max, 0, 0);
    var j := Value(s, max, 0, 0).next;
    BlankIsWhite(s, j);
    behind := s[j..];
    assert s[0..j] == s[..j] && s[j..|s|] == behind && s == s[..j] + behind;
  }

  /** A text is accepted exactly when it is derived, its keys decode and it is nested at most `max` deep. */
  lemma {:induction false} AcceptedIffDerived(s: Bytes, max: nat)
    ensures ParseDocument(s, max).Ok? <==> exists before, t, behind :: IsText(s, max, before, t, behind)
  {
    hide IsText, ParseDocument;
    if ParseDocument(s, max).Ok? {
      var before, t, behind := DocumentDerives(s, max);
    }
    if exists before, t, behind :: IsText(s, max, before, t, behind) {
      var before, t, behind :| IsText(s, max, before, t, behind);
      DocumentIsDerivation(s, max, before, t, behind);
    }
  }
}
