/**
  JSON text by derivation (sections 2 to 7 of RFC 8259): where white space may stand, what a string and a number
  are made of, and which tree a derivation stands for. Nothing here looks at a position in a buffer before it
  has to.
 */
module JsonGrammar {
  import opened Prelude
  import opened Utf8
  import opened JsonStrings
  import opened JsonStringLaws
  import opened JsonDom
  import opened JsonStability
  import opened JsonEdit
  import opened JsonNumerals
  import JsonRoundTrip

  datatype Tree =
    | OfNull
    | OfTrue
    | OfFalse
    | OfNumber(lexeme: Bytes)
    | OfString(token: Bytes)
    | OfArray(hollow: Bytes, items: seq<Item>)
    | OfObject(hollow: Bytes, members: seq<Part>)

  /** A value between brackets, with the white space around it. */
  datatype Item = Item(lead: Bytes, value: Tree, trail: Bytes)

  /** A member: white space, its key, white space, a colon, white space, its value, white space. */
  datatype Part = Part(lead: Bytes, key: Bytes, mid: Bytes, next: Bytes, value: Tree, trail: Bytes)

  // ---------------------------------------------------------------- the text of a derivation

  function TextOf(t: Tree): (s: Bytes)
    decreases t, 0
  {
    match t
    case OfNull => Ascii("null")
    case OfTrue => Ascii("true")
    case OfFalse => Ascii("false")
    case OfNumber(lexeme) => lexeme
    case OfString(token) => token
    case OfArray(hollow, items) => ['[' as int] + (if items == [] then hollow else ItemsText(items)) + [']' as int]
    case OfObject(hollow, members) => ['{' as int] + (if members == [] then hollow else PartsText(members)) + ['}' as int]
  }

  function ItemText(x: Item): Bytes
    decreases x, 1
  {
    x.lead + TextOf(x.value) + x.trail
  }

  function ItemsText(items: seq<Item>): Bytes
    decreases items, 2
  {
    if items == [] then []
    else if |items| == 1 then ItemText(items[0]) else ItemText(items[0]) + [',' as int] + ItemsText(items[1..])
  }

  function PartText(m: Part): Bytes
    decreases m, 1
  {
    m.lead + m.key + m.mid + [':' as int] + m.next + TextOf(m.value) + m.trail
  }

  function PartsText(members: seq<Part>): Bytes
    decreases members, 2
  {
    if members == [] then []
    else if |members| == 1 then PartText(members[0]) else PartText(members[0]) + [',' as int] + PartsText(members[1..])
  }

  // ---------------------------------------------------------------- what is derived

  /** Section 2: space, horizontal tab, line feed, carriage return. */
  predicate White(s: Bytes) {
    forall k :: 0 <= k < |s| ==> s[k] == 0x20 || s[k] == 0x09 || s[k] == 0x0A || s[k] == 0x0D
  }

  predicate IsHex(c: Byte) {
    '0' as int <= c <= '9' as int || 'a' as int <= c <= 'f' as int || 'A' as int <= c <= 'F' as int
  }

  /** One octet that needs no escape, or one escape (section 7). */
  predicate IsPiece(p: Bytes) {
    || (|p| == 1 && p[0] >= 0x20 && p[0] != 0x22 && p[0] != 0x5C)
    || (|p| == 2 && p[0] == 0x5C && p[1] in Ascii("\"\\/bfnrt"))
    || (|p| == 6 && p[0] == 0x5C && p[1] == 'u' as int && IsHex(p[2]) && IsHex(p[3]) && IsHex(p[4]) && IsHex(p[5]))
  }

  ghost predicate IsContent(s: Bytes) {
    exists pieces :: Concat(pieces) == s && forall k :: 0 <= k < |pieces| ==> IsPiece(pieces[k])
  }

  ghost predicate IsToken(s: Bytes) {
    |s| >= 2 && s[0] == 0x22 && s[|s| - 1] == 0x22 && IsContent(s[1..|s| - 1])
  }

  ghost predicate Derives(t: Tree)
    decreases t, 0
  {
    match t
    case OfNumber(lexeme) => RfcNumber(lexeme)
    case OfString(token) => IsToken(token)
    case OfArray(hollow, items) => White(hollow) && forall k :: 0 <= k < |items| ==> ItemDerives(items[k])
    case OfObject(hollow, members) => White(hollow) && forall k :: 0 <= k < |members| ==> PartDerives(members[k])
    case _ => true
  }

  ghost predicate ItemDerives(x: Item)
    decreases x, 1
  {
    White(x.lead) && Derives(x.value) && White(x.trail)
  }

  ghost predicate PartDerives(m: Part)
    decreases m, 1
  {
    White(m.lead) && IsToken(m.key) && White(m.mid) && White(m.next) && Derives(m.value) && White(m.trail)
  }

  /** Every key decodes to a text. */
  predicate KeysDecode(t: Tree)
    decreases t
  {
    match t
    case OfArray(_, items) => forall k :: 0 <= k < |items| ==> KeysDecode(items[k].value)
    case OfObject(_, members) =>
      forall k :: 0 <= k < |members| ==> DecodeString(members[k].key).Some? && KeysDecode(members[k].value)
    case _ => true
  }

  /** Nested at most `levels` deep, a scalar being one level. */
  predicate Within(t: Tree, levels: int)
    decreases t
  {
    levels >= 1 &&
    match t
    case OfArray(_, items) => forall k :: 0 <= k < |items| ==> Within(items[k].value, levels - 1)
    case OfObject(_, members) => forall k :: 0 <= k < |members| ==> Within(members[k].value, levels - 1)
    case _ => true
  }

  ghost predicate Good(t: Tree, levels: int) {
    Derives(t) && KeysDecode(t) && Within(t, levels)
  }

  // ---------------------------------------------------------------- the tree of a derivation

  /** The node of a derivation whose text begins at `at`. */
  function NodeOf(t: Tree, at: int): Node
    decreases t, 0
  {
    var end := at + |TextOf(t)|;
    match t
    case OfNull => Node(at, end, Null)
    case OfTrue => Node(at, end, Bool(true))
    case OfFalse => Node(at, end, Bool(false))
    case OfNumber(_) => Node(at, end, Number)
    case OfString(_) => Node(at, end, String)
    case OfArray(_, items) => Node(at, end, Array(NodesOf(items, at + 1)))
    case OfObject(_, members) => Node(at, end, Object(Numbered(RawsOf(members, at + 1))))
  }

  function NodesOf(items: seq<Item>, at: int): seq<Node>
    decreases items, 1
  {
    if items == [] then []
    else [NodeOf(items[0].value, at + |items[0].lead|)] + NodesOf(items[1..], at + |ItemText(items[0])| + 1)
  }

  function KeyOf(token: Bytes): Text {
    match DecodeString(token)
    case None => []
    case Some(key) => key
  }

  /** A key spans its token; the value stands behind the colon and the white space there. */
  function RawOf(m: Part, at: int): RawMember
    decreases m, 1
  {
    var k := at + |m.lead|;
    RawMember(k, k + |m.key|, KeyOf(m.key), NodeOf(m.value, k + |m.key| + |m.mid| + 1 + |m.next|))
  }

  function RawsOf(members: seq<Part>, at: int): seq<RawMember>
    decreases members, 2
  {
    if members == [] then [] else [RawOf(members[0], at)] + RawsOf(members[1..], at + |PartText(members[0])| + 1)
  }

  // ---------------------------------------------------------------- white space

  lemma {:induction false} WhiteIsBlank(b: Bytes, i: nat, w: Bytes)
    requires Carries(b, i, w) && White(w) && (i + |w| < |b| ==> !IsWs(b[i + |w|]))
    ensures Ws(b, i) == i + |w|
  {
    forall k | i <= k < i + |w| ensures IsWs(b[k]) {
      CarriesAt(b, i, w, k - i);
    }
    WsIs(b, i, i + |w|);
  }

  lemma {:induction false} BlankIsWhite(b: Bytes, i: nat)
    requires i <= |b|
    ensures White(b[i..Ws(b, i)])
  {
    WsBlank(b, i);
  }

  // ---------------------------------------------------------------- strings

  lemma {:induction false} HexIff(c: Byte)
    ensures IsHex(c) <==> IsHexDigit(c)
  {
  }

  lemma {:induction false} ShortIff(c: Byte)
    ensures c in Ascii("\"\\/bfnrt") <==> ShortEscape(c).Some?
    ensures 'u' as int !in Ascii("\"\\/bfnrt")
  {
    var s := Ascii("\"\\/bfnrt");
    assert s == [0x22, 0x5C, 0x2F, 0x62, 0x66, 0x6E, 0x72, 0x74];
  }

  /** A first piece, peeled off. */
  lemma {:induction false} PieceUnits(p: Bytes, rest: Bytes)
    requires IsPiece(p)
    ensures Units(p + rest).Some? <==> Units(rest).Some?
  {
    hide ShortEscape, HexValue, IsHexDigit, IsHex;
    var s := p + rest;
    UnitsPeel(s);
    assert s[|p|..] == rest;
    if |p| == 2 {
      ShortIff(p[1]);
    } else if |p| == 6 {
      forall k | 2 <= k < 6 ensures IsHexDigit(s[k]) {
        HexIff(p[k]);
      }
    }
  }

  lemma {:induction false} PiecesHaveUnits(pieces: seq<Bytes>)
    requires forall k :: 0 <= k < |pieces| ==> IsPiece(pieces[k])
    ensures Units(Concat(pieces)).Some?
  {
    hide IsPiece, Units;
    if pieces == [] {
      UnitsPeel([]);
    } else {
      PiecesHaveUnits(pieces[1..]);
      PieceUnits(pieces[0], Concat(pieces[1..]));
    }
  }

  lemma {:induction false} FirstPiece(s: Bytes) returns (n: nat)
    requires Units(s).Some? && s != []
    ensures 0 < n <= |s| && IsPiece(s[..n]) && Units(s[n..]).Some?
  {
    hide HexValue, ShortEscape, IsHexDigit, IsHex;
    if s[0] == SLASH {
      if s[1] == LOWER_U {
        n := 6;
        forall k | 2 <= k < 6 ensures IsHex(s[k]) {
          HexIff(s[k]);
        }
      } else {
        n := 2;
        ShortIff(s[1]);
      }
    } else {
      n := 1;
    }
  }

  lemma {:induction false} UnitsHavePieces(s: Bytes) returns (pieces: seq<Bytes>)
    requires Units(s).Some?
    ensures Concat(pieces) == s && forall k :: 0 <= k < |pieces| ==> IsPiece(pieces[k])
    decreases |s|
  {
    hide IsPiece, Units;
    pieces := [];
    if s != [] {
      var n := FirstPiece(s);
      var rest := UnitsHavePieces(s[n..]);
      pieces := [s[..n]] + rest;
      assert pieces[1..] == rest && s == s[..n] + s[n..];
    }
  }

  lemma {:induction false} ContentIff(s: Bytes)
    ensures IsContent(s) <==> Units(s).Some?
  {
    hide Units, IsPiece;
    if IsContent(s) {
      var pieces :| Concat(pieces) == s && forall k :: 0 <= k < |pieces| ==> IsPiece(pieces[k]);
      PiecesHaveUnits(pieces);
    }
    if Units(s).Some? {
      var pieces := UnitsHavePieces(s);
    }
  }

  lemma {:induction false} InnerSlice(b: Bytes, i: nat, j: nat)
    requires i + 2 <= j <= |b|
    ensures |b[i..j]| >= 2 && b[i..j][0] == b[i] && b[i..j][|b[i..j]| - 1] == b[j - 1]
    ensures b[i..j][1..|b[i..j]| - 1] == b[i + 1..j - 1]
  {
    var s := b[i..j];
    var inner := s[1..|s| - 1];
    assert |inner| == j - 1 - (i + 1);
    assert forall k :: 0 <= k < |inner| ==> inner[k] == s[k + 1] == b[i + 1 + k];
    assert inner == b[i + 1..j - 1];
  }

  /** A token is scanned wherever it stands. */
  lemma {:induction false} TokenScans(b: Bytes, i: nat, token: Bytes)
    requires IsToken(token) && Carries(b, i, token)
    ensures i < |b| && b[i] == QUOTE && StringSpan(b, i) == Got((), i + |token|) && b[i..i + |token|] == token
  {
    hide IsContent, StringTail, Units;
    var j := i + |token| - 1;
    CarriesAt(b, i, token, 0);
    CarriesAt(b, i, token, |token| - 1);
    InnerSlice(b, i, j + 1);
    assert b[i..j + 1] == token;
    ContentIff(b[i + 1..j]);
    AcceptsExactlyUnits(b, i + 1, j);
  }

  lemma {:induction false} ScannedIsToken(b: Bytes, i: nat)
    requires i <= |b| && StringSpan(b, i).Got?
    ensures IsToken(b[i..StringSpan(b, i).next])
  {
    hide IsContent, StringTail, Units;
    var j := StringSpan(b, i).next - 1;
    var token := b[i..j + 1];
    InnerSlice(b, i, j + 1);
    assert token[1..|token| - 1] == b[i + 1..j];
    ScannedContentHasUnits(b, i + 1);
    ContentIff(b[i + 1..j]);
  }

  // ---------------------------------------------------------------- numbers

  lemma {:induction false} NumberScans(b: Bytes, i: nat, lexeme: Bytes)
    requires RfcNumber(lexeme) && Carries(b, i, lexeme) && NumberEnds(b, i + |lexeme|)
    ensures i < |b| && (b[i] == MINUS || IsDigit(b[i])) && NumberSpan(b, i) == Got((), i + |lexeme|)
  {
    hide NumberSpan, RfcNumber;
    NumberIffGrammar(lexeme);
    JsonRoundTrip.NumberStart(lexeme);
    CarriesAt(b, i, lexeme, 0);
    forall k | 0 <= k < |lexeme| ensures b[k + i] == lexeme[k] {
      CarriesAt(b, i, lexeme, k);
    }
    assert Agree(lexeme, b, i, 0, |lexeme|);
    NumberSpanMoves(lexeme, b, i, 0);
  }

  lemma {:induction false} ScannedIsNumber(b: Bytes, i: nat)
    requires i <= |b| && NumberSpan(b, i).Got?
    ensures RfcNumber(b[i..NumberSpan(b, i).next])
  {
    hide NumberSpan, RfcNumber;
    var j := NumberSpan(b, i).next;
    var lexeme := b[i..j];
    var d: int := 0 - i;
    assert Agree(b, lexeme, d, i, j);
    NumberSpanMoves(b, lexeme, d, i);
    NumberIffGrammar(lexeme);
  }
}
