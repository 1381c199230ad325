/** What a pattern means, piece by piece as it is spelled. */
module GlobForms {
  import opened Prelude
  import Glob

  /** A member of a bracket class: an octet, an octet behind a backslash, or a range. */
  datatype Member = One(octet: Byte) | Behind(octet: Byte) | Span(lo: Byte, hi: Byte)

  datatype Piece =
    | AnyRun
    | AnyOne
    | Class(negated: bool, members: seq<Member>)
    | Plain(octet: Byte)
    | Escape(octet: Byte)

  // ---------------------------------------------------------------- spelling

  function MemberText(m: Member): (s: Bytes)
    ensures s != []
  {
    match m
    case One(c) => [c]
    case Behind(c) => ['\\' as int, c]
    case Span(lo, hi) => [lo, '-' as int, hi]
  }

  function MembersText(members: seq<Member>): (s: Bytes)
    ensures members != [] ==> s != []
  {
    if members == [] then [] else MemberText(members[0]) + MembersText(members[1..])
  }

  function Opening(negated: bool): (s: Bytes)
    ensures s == if negated then ['[' as int, '^' as int] else ['[' as int]
  {
    if negated then Ascii("[^") else Ascii("[")
  }

  function PieceText(x: Piece): (s: Bytes)
    ensures s != []
  {
    match x
    case AnyRun => ['*' as int]
    case AnyOne => ['?' as int]
    case Class(negated, members) => Opening(negated) + (MembersText(members) + [']' as int])
    case Plain(c) => [c]
    case Escape(c) => ['\\' as int, c]
  }

  function Spelled(pieces: seq<Piece>): Bytes {
    if pieces == [] then [] else PieceText(pieces[0]) + Spelled(pieces[1..])
  }

  // ---------------------------------------------------------------- which spellings are read as they are meant

  /** A dash behind an octet makes a range, unless it is the last member. */
  predicate StandsAlone(members: seq<Member>, m: nat) {
    m + 1 < |members| ==> MemberText(members[m + 1])[0] != '-' as int || (members[m + 1].One? && m + 2 == |members|)
  }

  /** A bracket closes the class unless it comes first. */
  predicate MemberIsClear(members: seq<Member>, m: nat, first: bool)
    requires m < |members|
  {
    match members[m]
    case One(c) => c != '\\' as int && (c == ']' as int ==> first && m == 0) && StandsAlone(members, m)
    case Behind(_) => true
    case Span(lo, hi) => lo != '\\' as int && (lo == ']' as int ==> first && m == 0) && hi != ']' as int
  }

  predicate AreClear(members: seq<Member>, first: bool) {
    forall m :: 0 <= m < |members| ==> MemberIsClear(members, m, first)
  }

  predicate PieceIsClear(x: Piece) {
    match x
    case Class(negated, members) =>
      members != [] && AreClear(members, true) && (!negated ==> MembersText(members)[0] != '^' as int)
    case Plain(c) => c != '*' as int && c != '?' as int && c != '[' as int && c != '\\' as int
    case _ => true
  }

  predicate Clear(pieces: seq<Piece>) {
    forall n :: 0 <= n < |pieces| ==> PieceIsClear(pieces[n])
  }

  // ---------------------------------------------------------------- meaning

  predicate MemberHolds(m: Member, c: Byte) {
    match m
    case One(d) => c == d
    case Behind(d) => c == d
    case Span(lo, hi) => lo <= c <= hi
  }

  predicate SomeHolds(members: seq<Member>, c: Byte) {
    exists m :: 0 <= m < |members| && MemberHolds(members[m], c)
  }

  /** A piece other than a star reads one octet. */
  predicate Reads(x: Piece, c: Byte) {
    match x
    case AnyRun => false
    case AnyOne => true
    case Class(negated, members) => SomeHolds(members, c) != negated
    case Plain(d) => c == d
    case Escape(d) => c == d
  }

  predicate Fits(pieces: seq<Piece>, k: Bytes)
    decreases |pieces|, |k|
  {
    if pieces == [] then k == []
    else if pieces[0].AnyRun? then Fits(pieces[1..], k) || (k != [] && Fits(pieces, k[1..]))
    else k != [] && Reads(pieces[0], k[0]) && Fits(pieces[1..], k[1..])
  }

  // ---------------------------------------------------------------- classes

  function ItemOf(m: Member): Glob.Item {
    match m
    case One(c) => Glob.Item(c, c)
    case Behind(c) => Glob.Item(c, c)
    case Span(lo, hi) => Glob.Item(lo, hi)
  }

  function ItemsOf(members: seq<Member>): (r: seq<Glob.Item>)
    ensures |r| == |members| && forall m :: 0 <= m < |members| ==> r[m] == ItemOf(members[m])
  {
    seq(|members|, m requires 0 <= m < |members| => ItemOf(members[m]))
  }

  lemma {:induction false} HoldsIff(members: seq<Member>, c: Byte)
    ensures Glob.Holds(ItemsOf(members), c) <==> SomeHolds(members, c)
  {
    if SomeHolds(members, c) {
      var m :| 0 <= m < |members| && MemberHolds(members[m], c);
      assert ItemsOf(members)[m].lo <= c <= ItemsOf(members)[m].hi;
    }
    if Glob.Holds(ItemsOf(members), c) {
      var m :| 0 <= m < |members| && ItemsOf(members)[m].lo <= c <= ItemsOf(members)[m].hi;
      assert MemberHolds(members[m], c);
    }
  }

  lemma {:induction false} TailIsClear(members: seq<Member>, first: bool)
    requires members != [] && AreClear(members, first)
    ensures AreClear(members[1..], false)
  {
    hide MemberText;
    forall m | 0 <= m < |members| - 1 ensures MemberIsClear(members[1..], m, false) {
      assert MemberIsClear(members, m + 1, first);
    }
  }

  /** The first member, as the scanner takes it. */
  lemma {:induction false} FirstMember(p: Bytes, i: nat, members: seq<Member>, rest: Bytes, first: bool)
    requires i <= |p| && members != [] && AreClear(members, first)
    requires p[i..] == MemberText(members[0]) + (MembersText(members[1..]) + ([']' as int] + rest))
    ensures i < |p| && !(p[i] == Glob.CLOSE && !first)
    ensures Glob.ItemWidth(p, i) == |MemberText(members[0])| && Glob.ItemAt(p, i) == ItemOf(members[0])
  {
    assert MemberIsClear(members, 0, first);
    var m := members[0];
    var tail := MembersText(members[1..]) + ([']' as int] + rest);
    assert forall k :: 0 <= k < |p| - i ==> p[i + k] == p[i..][k];
    assert p[i] == MemberText(m)[0];
    if m.One? {
      OneAlone(members, rest);
      assert p[i + 1] == tail[0];
      if i + 2 < |p| {
        assert p[i + 2] == tail[1];
      }
    } else if m.Behind? {
      assert p[i + 1] == m.octet;
    } else {
      assert p[i + 1] == '-' as int && p[i + 2] == m.hi;
    }
  }

  /** Behind an octet that stands alone comes no range. */
  lemma {:induction false} OneAlone(members: seq<Member>, rest: Bytes)
    requires members != [] && StandsAlone(members, 0)
    ensures var tail := MembersText(members[1..]) + ([']' as int] + rest);
            tail != [] && (tail[0] == '-' as int && |tail| > 1 ==> tail[1] == ']' as int)
  {
    var more := members[1..];
    if more != [] {
      assert more[0] == members[1];
      var text := MemberText(more[0]);
      assert MembersText(more)[0] == text[0];
      if text[0] == '-' as int {
        assert more[1..] == [];
        assert MembersText(more) == text;
      }
    }
  }

  lemma {:induction false} BodyIs(p: Bytes, i: nat, members: seq<Member>, rest: Bytes, first: bool)
    requires i <= |p| && AreClear(members, first) && (first ==> members != [])
    requires p[i..] == MembersText(members) + ([']' as int] + rest)
    ensures Glob.ClassBody(p, i, first) == Some(Glob.Class(ItemsOf(members), i + |MembersText(members)| + 1))
    decreases |members|
  {
    hide AreClear, Glob.ItemWidth, Glob.ItemAt, ItemOf, MemberText;
    if members == [] {
      assert p[i] == p[i..][0];
      assert ItemsOf([]) == [];
    } else {
      var text, tail := MemberText(members[0]), MembersText(members[1..]) + ([']' as int] + rest);
      assert p[i..] == text + tail;
      FirstMember(p, i, members, rest, first);
      assert p[i + |text|..] == p[i..][|text|..] == tail;
      TailIsClear(members, first);
      BodyIs(p, i + |text|, members[1..], rest, false);
      assert [ItemOf(members[0])] + ItemsOf(members[1..]) == ItemsOf(members);
    }
  }

  lemma {:induction false} Regroup(o: Bytes, t: Bytes, c: Bytes, r: Bytes)
    ensures (o + (t + c)) + r == o + (t + (c + r))
  {
  }

  lemma {:induction false} ClassText(x: Piece, rest: Bytes)
    requires x.Class? && PieceIsClear(x)
    ensures PieceText(x) + rest == Opening(x.negated) + (MembersText(x.members) + ([']' as int] + rest))
    ensures |PieceText(x)| == |Opening(x.negated)| + |MembersText(x.members)| + 1
    ensures x.members != [] && AreClear(x.members, true) && MembersText(x.members) != []
    ensures !x.negated ==> MembersText(x.members)[0] != '^' as int
  {
    hide AreClear, MembersText;
    Regroup(Opening(x.negated), MembersText(x.members), [']' as int], rest);
  }

  lemma {:induction false} ClassOpens(p: Bytes, at: nat, x: Piece, rest: Bytes)
    requires at <= |p| && x.Class? && PieceIsClear(x) && p[at..] == PieceText(x) + rest
    ensures at < |p| && p[at] == Glob.OPEN && Glob.Negated(p, at) == x.negated
    ensures var s := Glob.ClassStart(p, at); var text := MembersText(x.members);
            && s <= |p| && p[s..] == text + ([']' as int] + rest)
            && at + |PieceText(x)| == s + |text| + 1 && x.members != [] && AreClear(x.members, true)
  {
    hide AreClear, MembersText, PieceText, PieceIsClear, Opening;
    ClassText(x, rest);
    OpeningStands(p, at, x.negated, MembersText(x.members) + ([']' as int] + rest));
  }

  lemma {:induction false} OpeningStands(p: Bytes, at: nat, negated: bool, tail: Bytes)
    requires at <= |p| && p[at..] == Opening(negated) + tail && tail != [] && (!negated ==> tail[0] != '^' as int)
    ensures at < |p| && p[at] == Glob.OPEN && Glob.Negated(p, at) == negated
    ensures Glob.ClassStart(p, at) == at + |Opening(negated)| <= |p| && p[Glob.ClassStart(p, at)..] == tail
  {
    assert p[at] == p[at..][0] && p[at + 1] == p[at..][1];
    assert p[at + |Opening(negated)|..] == p[at..][|Opening(negated)|..] == tail;
  }

  /** A class reads an octet when one of its members holds it, and a negated one when none does. */
  lemma {:induction false} ClassReads(p: Bytes, at: nat, x: Piece, rest: Bytes, c: Byte)
    requires at <= |p| && x.Class? && PieceIsClear(x) && p[at..] == PieceText(x) + rest
    ensures at < |p| && p[at] == Glob.OPEN && Glob.ClassAt(p, at, c) == Some((at + |PieceText(x)|, Reads(x, c)))
  {
    hide AreClear, SomeHolds, MembersText, PieceText, PieceIsClear, Glob.ClassBody, Glob.Holds, Glob.Negated, Glob.ClassStart;
    ClassOpens(p, at, x, rest);
    BodyIs(p, Glob.ClassStart(p, at), x.members, rest, true);
    HoldsIff(x.members, c);
  }

  // ---------------------------------------------------------------- patterns

  predicate HasEscape(pieces: seq<Piece>) {
    exists n :: 0 <= n < |pieces| && pieces[n].Escape?
  }

  /** Without a backslash on one of the two sides, spelling and reading agree. */
  predicate Unmistaken(pieces: seq<Piece>, k: Bytes) {
    '\\' as int !in k || !HasEscape(pieces)
  }

  lemma {:induction false} TailIsUnmistaken(pieces: seq<Piece>, k: Bytes)
    requires pieces != [] && Unmistaken(pieces, k) && Clear(pieces)
    ensures Clear(pieces[1..]) && Unmistaken(pieces[1..], k)
    ensures k != [] ==> Unmistaken(pieces, k[1..]) && Unmistaken(pieces[1..], k[1..])
  {
    hide PieceIsClear;
    if HasEscape(pieces[1..]) {
      var n :| 0 <= n < |pieces[1..]| && pieces[1..][n].Escape?;
      assert pieces[n + 1].Escape?;
    }
  }

  /** One piece that is no star, and one octet. */
  lemma {:induction false} PieceReads(p: Bytes, i: nat, x: Piece, rest: Bytes, c: Byte)
    requires i <= |p| && PieceIsClear(x) && !x.AnyRun? && p[i..] == PieceText(x) + rest
    requires !x.Escape? || c != '\\' as int
    ensures i < |p| && p[i] != Glob.STAR
    ensures Glob.Token(p, i, c) == if Reads(x, c) then Some(i + |PieceText(x)|) else None
  {
    hide Glob.ClassAt, AreClear, SomeHolds, MembersText;
    assert p[i] == p[i..][0];
    if x.Class? {
      ClassReads(p, i, x, rest, c);
    } else if x.Escape? {
      assert p[i + 1] == p[i..][1];
    }
  }

  lemma {:induction false} MeansFrom(p: Bytes, i: nat, pieces: seq<Piece>, k: Bytes, j: nat)
    requires i <= |p| && j <= |k| && Clear(pieces) && Unmistaken(pieces, k[j..]) && p[i..] == Spelled(pieces)
    ensures Glob.Matches(p, i, k, j) <==> Fits(pieces, k[j..])
    decreases |pieces|, |k| - j
  {
    hide Glob.Token, PieceIsClear, PieceText, Reads, HasEscape;
    if pieces != [] {
      var x, text := pieces[0], PieceText(pieces[0]);
      assert p[i + |text|..] == p[i..][|text|..] == Spelled(pieces[1..]);
      TailIsUnmistaken(pieces, k[j..]);
      if j < |k| {
        assert k[j + 1..] == k[j..][1..] && k[j] == k[j..][0];
      }
      if x.AnyRun? {
        StarStands(p, i, x, Spelled(pieces[1..]));
        MeansFrom(p, i + 1, pieces[1..], k, j);
        if j < |k| {
          MeansFrom(p, i, pieces, k, j + 1);
        }
      } else if j < |k| {
        assert !x.Escape? || k[j] != '\\' as int by { EscapeIsThere(pieces); }
        PieceReads(p, i, x, Spelled(pieces[1..]), k[j]);
        MeansFrom(p, i + |text|, pieces[1..], k, j + 1);
      } else {
        NoStarHere(p, i, x, Spelled(pieces[1..]));
      }
    }
  }

  lemma {:induction false} EscapeIsThere(pieces: seq<Piece>)
    requires pieces != []
    ensures pieces[0].Escape? ==> HasEscape(pieces)
  {
  }

  lemma {:induction false} StarStands(p: Bytes, i: nat, x: Piece, rest: Bytes)
    requires i <= |p| && x.AnyRun? && p[i..] == PieceText(x) + rest
    ensures i < |p| && p[i] == Glob.STAR && |PieceText(x)| == 1
  {
    assert p[i] == p[i..][0];
  }

  lemma {:induction false} NoStarHere(p: Bytes, i: nat, x: Piece, rest: Bytes)
    requires i <= |p| && !x.AnyRun? && PieceIsClear(x) && p[i..] == PieceText(x) + rest
    ensures i < |p| && p[i] != Glob.STAR
  {
    hide MembersText, AreClear;
    assert p[i] == p[i..][0];
  }

  /** A pattern spelled by clear pieces means what they mean, for a key without a backslash or pieces without escapes. */
  lemma {:induction false} PatternMeans(pieces: seq<Piece>, k: Bytes)
    requires Clear(pieces) && Unmistaken(pieces, k)
    ensures Glob.Matches(Spelled(pieces), 0, k, 0) <==> Fits(pieces, k)
  {
    var p := Spelled(pieces);
    assert p[0..] == p && k[0..] == k;
    MeansFrom(p, 0, pieces, k, 0);
  }

  /** The matcher's answer, for every key without a backslash. */
  lemma {:induction false} GlobAnswers(pieces: seq<Piece>, k: Bytes)
    requires Clear(pieces) && '\\' as int !in k
    ensures Glob.Glob(Spelled(pieces), k) <==> Fits(pieces, k)
  {
    hide Glob.Glob, Glob.Matches, Fits, Clear, Spelled, HasEscape, Glob.StarsAreSteady;
    PatternMeans(pieces, k);
    Glob.GlobIsComplete(Spelled(pieces), k);
  }
}
