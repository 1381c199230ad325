/**
  Key patterns: the matcher of the policy module, the class scanner under it, and the `MATCH` argument
  that discovery builds from a literal prefix.
 */
module Glob {
  import opened Prelude

  const STAR: Byte := 0x2A
  const ANY: Byte := 0x3F
  const OPEN: Byte := 0x5B
  const CLOSE: Byte := 0x5D
  const CARET: Byte := 0x5E
  const DASH: Byte := 0x2D
  const BACKSLASH: Byte := 0x5C

  // ---------------------------------------------------------------- classes

  /** One item of a bracket class: a range of octets, a single one being the range of itself. */
  datatype Item = Item(lo: Byte, hi: Byte)

  datatype Class = Class(items: seq<Item>, end: nat)

  predicate Holds(items: seq<Item>, c: Byte) {
    exists m :: 0 <= m < |items| && items[m].lo <= c <= items[m].hi
  }

  /** The items from `i` up to the closing bracket; a bracket in first place is an item. */
  function ClassBody(p: Bytes, i: nat, first: bool): (r: Option<Class>)
    ensures r.Some? ==> i < r.value.end <= |p|
    decreases |p| - i
  {
    if i >= |p| then None
    else if p[i] == CLOSE && !first then Some(Class([], i + 1))
    else
      var n := ItemWidth(p, i);
      Prepended([ItemAt(p, i)], ClassBody(p, i + n, false))
  }

  predicate IsEscape(p: Bytes, i: nat)
    requires i < |p|
  {
    p[i] == BACKSLASH && i + 1 < |p|
  }

  predicate IsRange(p: Bytes, i: nat)
    requires i < |p|
  {
    !IsEscape(p, i) && i + 2 < |p| && p[i + 1] == DASH && p[i + 2] != CLOSE
  }

  function ItemWidth(p: Bytes, i: nat): (n: nat)
    requires i < |p|
    ensures n > 0
  {
    if IsEscape(p, i) then 2 else if IsRange(p, i) then 3 else 1
  }

  function ItemAt(p: Bytes, i: nat): Item
    requires i < |p|
  {
    if IsEscape(p, i) then Item(p[i + 1], p[i + 1])
    else if IsRange(p, i) then Item(p[i], p[i + 2])
    else Item(p[i], p[i])
  }

  predicate Negated(p: Bytes, at: nat) {
    at + 1 < |p| && p[at + 1] == CARET
  }

  function ClassStart(p: Bytes, at: nat): nat {
    if Negated(p, at) then at + 2 else at + 1
  }

  /** Where the class at `at` ends, and whether `c` satisfies it; nothing when it never closes. */
  function ClassAt(p: Bytes, at: nat, c: Byte): (r: Option<(nat, bool)>)
    requires at < |p|
    ensures r.Some? ==> at < r.value.0 <= |p|
  {
    match ClassBody(p, ClassStart(p, at), true)
    case None => None
    case Some(body) => Some((body.end, Holds(body.items, c) != Negated(p, at)))
  }

  function Prepended(items: seq<Item>, r: Option<Class>): Option<Class> {
    match r
    case None => None
    case Some(body) => Some(Class(items + body.items, body.end))
  }

  lemma {:induction false} PrependNothing(r: Option<Class>)
    ensures Prepended([], r) == r
  {
    if r.Some? {
      assert [] + r.value.items == r.value.items;
    }
  }

  lemma {:induction false} PrependOneMore(items: seq<Item>, item: Item, r: Option<Class>)
    ensures Prepended(items, Prepended([item], r)) == Prepended(items + [item], r)
  {
    if r.Some? {
      assert items + ([item] + r.value.items) == items + [item] + r.value.items;
    }
  }

  lemma {:induction false} HoldsOneMore(items: seq<Item>, item: Item, c: Byte)
    ensures !Holds([], c)
    ensures Holds(items + [item], c) <==> Holds(items, c) || item.lo <= c <= item.hi
  {
    var more := items + [item];
    if Holds(items, c) {
      var m :| 0 <= m < |items| && items[m].lo <= c <= items[m].hi;
      assert more[m] == items[m];
    }
    if item.lo <= c <= item.hi {
      assert more[|items|] == item;
    }
  }

  /** The scanning loop of `class`. */
  method ScanClass(p: Bytes, at: nat, c: Byte) returns (r: Option<(nat, bool)>)
    requires at < |p|
    ensures r == ClassAt(p, at, c)
  {
    hide Holds;
    var i := at + 1;
    var negate := i < |p| && p[i] == CARET;
    if negate {
      i := i + 1;
    }
    var hit, first := false, true;
    ghost var seen: seq<Item> := [];
    ghost var whole := ClassBody(p, i, true);
    HoldsOneMore([], Item(0, 0), c);
    PrependNothing(whole);
    while i < |p| && (p[i] != CLOSE || first)
      invariant hit == Holds(seen, c)
      invariant whole == Prepended(seen, ClassBody(p, i, first))
      decreases |p| - i
    {
      HoldsOneMore(seen, ItemAt(p, i), c);
      PrependOneMore(seen, ItemAt(p, i), ClassBody(p, i + ItemWidth(p, i), false));
      seen := seen + [ItemAt(p, i)];
      first := false;
      if p[i] == BACKSLASH && i + 1 < |p| {
        i := i + 1;
        if p[i] == c {
          hit := true;
        }
      } else if i + 2 < |p| && p[i + 1] == DASH && p[i + 2] != CLOSE {
        var lo, hi := p[i], p[i + 2];
        if lo <= c <= hi {
          hit := true;
        }
        i := i + 2;
      } else if p[i] == c {
        hit := true;
      }
      i := i + 1;
    }
    if i >= |p| {
      return None;
    }
    assert seen + [] == seen;
    return Some((i + 1, hit != negate));
  }

  // ---------------------------------------------------------------- what a pattern means

  /**
    Where the pattern stands after its token at `i` has read `c`; nothing when the token refuses `c`.
    A backslash takes the octet behind it if that is what the key has, and otherwise stands for itself.
   */
  function Token(p: Bytes, i: nat, c: Byte): (r: Option<nat>)
    ensures r.Some? ==> i < r.value <= |p|
  {
    if i >= |p| || p[i] == STAR then None
    else if p[i] == ANY then Some(i + 1)
    else if p[i] == OPEN then
      match ClassAt(p, i, c)
      case Some((next, true)) => Some(next)
      case _ => None
    else if p[i] == BACKSLASH && i + 1 < |p| && p[i + 1] == c then Some(i + 2)
    else if p[i] == c then Some(i + 1)
    else None
  }

  /** The declarative meaning: a star skips any number of octets, every other token reads one. */
  predicate Matches(p: Bytes, i: nat, k: Bytes, j: nat)
    requires i <= |p| && j <= |k|
    decreases |p| - i, |k| - j
  {
    if i < |p| && p[i] == STAR then Matches(p, i + 1, k, j) || (j < |k| && Matches(p, i, k, j + 1))
    else if j < |k| then
      match Token(p, i, k[j])
      case None => false
      case Some(n) => Matches(p, n, k, j + 1)
    else i == |p|
  }

  predicate OnlyStars(p: Bytes, i: nat) {
    forall m :: i <= m < |p| ==> p[m] == STAR
  }

  predicate Resumable(p: Bytes, pi: nat, k: Bytes, ki: nat, star: Option<nat>, starK: nat) {
    pi <= |p| && starK <= ki <= |k| && (star.Some? ==> star.value < pi && p[star.value] == STAR)
  }

  /** The answer of the matching loop from any of its states: only the last star is ever returned to. */
  predicate Greedy(p: Bytes, pi: nat, k: Bytes, ki: nat, star: Option<nat>, starK: nat)
    requires Resumable(p, pi, k, ki, star, starK)
    decreases |k| - starK, |p| - pi
  {
    if ki == |k| then OnlyStars(p, pi)
    else if pi < |p| && p[pi] == STAR then Greedy(p, pi + 1, k, ki, Some(pi), ki)
    else
      match Token(p, pi, k[ki])
      case Some(n) => Greedy(p, n, k, ki + 1, star, starK)
      case None => star.Some? && Greedy(p, star.value + 1, k, starK + 1, star, starK + 1)
  }

  predicate Glob(p: Bytes, k: Bytes) {
    Greedy(p, 0, k, 0, None, 0)
  }

  /** The loop of `glob_bytes`; `rounds` counts its iterations. */
  method GlobBytes(p: Bytes, k: Bytes) returns (matched: bool, ghost rounds: nat)
    ensures matched == Glob(p, k)
    ensures matched ==> Matches(p, 0, k, 0)
    ensures Ready(p, 0, k) ==> (matched <==> Matches(p, 0, k, 0))
    ensures rounds <= (|k| + 1) * (|p| + 1)
  {
    hide Token, OnlyStars, Matches, Ready;
    GlobDecides(p, k);
    var pi: nat, ki: nat := 0, 0;
    var star: Option<nat>, starK: nat := None, 0;
    rounds := 0;
    while ki < |k|
      invariant Resumable(p, pi, k, ki, star, starK)
      invariant Greedy(p, pi, k, ki, star, starK) == Glob(p, k)
      invariant rounds <= starK * (|p| + 1) + pi
      decreases |k| - starK, |p| - pi
    {
      rounds := rounds + 1;
      if pi < |p| && p[pi] == STAR {
        MoreRounds(starK, ki, |p| + 1);
        star, starK := Some(pi), ki;
        pi := pi + 1;
      } else {
        var next := ReadToken(p, pi, k[ki]);
        if next.Some? {
          pi, ki := next.value, ki + 1;
        } else {
          if star.None? {
            MoreRounds(starK, |k|, |p| + 1);
            return false, rounds;
          }
          MoreRounds(starK, starK + 1, |p| + 1);
          starK := starK + 1;
          ki := starK;
          pi := star.value + 1;
        }
      }
    }
    MoreRounds(starK, |k|, |p| + 1);
    matched := SkipStars(p, pi);
  }

  lemma {:induction false} MoreRounds(a: nat, b: nat, n: nat)
    requires a <= b
    ensures a * n <= b * n && (a + 1) * n == a * n + n && (b + 1) * n == b * n + n
  {
  }

  /** The arms of the loop that read an octet. */
  method ReadToken(p: Bytes, pi: nat, c: Byte) returns (r: Option<nat>)
    requires pi <= |p| && (pi < |p| ==> p[pi] != STAR)
    ensures r == Token(p, pi, c)
  {
    hide ClassAt;
    if pi == |p| {
      r := None;
    } else if p[pi] == ANY {
      r := Some(pi + 1);
    } else if p[pi] == OPEN {
      var scanned := ScanClass(p, pi, c);
      r := if scanned.Some? && scanned.value.1 then Some(scanned.value.0) else None;
    } else if p[pi] == BACKSLASH && pi + 1 < |p| && p[pi + 1] == c {
      r := Some(pi + 2);
    } else if c == p[pi] {
      r := Some(pi + 1);
    } else {
      r := None;
    }
  }

  /** The loop behind the key: stars match nothing. */
  method SkipStars(p: Bytes, start: nat) returns (atEnd: bool)
    requires start <= |p|
    ensures atEnd == OnlyStars(p, start)
  {
    var pi := start;
    while pi < |p| && p[pi] == STAR
      invariant start <= pi <= |p|
      invariant forall m :: start <= m < pi ==> p[m] == STAR
    {
      pi := pi + 1;
    }
    atEnd := pi == |p|;
  }

  // ---------------------------------------------------------------- soundness

  lemma {:induction false} StarsMatchNothing(p: Bytes, i: nat, k: Bytes)
    requires i <= |p|
    ensures Matches(p, i, k, |k|) <==> OnlyStars(p, i)
    decreases |p| - i
  {
    if i < |p| && p[i] == STAR {
      StarsMatchNothing(p, i + 1, k);
    }
  }

  /** What the loop accepts is matched: from its position, or from the star it would return to. */
  lemma {:induction false} GreedyIsSound(p: Bytes, pi: nat, k: Bytes, ki: nat, star: Option<nat>, starK: nat)
    requires Resumable(p, pi, k, ki, star, starK)
    requires Greedy(p, pi, k, ki, star, starK)
    ensures Matches(p, pi, k, ki) || (star.Some? && Matches(p, star.value, k, starK))
    decreases |k| - starK, |p| - pi
  {
    hide Token, OnlyStars;
    if ki == |k| {
      StarsMatchNothing(p, pi, k);
    } else if pi < |p| && p[pi] == STAR {
      GreedyIsSound(p, pi + 1, k, ki, Some(pi), ki);
    } else if Token(p, pi, k[ki]).Some? {
      GreedyIsSound(p, Token(p, pi, k[ki]).value, k, ki + 1, star, starK);
    } else {
      GreedyIsSound(p, star.value + 1, k, starK + 1, star, starK + 1);
    }
  }

  /** On every pattern and key, what the loop accepts the pattern means. */
  lemma {:induction false} GlobIsSound(p: Bytes, k: Bytes)
    requires Glob(p, k)
    ensures Matches(p, 0, k, 0)
  {
    GreedyIsSound(p, 0, k, 0, None, 0);
  }

  // ---------------------------------------------------------------- completeness

  predicate Unclosed(p: Bytes, at: nat) {
    ClassBody(p, ClassStart(p, at), true).None?
  }

  /**
    A bracket that is never closed is not taken for itself: no octet gets past it, and a pattern that comes
    to it matches nothing.
   */
  lemma {:induction false} UnclosedReadsNothing(p: Bytes, at: nat, k: Bytes, j: nat)
    requires at < |p| && p[at] == OPEN && Unclosed(p, at) && j <= |k|
    ensures forall c :: Token(p, at, c) == None
    ensures !Matches(p, at, k, j)
  {
    forall c ensures Token(p, at, c) == None {
      assert ClassAt(p, at, c) == None;
    }
  }

  /** A backslash that stands outside every class, from the token at `i` on, escapes no bracket that opens a class. */
  predicate NoEscapedBracket(p: Bytes, i: nat)
    decreases |p| - i
  {
    if i >= |p| then true
    else if p[i] == OPEN then
      match ClassBody(p, ClassStart(p, i), true)
      case None => true
      case Some(body) => NoEscapedBracket(p, body.end)
    else if p[i] == BACKSLASH && i + 1 < |p| then (p[i + 1] == OPEN ==> Unclosed(p, i + 1)) && NoEscapedBracket(p, i + 2)
    else NoEscapedBracket(p, i + 1)
  }

  /** Token boundaries cannot depend on the key in a way that hides a star. */
  predicate Steady(p: Bytes, i: nat, k: Bytes) {
    NoEscapedBracket(p, i) || BACKSLASH !in k
  }

  /** Whatever the key, behind the first star that is reached from `i` no backslash escapes a bracket that opens a class. */
  predicate StarsAreSteady(p: Bytes, i: nat)
    decreases |p| - i
  {
    if i >= |p| then true
    else if p[i] == STAR then NoEscapedBracket(p, i + 1)
    else if p[i] == OPEN then
      match ClassBody(p, ClassStart(p, i), true)
      case None => true
      case Some(body) => StarsAreSteady(p, body.end)
    else if p[i] == BACKSLASH && i + 1 < |p| then
      StarsAreSteady(p, i + 2) && (p[i + 1] == BACKSLASH || StarsAreSteady(p, i + 1))
    else StarsAreSteady(p, i + 1)
  }

  /** The guard. */
  predicate Ready(p: Bytes, i: nat, k: Bytes) {
    StarsAreSteady(p, i) || BACKSLASH !in k
  }

  lemma {:induction false} ReadyGoesOn(p: Bytes, i: nat, k: Bytes, j: nat)
    requires i < |p| && j < |k| && Ready(p, i, k)
    ensures p[i] == STAR ==> Steady(p, i + 1, k)
    ensures Token(p, i, k[j]).Some? ==> Ready(p, Token(p, i, k[j]).value, k)
  {
    hide ClassBody, Holds, NoEscapedBracket;
  }

  lemma {:induction false} SteadyGoesOn(p: Bytes, i: nat, k: Bytes, j: nat)
    requires i < |p| && j < |k| && Steady(p, i, k)
    ensures p[i] == STAR ==> Steady(p, i + 1, k)
    ensures Token(p, i, k[j]).Some? ==> Steady(p, Token(p, i, k[j]).value, k)
  {
    hide ClassBody, Holds;
    if p[i] == BACKSLASH && i + 1 < |p| && NoEscapedBracket(p, i) {
      hide NoEscapedBracket;
      AfterBackslash(p, i);
    }
  }

  lemma {:induction false} AfterBackslash(p: Bytes, i: nat)
    requires i + 1 < |p| && p[i] == BACKSLASH && NoEscapedBracket(p, i)
    ensures NoEscapedBracket(p, i + 2) && (p[i + 1] == OPEN ==> Unclosed(p, i + 1))
    ensures p[i + 1] != BACKSLASH ==> NoEscapedBracket(p, i + 1)
  {
  }

  /** A star that may start at `j` may start earlier, and stands for the rest of the pattern from some later place. */
  lemma {:induction false} StarReachesBack(p: Bytes, e: nat, k: Bytes, from: nat, j: nat)
    requires e < |p| && p[e] == STAR && from <= j <= |k| && Matches(p, e, k, j)
    ensures Matches(p, e, k, from)
    decreases j - from
  {
    if from < j {
      StarReachesBack(p, e, k, from + 1, j);
    }
  }

  lemma {:induction false} StarSkips(p: Bytes, e: nat, k: Bytes, j: nat) returns (m: nat)
    requires e < |p| && p[e] == STAR && j <= |k| && Matches(p, e, k, j)
    ensures j <= m <= |k| && Matches(p, e + 1, k, m)
    decreases |k| - j
  {
    if Matches(p, e + 1, k, j) {
      m := j;
    } else {
      m := StarSkips(p, e, k, j + 1);
    }
  }

  /** Token by token, and past no star, the pattern gets from `i` to `e` while the key goes from `j` to `ke`. */
  predicate Runs(p: Bytes, i: nat, k: Bytes, j: nat, e: nat, ke: nat)
    decreases |k| - j
  {
    if i >= e then i == e && j == ke
    else j < |k| && Token(p, i, k[j]).Some? && Runs(p, Token(p, i, k[j]).value, k, j + 1, e, ke)
  }

  lemma {:induction false} RunsOneMore(p: Bytes, i: nat, k: Bytes, j: nat, e: nat, ke: nat)
    requires Runs(p, i, k, j, e, ke) && ke < |k| && Token(p, e, k[ke]).Some?
    ensures Runs(p, i, k, j, Token(p, e, k[ke]).value, ke + 1)
    decreases |k| - j
  {
    hide Token;
    if i < e {
      RunsOneMore(p, Token(p, i, k[j]).value, k, j + 1, e, ke);
    }
  }

  /** One token stops at two places only behind a backslash that one key octet answers and the other is. */
  lemma {:induction false} TokensDiffer(p: Bytes, i: nat, k: Bytes, j: nat, j2: nat)
    requires j < |k| && j2 < |k| && Steady(p, i, k)
    requires Token(p, i, k[j]).Some? && Token(p, i, k[j2]).Some?
    requires Token(p, i, k[j]) != Token(p, i, k[j2])
    ensures i + 1 < |p| && p[i] == BACKSLASH && p[i + 1] != BACKSLASH && (p[i + 1] == OPEN ==> Unclosed(p, i + 1))
    ensures Steady(p, i + 1, k) && Steady(p, i + 2, k)
    ensures Token(p, i, k[j]).value == i + 1 <==> Token(p, i, k[j2]).value == i + 2
    ensures Token(p, i, k[j]).value in {i + 1, i + 2} && Token(p, i, k[j2]).value in {i + 1, i + 2}
  {
    hide ClassBody, Holds, NoEscapedBracket, Unclosed;
    AfterBackslash(p, i);
  }

  lemma {:induction false} PlainToken(p: Bytes, i: nat, c: Byte)
    requires i < |p| && p[i] != BACKSLASH && p[i] != OPEN
    ensures p[i] == STAR ==> Token(p, i, c) == None
    ensures Token(p, i, c).Some? ==> Token(p, i, c).value == i + 1
  {
  }

  /**
    Why only the last star matters: if the rest of the pattern fits the key from some place behind `j`,
    then after the run from `j` the star it has come to (or the end of the key) fits as well.
   */
  lemma {:induction false} RunOvertakes(p: Bytes, i: nat, k: Bytes, j: nat, e: nat, ke: nat, j2: nat)
    requires i <= |p| && e <= |p| && ke <= |k| && Runs(p, i, k, j, e, ke) && Steady(p, i, k)
    requires (e < |p| && p[e] == STAR) || ke == |k|
    requires j <= j2 <= |k| && Matches(p, i, k, j2)
    ensures Matches(p, e, k, ke)
    decreases |k| - j
  {
    hide Token, Steady;
    if i == e {
      if e < |p| && p[e] == STAR {
        StarReachesBack(p, e, k, ke, j2);
      }
    } else {
      NoTokenAtStar(p, i, k[j]);
      SteadyGoesOn(p, i, k, j);
      var n1, n2 := Token(p, i, k[j]).value, Token(p, i, k[j2]).value;
      if n1 == n2 {
        RunOvertakes(p, n1, k, j + 1, e, ke, j2 + 1);
      } else {
        TokensDiffer(p, i, k, j, j2);
        if p[i + 1] == OPEN {
          UnclosedReadsNothing(p, i + 1, k, j2 + 1);
        } else if n1 == i + 2 {
          RunEscapes(p, i, k, j, e, ke, j2);
        } else {
          RunFallsThrough(p, i, k, j, e, ke, j2);
        }
      }
    }
  }

  lemma {:induction false} NoTokenAtStar(p: Bytes, i: nat, c: Byte)
    ensures Token(p, i, c).Some? ==> i < |p| && p[i] != STAR
  {
  }

  /** The run reads the escaped octet; the other reading takes the backslash for itself. */
  lemma {:induction false} RunEscapes(p: Bytes, i: nat, k: Bytes, j: nat, e: nat, ke: nat, j2: nat)
    requires i + 1 < |p| && p[i + 1] != BACKSLASH && p[i + 1] != OPEN && Steady(p, i + 2, k)
    requires j < j2 < |k| && e <= |p| && ke <= |k| && Runs(p, i + 2, k, j + 1, e, ke)
    requires (e < |p| && p[e] == STAR) || ke == |k|
    requires Matches(p, i + 1, k, j2 + 1)
    ensures Matches(p, e, k, ke)
    decreases |k| - j, 0
  {
    hide Token, Steady, Runs;
    var m: nat;
    if p[i + 1] == STAR {
      m := StarSkips(p, i + 1, k, j2 + 1);
    } else {
      PlainToken(p, i + 1, k[j2 + 1]);
      m := j2 + 2;
    }
    RunOvertakes(p, i + 2, k, j + 1, e, ke, m);
  }

  /** The run takes the backslash for itself; the other reading has the escaped octet. */
  lemma {:induction false} RunFallsThrough(p: Bytes, i: nat, k: Bytes, j: nat, e: nat, ke: nat, j2: nat)
    requires i + 1 < |p| && p[i + 1] != BACKSLASH && p[i + 1] != OPEN && Steady(p, i + 2, k)
    requires j < j2 < |k| && i < e <= |p| && ke <= |k| && Runs(p, i + 1, k, j + 1, e, ke)
    requires (e < |p| && p[e] == STAR) || ke == |k|
    requires Matches(p, i + 2, k, j2 + 1)
    ensures Matches(p, e, k, ke)
    decreases |k| - j, 0
  {
    hide Token, Steady;
    if e == i + 1 {
      StarReachesBack(p, e, k, ke, j2 + 1);
    } else {
      PlainToken(p, i + 1, k[j + 1]);
      RunOvertakes(p, i + 2, k, j + 2, e, ke, j2 + 1);
    }
  }

  lemma {:induction false} GreedyIsComplete(p: Bytes, pi: nat, k: Bytes, ki: nat, star: Option<nat>, starK: nat)
    requires Resumable(p, pi, k, ki, star, starK) && (if star.None? then Ready(p, pi, k) else Steady(p, pi, k))
    requires star.Some? ==> Steady(p, star.value + 1, k) && Runs(p, star.value + 1, k, starK, pi, ki)
    requires Matches(p, pi, k, ki) || (star.Some? && starK < |k| && Matches(p, star.value, k, starK + 1))
    ensures Greedy(p, pi, k, ki, star, starK)
    decreases |k| - starK, |p| - pi
  {
    hide Token, OnlyStars, Steady, Ready;
    var here := ki == |k| || (pi < |p| && p[pi] == STAR);
    if here && !Matches(p, pi, k, ki) {
      var m := StarSkips(p, star.value, k, starK + 1);
      RunOvertakes(p, star.value + 1, k, starK, pi, ki, m);
    }
    if ki == |k| {
      StarsMatchNothing(p, pi, k);
    } else if pi < |p| && p[pi] == STAR {
      GuardGoesOn(p, pi, k, ki, star);
      GreedyIsComplete(p, pi + 1, k, ki, Some(pi), ki);
    } else if Token(p, pi, k[ki]).Some? {
      NoTokenAtStar(p, pi, k[ki]);
      GuardGoesOn(p, pi, k, ki, star);
      if star.Some? {
        RunsOneMore(p, star.value + 1, k, starK, pi, ki);
      }
      GreedyIsComplete(p, Token(p, pi, k[ki]).value, k, ki + 1, star, starK);
    } else {
      GreedyIsComplete(p, star.value + 1, k, starK + 1, star, starK + 1);
    }
  }

  lemma {:induction false} GuardGoesOn(p: Bytes, i: nat, k: Bytes, j: nat, star: Option<nat>)
    requires i < |p| && j < |k| && if star.None? then Ready(p, i, k) else Steady(p, i, k)
    ensures p[i] == STAR ==> Steady(p, i + 1, k)
    ensures Token(p, i, k[j]).Some? ==>
              if star.None? then Ready(p, Token(p, i, k[j]).value, k) else Steady(p, Token(p, i, k[j]).value, k)
  {
    hide Token, Steady, Ready;
    if star.None? {
      ReadyGoesOn(p, i, k, j);
    } else {
      SteadyGoesOn(p, i, k, j);
    }
  }

  /**
    The loop decides the pattern's meaning whenever the key has no backslash octet, or behind the first star
    no backslash outside a class escapes a bracket whose class is closed.
   */
  lemma {:induction false} GlobIsComplete(p: Bytes, k: Bytes)
    requires Ready(p, 0, k)
    ensures Glob(p, k) <==> Matches(p, 0, k, 0)
  {
    hide Ready;
    if Matches(p, 0, k, 0) {
      GreedyIsComplete(p, 0, k, 0, None, 0);
    }
    if Glob(p, k) {
      GlobIsSound(p, k);
    }
  }

  lemma {:induction false} GlobDecides(p: Bytes, k: Bytes)
    ensures Glob(p, k) ==> Matches(p, 0, k, 0)
    ensures Ready(p, 0, k) ==> (Glob(p, k) <==> Matches(p, 0, k, 0))
  {
    hide Glob, Matches, Ready;
    if Glob(p, k) {
      GlobIsSound(p, k);
    }
    if Ready(p, 0, k) {
      GlobIsComplete(p, k);
    }
  }

  /**
    Outside that guard it can miss a match. Against `*\[*]*x` the key `[\*x` fits with the backslash read as
    itself and `[*]` as a class, but the loop has by then committed to the star inside the brackets.
   */
  lemma {:induction false} GlobMissesAMatch()
    ensures var p: Bytes := [STAR, BACKSLASH, OPEN, STAR, CLOSE, STAR, 0x78];
            var k: Bytes := [OPEN, BACKSLASH, STAR, 0x78];
            Matches(p, 0, k, 0) && !Glob(p, k)
  {
    var p: Bytes := [STAR, BACKSLASH, OPEN, STAR, CLOSE, STAR, 0x78];
    var k: Bytes := [OPEN, BACKSLASH, STAR, 0x78];
    var body := ClassBody(p, 3, true);
    assert ClassBody(p, 4, false) == Some(Class([], 5));
    assert [ItemAt(p, 3)] + [] == [Item(STAR, STAR)];
    assert body.value.items[0].lo <= STAR;
    assert Token(p, 2, STAR) == Some(5);
    assert Matches(p, 6, k, 3) by { assert Matches(p, 7, k, 4); }
    assert Matches(p, 5, k, 3);
    assert Matches(p, 2, k, 2);
    assert Matches(p, 1, k, 1);
    assert Matches(p, 0, k, 1);
    assert !Greedy(p, 4, k, 4, Some(3), 4);
    assert !Greedy(p, 4, k, 3, Some(3), 3);
    assert !Greedy(p, 4, k, 2, Some(3), 2);
    assert !Greedy(p, 4, k, 1, Some(3), 1);
    assert !Greedy(p, 3, k, 1, Some(0), 0);
    assert Token(p, 1, OPEN) == Some(3);
    assert !Greedy(p, 1, k, 0, Some(0), 0);
  }

  // ---------------------------------------------------------------- literal prefixes

  predicate IsSpecial(b: Byte) {
    b == STAR || b == ANY || b == OPEN || b == CLOSE || b == BACKSLASH
  }

  function Literal(b: Byte): Bytes {
    if IsSpecial(b) then [BACKSLASH, b] else [b]
  }

  function Escaped(x: Bytes): Bytes {
    if x == [] then [] else Literal(x[0]) + Escaped(x[1..])
  }

  datatype MatchMode = LiteralPrefix | RawGlob

  function ScanPattern(mode: MatchMode, x: Bytes): Bytes {
    if mode.RawGlob? then x else Escaped(x) + [STAR]
  }

  lemma {:induction false} EscapedOnce(x: Bytes, n: nat)
    requires n < |x|
    ensures Escaped(x[n..]) == Literal(x[n]) + Escaped(x[n + 1..])
  {
    assert x[n..][1..] == x[n + 1..];
  }

  lemma {:induction false} EscapedNothing(x: Bytes)
    ensures Escaped(x[|x|..]) == []
  {
  }

  /** The escaping loop of `scan_pattern`. */
  method BuildScanPattern(mode: MatchMode, x: Bytes) returns (out: Bytes)
    ensures out == ScanPattern(mode, x)
  {
    if mode.RawGlob? {
      return x;
    }
    hide Escaped;
    out := [];
    assert x[0..] == x && [] + Escaped(x) == Escaped(x);
    for n := 0 to |x|
      invariant out + Escaped(x[n..]) == Escaped(x)
    {
      EscapedOnce(x, n);
      assert out + (Literal(x[n]) + Escaped(x[n + 1..])) == out + Literal(x[n]) + Escaped(x[n + 1..]);
      if IsSpecial(x[n]) {
        out := out + [BACKSLASH];
      }
      out := out + [x[n]];
    }
    EscapedNothing(x);
    out := out + [STAR];
  }

  /** From position `i`, the pattern is the escaped form of `x` and a star. */
  predicate PrefixAt(p: Bytes, i: nat, x: Bytes) {
    i <= |p| && p[i..] == Escaped(x) + [STAR]
  }

  /** The first octet of the prefix, as the pattern spells it. */
  lemma {:induction false} PrefixToken(p: Bytes, i: nat, x: Bytes)
    requires PrefixAt(p, i, x) && x != []
    ensures var n := |Literal(x[0])|;
            && i + n < |p| && p[i] != STAR
            && p[i..i + n] == Literal(x[0])
            && PrefixAt(p, i + n, x[1..])
            && Token(p, i, x[0]) == Some(i + n)
  {
    hide ClassAt;
    var n := |Literal(x[0])|;
    var tail := Escaped(x[1..]) + [STAR];
    assert p[i..] == Literal(x[0]) + tail;
    assert p[i..][n..] == tail && p[i + n..] == p[i..][n..];
    assert p[i..i + n] == p[i..][..n] == Literal(x[0]);
    assert p[i] == Literal(x[0])[0];
    if n == 2 {
      assert p[i + 1] == Literal(x[0])[1];
    }
  }

  lemma {:induction false} PrefixEnd(p: Bytes, i: nat)
    requires PrefixAt(p, i, [])
    ensures i + 1 == |p| && p[i] == STAR && OnlyStars(p, i) && OnlyStars(p, i + 1)
  {
    assert p[i..][0] == STAR;
  }

  lemma {:induction false} LastStarTakesAll(p: Bytes, k: Bytes, ki: nat, starK: nat)
    requires p != [] && p[|p| - 1] == STAR && starK <= ki <= |k|
    ensures Greedy(p, |p|, k, ki, Some(|p| - 1), starK)
    decreases |k| - starK
  {
    if ki < |k| {
      LastStarTakesAll(p, k, starK + 1, starK + 1);
    }
  }

  /** The loop reads a literal prefix off the key and lets the final star have the rest. */
  lemma {:induction false} PrefixIsRead(p: Bytes, i: nat, x: Bytes, k: Bytes, j: nat, star: Option<nat>, starK: nat)
    requires PrefixAt(p, i, x) && Resumable(p, i, k, j, star, starK) && x <= k[j..]
    ensures Greedy(p, i, k, j, star, starK)
    decreases |x|
  {
    hide Token;
    if x == [] {
      PrefixEnd(p, i);
      LastStarTakesAll(p, k, j, j);
    } else {
      PrefixToken(p, i, x);
      assert k[j] == x[0];
      assert x[1..] <= k[j + 1..];
      PrefixIsRead(p, i + |Literal(x[0])|, x[1..], k, j + 1, star, starK);
    }
  }

  /** Every key that begins with the prefix is matched. */
  lemma {:induction false} PrefixIsMatched(x: Bytes, k: Bytes)
    requires x <= k
    ensures Glob(ScanPattern(LiteralPrefix, x), k)
  {
    var p := ScanPattern(LiteralPrefix, x);
    assert p[0..] == p && k[0..] == k;
    PrefixIsRead(p, 0, x, k, 0, None, 0);
  }

  /** The octets whose escape a backslash in the key can undo. */
  predicate IsLoose(b: Byte) {
    b == STAR || b == ANY || b == CLOSE
  }

  predicate HasLoose(x: Bytes) {
    exists m :: 0 <= m < |x| && IsLoose(x[m])
  }

  lemma {:induction false} LooseTail(x: Bytes)
    requires x != []
    ensures HasLoose(x[1..]) || IsLoose(x[0]) ==> HasLoose(x)
  {
    if HasLoose(x[1..]) {
      var m :| 0 <= m < |x[1..]| && IsLoose(x[1..][m]);
      assert IsLoose(x[m + 1]);
    }
  }

  lemma {:induction false} NothingCloses(x: Bytes)
    requires CLOSE !in x
    ensures CLOSE !in Escaped(x)
  {
    if x != [] {
      NothingCloses(x[1..]);
    }
  }

  lemma {:induction false} OpenForever(p: Bytes, i: nat, first: bool)
    requires CLOSE !in p[if i <= |p| then i else |p|..]
    ensures ClassBody(p, i, first) == None
    decreases |p| - i
  {
    if i < |p| {
      assert p[i] == p[i..][0];
      var n := i + ItemWidth(p, i);
      assert n <= |p| ==> p[n..] == p[i..][n - i..];
      OpenForever(p, n, false);
    }
  }

  lemma {:induction false} CloseIsLoose(x: Bytes)
    ensures CLOSE in x ==> HasLoose(x)
  {
    if CLOSE in x {
      var m :| 0 <= m < |x| && x[m] == CLOSE;
      assert IsLoose(x[m]);
    }
  }

  /** A token spelled by the escape reads its own octet only. */
  lemma {:induction false} OnlyItsOctet(p: Bytes, i: nat, x: Bytes, k: Bytes, j: nat)
    requires PrefixAt(p, i, x) && x != [] && j <= |k|
    requires BACKSLASH !in k || !HasLoose(x)
    requires Matches(p, i, k, j)
    ensures j < |k| && k[j] == x[0] && Matches(p, i + |Literal(x[0])|, k, j + 1)
  {
    PrefixToken(p, i, x);
    if k[j] != x[0] {
      assert p[i] == Literal(x[0])[0];
      assert IsSpecial(x[0]) && k[j] == BACKSLASH;
      assert p[i + 1] == p[i..i + 2][1] == x[0];
      assert !IsLoose(x[0]);
      assert x[0] == OPEN;
      CloseIsLoose(x);
      NothingCloses(x[1..]);
      OpenNeverReads(p, i + 1, x[1..], k, j + 1);
    }
  }

  lemma {:induction false} OpenNeverReads(p: Bytes, at: nat, x: Bytes, k: Bytes, j: nat)
    requires at < |p| && p[at] == OPEN && PrefixAt(p, at + 1, x) && CLOSE !in Escaped(x) && j <= |k|
    ensures !Matches(p, at, k, j)
  {
    var s := ClassStart(p, at);
    if s <= |p| {
      assert p[s..] == p[at + 1..][s - at - 1..];
    }
    OpenForever(p, s, true);
  }

  lemma {:induction false} MatchIsPrefixed(p: Bytes, i: nat, x: Bytes, k: Bytes, j: nat)
    requires PrefixAt(p, i, x) && j <= |k| && Matches(p, i, k, j)
    requires BACKSLASH !in k || !HasLoose(x)
    ensures x <= k[j..]
    decreases |x|
  {
    hide HasLoose, IsLoose, Token, Literal, Escaped;
    if x != [] {
      OnlyItsOctet(p, i, x, k, j);
      PrefixToken(p, i, x);
      LooseTail(x);
      MatchIsPrefixed(p, i + |Literal(x[0])|, x[1..], k, j + 1);
      assert k[j + 1..] == k[j..][1..];
    }
  }

  /** Escape, then match, is starts-with: for keys without a backslash, and for every key if no octet of the prefix is loose. */
  lemma {:induction false} EscapedPrefixIsStartsWith(x: Bytes, k: Bytes)
    requires BACKSLASH !in k || !HasLoose(x)
    ensures Glob(ScanPattern(LiteralPrefix, x), k) <==> x <= k
  {
    var p := ScanPattern(LiteralPrefix, x);
    if x <= k {
      PrefixIsMatched(x, k);
    }
    if Glob(p, k) {
      GlobIsSound(p, k);
      assert p[0..] == p && k[0..] == k;
      MatchIsPrefixed(p, 0, x, k, 0);
    }
  }

  /** A key that does not begin with `x`, made by undoing the escape of the loose octet at `m`. */
  function Impostor(x: Bytes, m: nat): Bytes
    requires m < |x|
  {
    x[..m] + [BACKSLASH] + (if x[m] == STAR then x[m + 1..] else x[m..])
  }

  lemma {:induction false} ImpostorIsRead(p: Bytes, i: nat, x: Bytes, m: nat, k: Bytes, j: nat)
    requires m < |x| && IsLoose(x[m]) && PrefixAt(p, i, x) && j <= |k| && k[j..] == Impostor(x, m)
    ensures Greedy(p, i, k, j, None, 0)
    decreases m
  {
    hide ClassAt;
    PrefixToken(p, i, x);
    var n := |Literal(x[0])|;
    assert k[j + 1..] == k[j..][1..];
    if m > 0 {
      assert k[j] == Impostor(x, m)[0] == x[0];
      assert Impostor(x, m)[1..] == Impostor(x[1..], m - 1);
      ImpostorIsRead(p, i + n, x[1..], m - 1, k, j + 1);
    } else {
      assert k[j] == Impostor(x, 0)[0] == BACKSLASH;
      assert p[i] == p[i..i + 2][0] && p[i + 1] == p[i..i + 2][1];
      assert Token(p, i, k[j]) == Some(i + 1);
      if x[0] == STAR {
        assert k[j + 1..] == x[1..];
        PrefixIsRead(p, i + 2, x[1..], k, j + 1, Some(i + 1), j + 1);
        assert Greedy(p, i + 1, k, j + 1, None, 0) by { StarThenPrefix(p, i + 1, x[1..], k, j + 1); }
      } else {
        assert k[j + 1..] == x;
        assert Token(p, i + 1, x[0]) == Some(i + 2);
        assert k[j + 1] == k[j + 1..][0];
        assert x[1..] <= k[j + 2..] by { assert k[j + 2..] == k[j + 1..][1..]; }
        PrefixIsRead(p, i + 2, x[1..], k, j + 2, None, 0);
      }
    }
  }

  lemma {:induction false} StarThenPrefix(p: Bytes, i: nat, x: Bytes, k: Bytes, j: nat)
    requires i < |p| && p[i] == STAR && PrefixAt(p, i + 1, x) && j <= |k| && x <= k[j..]
    ensures Greedy(p, i, k, j, None, 0)
  {
    PrefixIsRead(p, i + 1, x, k, j, Some(i), j);
    if j == |k| {
      assert x == [];
      PrefixEnd(p, i + 1);
    }
  }

  /** Exactly which prefixes mean starts-with on every key. */
  lemma {:induction false} PrefixesThatMeanStartsWith(x: Bytes)
    ensures (forall k: Bytes :: Glob(ScanPattern(LiteralPrefix, x), k) <==> x <= k)
       <==> !HasLoose(x)
  {
    if HasLoose(x) {
      var m :| 0 <= m < |x| && IsLoose(x[m]);
      var k := Impostor(x, m);
      var p := ScanPattern(LiteralPrefix, x);
      assert p[0..] == p && k[0..] == k;
      ImpostorIsRead(p, 0, x, m, k, 0);
      assert k[m] != x[m];
      assert Glob(p, k) && !(x <= k);
    } else {
      forall k: Bytes ensures Glob(ScanPattern(LiteralPrefix, x), k) <==> x <= k {
        EscapedPrefixIsStartsWith(x, k);
      }
    }
  }
}
