/** What the walker guarantees on every grammar, and where it agrees with the positional tables. */
module GrammarLaws {
  import opened Prelude
  import opened VersionedText
  import opened Grammar

  // ---------------------------------------------------------------- nothing is guessed

  /** Some place of the grammar gives `role` to `arg`: a keyword only to the word it is. */
  predicate Gives(n: Node, arg: Bytes, role: Role)
    decreases n
  {
    match n
    case Token(text, r) => r == role && SameWord(arg, text)
    case Arg(r) => r == role
    case Paired(first, second) => first == role || second == role
    case Optional(inner) => Gives(inner, arg, role)
    case Repeat(inner) => Gives(inner, arg, role)
    case Choice(alts) => exists k :: 0 <= k < |alts| && Gives(alts[k], arg, role)
    case Seq(items) => exists k :: 0 <= k < |items| && Gives(items[k], arg, role)
  }

  predicate AnyGives(items: seq<Node>, arg: Bytes, role: Role) {
    exists k :: 0 <= k < |items| && Gives(items[k], arg, role)
  }

  lemma {:induction false} SingleGives(n: Node, arg: Bytes)
    requires SingleRole(n).Some?
    ensures Gives(n, arg, SingleRole(n).value)
  {
    if n.Seq? {
      SingleGives(n.items[0], arg);
    }
  }

  /** What walking a node adds is given by the node. */
  lemma {:induction false} WalkIsGiven(n: Node, args: seq<Bytes>, w: Walk)
    requires |w.out| <= |args|
    ensures forall k :: |w.out| <= k < |WalkNode(n, args, w).out| ==> Gives(n, args[k], WalkNode(n, args, w).out[k])
    decreases n, 0, 0
  {
    hide SameWord, LeadingTokens, MayStart, CountKeys, FirstStarting, FirstPlain, StartsWithToken;
    if |w.out| < |args| {
      match n
      case Token(_, _) =>
      case Arg(_) =>
      case Paired(_, _) =>
      case Seq(items) => WalkSeqIsGiven(items, args, w);
      case Optional(inner) => WalkIsGiven(inner, args, w);
      case Choice(alts) =>
        var k := Chosen(alts, args[|w.out|]);
        if k < |alts| {
          WalkIsGiven(alts[k], args, w);
        }
      case Repeat(inner) =>
        if !w.numKeys.Unseen? && SingleRole(inner) == Some(Key) {
          forall k | |w.out| <= k < |TakeKeys(args, w).out| ensures Gives(inner, args[k], TakeKeys(args, w).out[k]) {
            SingleGives(inner, args[k]);
          }
        } else {
          WalkRepeatIsGiven(inner, args, w);
        }
    }
  }

  lemma {:induction false} WalkSeqIsGiven(items: seq<Node>, args: seq<Bytes>, w: Walk)
    requires |w.out| <= |args|
    ensures forall k :: |w.out| <= k < |WalkSeq(items, args, w).out| ==>
      AnyGives(items, args[k], WalkSeq(items, args, w).out[k])
    decreases items, 2, 0
  {
    hide WalkNode, Gives;
    if items != [] {
      var next, last := WalkNode(items[0], args, w), WalkSeq(items, args, w);
      WalkIsGiven(items[0], args, w);
      WalkSeqIsGiven(items[1..], args, next);
      forall k | |w.out| <= k < |last.out| ensures AnyGives(items, args[k], last.out[k]) {
        if k < |next.out| {
          assert last.out[k] == next.out[k];
          assert Gives(items[0], args[k], last.out[k]);
        } else {
          assert AnyGives(items[1..], args[k], last.out[k]);
          var m :| 0 <= m < |items[1..]| && Gives(items[1..][m], args[k], last.out[k]);
          assert Gives(items[m + 1], args[k], last.out[k]);
        }
      }
    }
  }

  lemma {:induction false} WalkRepeatIsGiven(inner: Node, args: seq<Bytes>, w: Walk)
    requires |w.out| <= |args|
    ensures forall k :: |w.out| <= k < |WalkRepeat(inner, args, w).out| ==>
      Gives(inner, args[k], WalkRepeat(inner, args, w).out[k])
    decreases inner, 1, |args| - |w.out|
  {
    hide WalkNode, Gives, MayStart;
    if |w.out| < |args| && MayStart(inner, args[|w.out|]) {
      var next := WalkNode(inner, args, w);
      WalkIsGiven(inner, args, w);
      if |next.out| > |w.out| {
        WalkRepeatIsGiven(inner, args, next);
        assert forall k :: 0 <= k < |next.out| ==> WalkRepeat(inner, args, next).out[k] == next.out[k];
      }
    }
  }

  /**
    Unknown positions fail closed, for every grammar and every argument list: an argument's role is
    given to it by some place of the grammar, a keyword's or subcommand's only if that word was typed
    there, and is otherwise a plain value.
   */
  lemma {:induction false} RolesAreGivenOrValue(grammar: Node, args: seq<Bytes>, k: nat)
    requires k < |args|
    ensures |ResolveRoles(grammar, args)| == |args|
    ensures ResolveRoles(grammar, args)[k] == Value || Gives(grammar, args[k], ResolveRoles(grammar, args)[k])
  {
    hide WalkNode, Gives;
    WalkIsGiven(grammar, args, Walk([], Unseen));
  }

  // ---------------------------------------------------------------- plain arguments and a trailing repeat

  predicate IsPlain(n: Node)
    decreases n
  {
    match n
    case Arg(role) => !role.NumKeysRole?
    case Seq(items) => forall k :: 0 <= k < |items| ==> IsPlain(items[k])
    case _ => false
  }

  predicate AllPlain(items: seq<Node>) {
    forall k :: 0 <= k < |items| ==> IsPlain(items[k])
  }

  /** Plain arguments, in sequences of any nesting, and at the very end perhaps a repeat of plain arguments. */
  predicate IsTailed(n: Node)
    decreases n
  {
    || IsPlain(n)
    || (n.Repeat? && IsPlain(n.inner))
    || (n.Seq? && n.items != [] && AllPlain(n.items[..|n.items| - 1]) && IsTailed(n.items[|n.items| - 1]))
  }

  lemma {:induction false} PlainDoesNotRepeat(n: Node)
    requires IsPlain(n)
    ensures TrailingRepeat(n) == None && LeadingTokens(n) == None
    decreases n
  {
    if n.Seq? && n.items != [] {
      PlainDoesNotRepeat(n.items[|n.items| - 1]);
      PlainDoesNotRepeat(n.items[0]);
    }
  }

  /** The first arguments take the roles of `flat`, as far as both go. */
  function Taken(flat: seq<Role>, args: seq<Bytes>, w: Walk): Walk
    requires |w.out| <= |args|
  {
    w.(out := w.out + flat[..Min(|flat|, |args| - |w.out|)])
  }

  lemma {:induction false} PlainWalks(n: Node, args: seq<Bytes>, w: Walk)
    requires IsPlain(n) && |w.out| <= |args|
    ensures WalkNode(n, args, w) == Taken(Flatten(n), args, w)
    decreases n, 0
  {
    hide FlattenAll, WalkSeq;
    if |w.out| == |args| {
      assert w.out + Flatten(n)[..0] == w.out;
    } else if n.Seq? {
      PlainSeqWalks(n.items, args, w);
    } else {
      assert Flatten(n)[..1] == Flatten(n);
    }
  }

  lemma {:induction false} PlainSeqWalks(items: seq<Node>, args: seq<Bytes>, w: Walk)
    requires AllPlain(items) && |w.out| <= |args|
    ensures WalkSeq(items, args, w) == Taken(FlattenAll(items), args, w)
    decreases items, 1
  {
    hide WalkNode, Flatten, IsPlain;
    if items == [] {
      assert w.out + FlattenAll(items)[..0] == w.out;
    } else {
      PlainWalks(items[0], args, w);
      PlainSeqWalks(items[1..], args, WalkNode(items[0], args, w));
      TakenTwice(Flatten(items[0]), FlattenAll(items[1..]), args, w);
    }
  }

  lemma {:induction false} TakenTwice(a: seq<Role>, b: seq<Role>, args: seq<Bytes>, w: Walk)
    requires |w.out| <= |args|
    ensures |Taken(a, args, w).out| <= |args|
    ensures Taken(b, args, Taken(a, args, w)) == Taken(a + b, args, w)
  {
    var rest := |args| - |w.out|;
    if |a| <= rest {
      assert a[..|a|] == a;
      var m := Min(|b|, rest - |a|);
      assert (a + b)[..|a| + m] == a + b[..m];
      assert w.out + a + b[..m] == w.out + (a + b[..m]);
    } else {
      assert (a + b)[..rest] == a[..rest];
      assert b[..0] == [];
      assert w.out + a[..rest] + [] == w.out + a[..rest];
    }
  }

  function Rem(k: nat, m: nat): (r: nat)
    requires m > 0
    ensures r < m
  {
    k % m
  }

  /** The cycle, over and over, for `n` arguments. */
  function Cycled(cycle: seq<Role>, n: nat): (s: seq<Role>)
    requires cycle != []
    ensures |s| == n && forall k :: 0 <= k < n ==> s[k] == cycle[Rem(k, |cycle|)]
  {
    seq(n, k requires 0 <= k < n => cycle[Rem(k, |cycle|)])
  }

  lemma {:induction false} CycledOnce(cycle: seq<Role>, n: nat)
    requires cycle != []
    ensures n <= |cycle| ==> Cycled(cycle, n) == cycle[..n]
    ensures n > |cycle| ==> Cycled(cycle, n) == cycle + Cycled(cycle, n - |cycle|)
  {
    hide Rem, Cycled;
    var m, all := |cycle|, Cycled(cycle, n);
    if n <= m {
      forall k | 0 <= k < n ensures all[k] == cycle[..n][k] {
        SmallModulo(k, m);
      }
    } else {
      var rest := Cycled(cycle, n - m);
      forall k | 0 <= k < n ensures all[k] == (cycle + rest)[k] {
        SmallModulo(k, m);
        if k >= m {
          assert rest[k - m] == cycle[Rem(k - m, m)];
        }
      }
    }
  }

  lemma {:induction false} SmallModulo(k: nat, m: nat)
    requires m > 0
    ensures k < m ==> Rem(k, m) == k
    ensures k >= m ==> Rem(k, m) == Rem(k - m, m)
  {
    if k >= m {
      ModuloStep(k - m, m);
    }
  }

  lemma {:induction false} ModuloStep(k: nat, m: nat)
    requires m > 0
    ensures (k + m) % m == k % m
  {
    var q := k / m;
    assert k == q * m + k % m;
    assert k + m == (q + 1) * m + k % m;
    UniqueRemainder(k + m, q + 1, k % m, m);
  }

  lemma {:induction false} UniqueRemainder(a: nat, q: nat, r: nat, m: nat)
    requires m > 0 && r < m && a == q * m + r
    ensures a % m == r
  {
    var p := a / m;
    assert a == p * m + a % m;
    LargeProduct(p, q, m);
    LargeProduct(q, p, m);
  }

  lemma {:induction false} LargeProduct(p: nat, q: nat, m: nat)
    ensures p > q ==> p * m >= q * m + m
  {
    if p > q {
      OneMore(p, m);
      if p > q + 1 {
        LargeProduct(p - 1, q, m);
      }
    }
  }

  lemma {:induction false} OneMore(n: int, m: nat)
    ensures n * m == (n - 1) * m + m
  {
  }

  /** One round of the cycle, and the rounds behind it. */
  lemma {:induction false} OneRound(cycle: seq<Role>, args: seq<Bytes>, w: Walk)
    requires cycle != [] && |w.out| < |args|
    ensures var next := Taken(cycle, args, w);
            && |w.out| < |next.out| <= |args|
            && next.out + Cycled(cycle, |args| - |next.out|) == w.out + Cycled(cycle, |args| - |w.out|)
  {
    var rest := |args| - |w.out|;
    CycledOnce(cycle, rest);
    if rest > |cycle| {
      assert cycle[..|cycle|] == cycle;
      var more := Cycled(cycle, rest - |cycle|);
      assert w.out + cycle + more == w.out + (cycle + more);
    }
  }

  lemma {:induction false} NoRound(cycle: seq<Role>, w: Walk)
    ensures cycle != [] ==> w.out + Cycled(cycle, 0) == w.out
    ensures w.out + cycle[..0] == w.out
  {
  }

  lemma {:induction false} RepeatWalks(inner: Node, args: seq<Bytes>, w: Walk)
    requires IsPlain(inner) && |w.out| <= |args|
    ensures WalkRepeat(inner, args, w)
         == if Flatten(inner) == [] then w else w.(out := w.out + Cycled(Flatten(inner), |args| - |w.out|))
    decreases |args| - |w.out|
  {
    hide WalkNode, Flatten, IsPlain, LeadingTokens, StartsWithToken, Cycled;
    var cycle := Flatten(inner);
    PlainDoesNotRepeat(inner);
    NoRound(cycle, w);
    if |w.out| < |args| {
      PlainWalks(inner, args, w);
      if cycle != [] {
        OneRound(cycle, args, w);
        hide Taken;
        RepeatWalks(inner, args, WalkNode(inner, args, w));
      }
    }
  }

  /** What a tailed grammar is made of: its fixed roles, and the cycle behind them if it ends in a repeat. */
  function Fixed(n: Node): seq<Role>
    decreases n
  {
    if n.Seq? && n.items != [] then FlattenAll(n.items[..|n.items| - 1]) + Fixed(n.items[|n.items| - 1])
    else if n.Repeat? then []
    else Flatten(n)
  }

  function Cycle(n: Node): seq<Role> {
    match TrailingRepeat(n)
    case None => []
    case Some(repeated) => Flatten(repeated)
  }

  lemma {:induction false} FlattenSplits(items: seq<Node>)
    requires items != []
    ensures FlattenAll(items) == FlattenAll(items[..|items| - 1]) + Flatten(items[|items| - 1])
    decreases |items|
  {
    hide Flatten;
    if |items| == 1 {
      assert items[..0] == [] && items[1..] == [];
    } else {
      FlattenSplits(items[1..]);
      assert items[..|items| - 1][1..] == items[1..][..|items| - 2];
      assert items[..|items| - 1][0] == items[0];
    }
  }

  lemma {:induction false} SpineOfTailed(n: Node)
    requires IsTailed(n)
    ensures Flatten(n) == Fixed(n) + Cycle(n)
    decreases n
  {
    hide FlattenAll;
    if n.Seq? && n.items != [] {
      var last := n.items[|n.items| - 1];
      LastIsTailed(n);
      SpineOfTailed(last);
      FlattenSplits(n.items);
      var front := FlattenAll(n.items[..|n.items| - 1]);
      assert front + (Fixed(last) + Cycle(last)) == front + Fixed(last) + Cycle(last);
    } else if n.Repeat? {
      assert [] + Flatten(n.inner) == Flatten(n.inner);
    } else {
      PlainDoesNotRepeat(n);
      assert Flatten(n) + [] == Flatten(n);
    }
  }

  lemma {:induction false} LastIsTailed(n: Node)
    requires IsTailed(n) && n.Seq? && n.items != []
    ensures AllPlain(n.items[..|n.items| - 1]) && IsTailed(n.items[|n.items| - 1])
  {
  }

  lemma {:induction false} RepeatsPlain(n: Node)
    requires IsTailed(n) && n.Repeat?
    ensures IsPlain(n.inner)
  {
  }

  /** Walking a tailed grammar takes its fixed roles, then its cycle for as long as there are arguments. */
  lemma {:induction false} TailedWalks(n: Node, args: seq<Bytes>, w: Walk)
    requires IsTailed(n) && |w.out| <= |args| && w.numKeys.Unseen?
    ensures var fixed := Taken(Fixed(n), args, w);
            && |fixed.out| <= |args|
            && WalkNode(n, args, w)
               == if Cycle(n) == [] then fixed
                  else fixed.(out := fixed.out + Cycled(Cycle(n), |args| - |fixed.out|))
    decreases n
  {
    hide Flatten, FlattenAll, IsPlain, SingleRole, WalkRepeat, MayStart, Fixed, Cycle;
    FixedAndCycle(n);
    if n.Seq? && n.items != [] {
      var last, front := n.items[|n.items| - 1], n.items[..|n.items| - 1];
      LastIsTailed(n);
      PlainSeqWalks(front, args, w);
      var before := WalkSeq(front, args, w);
      TailedWalks(last, args, before);
      TakenTwice(FlattenAll(front), Fixed(last), args, w);
      SeqSplits(n.items, args, w);
      if |w.out| == |args| {
        NothingLeft(Fixed(n), args, w);
        if Cycle(n) != [] {
          assert w.out + Cycled(Cycle(n), 0) == w.out;
        }
      }
    } else if n.Repeat? {
      RepeatsPlain(n);
      NothingLeft([], args, w);
      assert Taken([], args, w) == w by { assert w.out + [] == w.out; }
      RepeatWalks(n.inner, args, w);
      if |w.out| == |args| && Cycle(n) != [] {
        assert w.out + Cycled(Cycle(n), 0) == w.out;
      }
    } else {
      PlainDoesNotRepeat(n);
      PlainWalks(n, args, w);
    }
  }

  lemma {:induction false} FixedAndCycle(n: Node)
    ensures n.Seq? && n.items != [] ==>
      var last := n.items[|n.items| - 1];
      Fixed(n) == FlattenAll(n.items[..|n.items| - 1]) + Fixed(last) && Cycle(n) == Cycle(last)
    ensures n.Repeat? ==> Fixed(n) == [] && Cycle(n) == Flatten(n.inner)
    ensures !n.Repeat? && !(n.Seq? && n.items != []) ==> Fixed(n) == Flatten(n) && Cycle(n) == []
  {
  }

  lemma {:induction false} NothingLeft(flat: seq<Role>, args: seq<Bytes>, w: Walk)
    requires |w.out| <= |args|
    ensures |w.out| == |args| ==> Taken(flat, args, w) == w
    ensures |Taken(flat, args, w).out| <= |args|
  {
    if |w.out| == |args| {
      assert w.out + flat[..0] == w.out;
    }
  }

  lemma {:induction false} SeqSplits(items: seq<Node>, args: seq<Bytes>, w: Walk)
    requires items != [] && |w.out| <= |args|
    ensures WalkSeq(items, args, w)
         == WalkNode(items[|items| - 1], args, WalkSeq(items[..|items| - 1], args, w))
    decreases |items|
  {
    hide WalkNode;
    if |items| == 1 {
      assert items[..0] == [] && items[1..] == [];
    } else {
      var front := items[..|items| - 1];
      SeqSplits(items[1..], args, WalkNode(items[0], args, w));
      assert front[1..] == items[1..][..|items| - 2] && front[0] == items[0];
    }
  }

  /**
    On every grammar of plain arguments with at most one trailing repeat, whatever was typed, the walker
    and the positional table agree, a position the table does not know being a value.
   */
  lemma {:induction false} WalkAgreesWithTable(n: Node, args: seq<Bytes>, k: nat)
    requires IsTailed(n) && k < |args|
    ensures ResolveRoles(n, args)[k] == match RoleAt(n, k) case Some(role) => role case None => Value
  {
    hide WalkNode, Flatten, Fixed, TrailingRepeat;
    TailedWalks(n, args, Walk([], Unseen));
    SpineOfTailed(n);
    var fixed, cycle := Fixed(n), Cycle(n);
    if k >= |fixed| && cycle != [] {
      SmallModulo(k - |fixed|, |cycle|);
    }
  }

  // ---------------------------------------------------------------- EVAL

  /** `EVAL script numkeys [key ...] [arg ...]`, as the catalog compiles it. */
  const EVAL := Seq([Arg(Value), Arg(NumKeysRole), Optional(Repeat(Arg(Key))), Optional(Repeat(Arg(Value)))])

  lemma {:induction false} EvalKeys(args: seq<Bytes>, w: Walk)
    requires |w.out| <= |args| && !w.numKeys.Unseen?
    ensures WalkNode(Optional(Repeat(Arg(Key))), args, w) == if |w.out| == |args| then w else TakeKeys(args, w)
  {
  }

  lemma {:induction false} EvalRest(args: seq<Bytes>, w: Walk)
    requires |w.out| <= |args|
    ensures WalkNode(Optional(Repeat(Arg(Value))), args, w) == w.(out := w.out + Copies(Value, |args| - |w.out|))
  {
    hide WalkRepeat;
    if |w.out| == |args| {
      assert w.out + Copies(Value, 0) == w.out;
    } else {
      RepeatWalks(Arg(Value), args, w);
      assert Cycled([Value], |args| - |w.out|) == Copies(Value, |args| - |w.out|);
    }
  }

  lemma {:induction false} WalkFour(a: Node, b: Node, c: Node, d: Node, args: seq<Bytes>, w: Walk)
    requires |w.out| < |args|
    ensures WalkNode(Seq([a, b, c, d]), args, w)
         == WalkNode(d, args, WalkNode(c, args, WalkNode(b, args, WalkNode(a, args, w))))
  {
    var items := [a, b, c, d];
    assert items[1..] == [b, c, d] && items[1..][1..] == [c, d] && [c, d][1..] == [d] && [d][1..] == [];
    WalkTwo(c, d, args, WalkNode(b, args, WalkNode(a, args, w)));
    hide WalkNode;
    assert WalkSeq([b, c, d], args, WalkNode(a, args, w))
        == WalkSeq([c, d], args, WalkNode(b, args, WalkNode(a, args, w)));
  }

  lemma {:induction false} WalkTwo(c: Node, d: Node, args: seq<Bytes>, w: Walk)
    requires |w.out| <= |args|
    ensures WalkSeq([c, d], args, w) == WalkNode(d, args, WalkNode(c, args, w))
  {
    hide WalkNode;
    assert [c, d][1..] == [d] && [d][1..] == [];
    assert WalkSeq([], args, WalkNode(d, args, WalkNode(c, args, w))) == WalkNode(d, args, WalkNode(c, args, w));
  }

  lemma {:induction false} EvalHead(args: seq<Bytes>)
    requires args != []
    ensures var w := WalkNode(Arg(NumKeysRole), args, WalkNode(Arg(Value), args, Walk([], Unseen)));
            w == if |args| == 1 then Walk([Value], Unseen) else Walk([Value, NumKeysRole], CountKeys(args[1]))
  {
    hide CountKeys;
  }

  /** The count that the line announces. */
  function Announced(args: seq<Bytes>): Option<U64> {
    if |args| > 1 then ParseCount(args[1]) else None
  }

  /** The keys of a line: as many arguments behind the count as it announces, and none if it is no number. */
  predicate IsEvalKey(args: seq<Bytes>, k: nat) {
    k >= 2 && Announced(args).Some? && k < 2 + Announced(args).value
  }

  lemma {:induction false} EvalWalks(args: seq<Bytes>, k: nat)
    requires k < |args|
    ensures ResolveRoles(EVAL, args)[k] == if k == 1 then NumKeysRole else if IsEvalKey(args, k) then Key else Value
  {
    hide ParseCount, WalkNode;
    WalkFour(Arg(Value), Arg(NumKeysRole), Optional(Repeat(Arg(Key))), Optional(Repeat(Arg(Value))), args, Walk([], Unseen));
    EvalHead(args);
    if |args| == 1 {
      NothingToWalk(Optional(Repeat(Arg(Key))), args, Walk([Value], Unseen));
      NothingToWalk(Optional(Repeat(Arg(Value))), args, Walk([Value], Unseen));
    } else {
      var w := Walk([Value, NumKeysRole], CountKeys(args[1]));
      EvalKeys(args, w);
      EvalRest(args, WalkNode(Optional(Repeat(Arg(Key))), args, w));
    }
  }

  /** The walker's role and that of the `numkeys` rule. */
  predicate SameEvalRole(args: seq<Bytes>, k: nat)
    requires k < |args|
  {
    ResolveRoles(EVAL, args)[k] == EvalRoleAt(k, Announced(args))
  }

  /** The sum of the `numkeys` rule does not fit. */
  predicate RuleOverflows(args: seq<Bytes>) {
    Announced(args).Some? && Announced(args).value + 2 >= U64_LIMIT
  }

  /** At one position: they differ exactly where an overflowing rule denies a key. */
  lemma {:induction false} EvalAgreesAt(args: seq<Bytes>, k: nat)
    requires k < |args|
    ensures SameEvalRole(args, k) <==> !(RuleOverflows(args) && IsEvalKey(args, k))
  {
    hide ResolveRoles, ParseCount;
    EvalWalks(args, k);
    if Announced(args).Some? {
      WrappedSum(Announced(args).value);
    }
  }

  lemma {:induction false} WrappedSum(n: U64)
    ensures (2 + n) % U64_LIMIT == if n + 2 < U64_LIMIT then n + 2 else n + 2 - U64_LIMIT
  {
  }

  /**
    On a whole line the walker on the EVAL grammar and the `numkeys` rule agree exactly when nothing follows
    the count, it is no number, or two more than it still fits in 64 bits.
   */
  lemma {:induction false} EvalAgrees(args: seq<Bytes>)
    ensures (forall k :: 0 <= k < |args| ==> SameEvalRole(args, k))
       <==> |args| <= 2 || Announced(args).None? || Announced(args).value + 2 < U64_LIMIT
  {
    hide SameEvalRole, ParseCount;
    forall k | 0 <= k < |args| ensures SameEvalRole(args, k) <==> !(RuleOverflows(args) && IsEvalKey(args, k)) {
      EvalAgreesAt(args, k);
    }
    if |args| > 2 && RuleOverflows(args) {
      assert !SameEvalRole(args, 2);
    }
  }

  /** `EVAL s 18446744073709551615 a`: the walker takes `a` for a key, and the rule for a value. */
  lemma {:induction false} EvalRuleOverflows(script: Bytes, key: Bytes)
    ensures var args := [script, Numeral(U64_LIMIT - 1), key];
            ResolveRoles(EVAL, args)[2] == Key && EvalRoleAt(2, Announced(args)) == Value
  {
    hide ResolveRoles, Numeral, ParseU64, TrimStart, TrimEnd;
    var args := [script, Numeral(U64_LIMIT - 1), key];
    NumeralParses(U64_LIMIT - 1);
    NumeralIsDigits(U64_LIMIT - 1);
    assert Announced(args) == Some(U64_LIMIT - 1);
    EvalWalks(args, 2);
  }

  lemma {:induction false} NothingToWalk(n: Node, args: seq<Bytes>, w: Walk)
    requires |w.out| == |args|
    ensures WalkNode(n, args, w) == w
  {
  }
}
