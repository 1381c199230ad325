/** Commands with optional keywords and halved rests: which argument gets which role, said of what was typed. */
module GrammarOptions {
  import opened Prelude
  import opened Grammar
  import opened GrammarLaws

  // ---------------------------------------------------------------- words

  /** The same letter, in either case. */
  predicate SameLetter(a: Byte, b: Byte) {
    || a == b
    || ('A' as int <= a <= 'Z' as int && b == a as int + 32)
    || ('a' as int <= a <= 'z' as int && b == a as int - 32)
  }

  predicate Types(arg: Bytes, word: Bytes) {
    |arg| == |word| && forall k :: 0 <= k < |arg| ==> SameLetter(arg[k], word[k])
  }

  lemma {:induction false} LetterIff(a: Byte, b: Byte)
    ensures SameLetter(a, b) <==> Lower(a) == Lower(b)
  {
  }

  lemma {:induction false} TypesIff(arg: Bytes, word: Bytes)
    ensures Types(arg, word) <==> SameWord(arg, word)
  {
    hide SameLetter, Lower;
    if |arg| == |word| {
      forall k | 0 <= k < |arg| ensures SameLetter(arg[k], word[k]) <==> Lower(arg[k]) == Lower(word[k]) {
        LetterIff(arg[k], word[k]);
      }
    }
  }

  // ---------------------------------------------------------------- groups of options

  /** A keyword and the roles of the arguments that follow it. */
  datatype Alt = Alt(word: Bytes, roles: seq<Role>)

  /** What was typed of a group: nothing, or alternative `k` with its arguments. */
  datatype Typed = Absent | Chose(k: nat, word: Bytes, args: seq<Bytes>)

  function ArgNodes(roles: seq<Role>): seq<Node> {
    if roles == [] then [] else [Arg(roles[0])] + ArgNodes(roles[1..])
  }

  function AltNode(a: Alt): Node {
    if a.roles == [] then Token(a.word, Keyword) else Seq([Token(a.word, Keyword)] + ArgNodes(a.roles))
  }

  function AltNodes(alts: seq<Alt>): (r: seq<Node>)
    ensures |r| == |alts| && forall k :: 0 <= k < |alts| ==> r[k] == AltNode(alts[k])
  {
    if alts == [] then [] else [AltNode(alts[0])] + AltNodes(alts[1..])
  }

  /** At most one of the alternatives. */
  function GroupNode(alts: seq<Alt>): Node {
    Optional(Choice(AltNodes(alts)))
  }

  function GroupNodes(groups: seq<seq<Alt>>): seq<Node> {
    if groups == [] then [] else [GroupNode(groups[0])] + GroupNodes(groups[1..])
  }

  function TypedArgs(typed: seq<Typed>): seq<Bytes> {
    if typed == [] then []
    else (if typed[0].Absent? then [] else [typed[0].word] + typed[0].args) + TypedArgs(typed[1..])
  }

  function TypedRoles(groups: seq<seq<Alt>>, typed: seq<Typed>): seq<Role>
    requires |groups| == |typed| && forall g :: 0 <= g < |typed| && typed[g].Chose? ==> typed[g].k < |groups[g]|
  {
    if typed == [] then []
    else (if typed[0].Absent? then [] else [Keyword] + groups[0][typed[0].k].roles) + TypedRoles(groups[1..], typed[1..])
  }

  predicate NoCount(roles: seq<Role>) {
    forall k :: 0 <= k < |roles| ==> !roles[k].NumKeysRole?
  }

  predicate TypesSome(arg: Bytes, alts: seq<Alt>) {
    exists k :: 0 <= k < |alts| && Types(arg, alts[k].word)
  }

  /** A chosen group begins with the first alternative of this word; an absent one is not begun by what comes next. */
  predicate Plausible(alts: seq<Alt>, t: Typed, behind: seq<Bytes>) {
    match t
    case Absent => behind == [] || !TypesSome(behind[0], alts)
    case Chose(k, word, args) =>
      && k < |alts| && Types(word, alts[k].word) && (forall m :: 0 <= m < k ==> !Types(word, alts[m].word))
      && |args| == |alts[k].roles| && NoCount(alts[k].roles)
  }

  /** The groups in order, with `rest` behind them all. */
  predicate AllPlausible(groups: seq<seq<Alt>>, typed: seq<Typed>, rest: seq<Bytes>)
    decreases |groups|
  {
    |groups| == |typed| &&
    (groups == [] ||
     (Plausible(groups[0], typed[0], TypedArgs(typed[1..]) + rest) && AllPlausible(groups[1..], typed[1..], rest)))
  }

  lemma {:induction false} ChosenInRange(groups: seq<seq<Alt>>, typed: seq<Typed>, rest: seq<Bytes>)
    requires AllPlausible(groups, typed, rest)
    ensures |groups| == |typed| && forall g :: 0 <= g < |typed| && typed[g].Chose? ==> typed[g].k < |groups[g]|
    decreases |groups|
  {
    hide Types, TypesSome, NoCount;
    if groups != [] {
      ChosenInRange(groups[1..], typed[1..], rest);
      forall g | 0 <= g < |typed| && typed[g].Chose? ensures typed[g].k < |groups[g]| {
        if g > 0 {
          assert typed[g] == typed[1..][g - 1] && groups[g] == groups[1..][g - 1];
        }
      }
    }
  }

  // ---------------------------------------------------------------- walking one group

  lemma {:induction false} AltLeads(a: Alt)
    ensures LeadingTokens(AltNode(a)) == Some([a.word])
  {
    if a.roles != [] {
      assert LeadingTokens(Token(a.word, Keyword)) == Some([a.word]);
    }
  }

  lemma {:induction false} AltStarts(a: Alt, arg: Bytes)
    ensures StartsWithToken(AltNode(a), arg) <==> Types(arg, a.word)
  {
    hide Types, SameWord, AltNode;
    AltLeads(a);
    TypesIff(arg, a.word);
    if Types(arg, a.word) {
      assert SameWord(arg, [a.word][0]);
    }
  }

  lemma {:induction false} GroupLeads(alts: seq<Alt>)
    ensures LeadingOfAll(AltNodes(alts)).Some? && |LeadingOfAll(AltNodes(alts)).value| == |alts|
    ensures forall k :: 0 <= k < |alts| ==> LeadingOfAll(AltNodes(alts)).value[k] == alts[k].word
    decreases |alts|
  {
    hide AltNode, LeadingTokens;
    if alts != [] {
      AltLeads(alts[0]);
      GroupLeads(alts[1..]);
      assert AltNodes(alts)[1..] == AltNodes(alts[1..]);
    }
  }

  lemma {:induction false} GroupStarts(alts: seq<Alt>, arg: Bytes)
    ensures MayStart(Choice(AltNodes(alts)), arg) <==> TypesSome(arg, alts)
  {
    hide Types, SameWord, AltNodes;
    GroupLeads(alts);
    var tokens := LeadingOfAll(AltNodes(alts)).value;
    assert LeadingTokens(Choice(AltNodes(alts))) == Some(tokens);
    forall k | 0 <= k < |alts| ensures Types(arg, alts[k].word) <==> SameWord(arg, tokens[k]) {
      TypesIff(arg, alts[k].word);
    }
    if TypesSome(arg, alts) {
      var k :| 0 <= k < |alts| && Types(arg, alts[k].word);
      assert SameWord(arg, tokens[k]);
    }
    if AnyMatches(tokens, arg) {
      var k :| 0 <= k < |tokens| && SameWord(arg, tokens[k]);
      assert Types(arg, alts[k].word);
    }
  }

  lemma {:induction false} FirstIs(alts: seq<Alt>, arg: Bytes, k: nat)
    requires k < |alts| && Types(arg, alts[k].word) && forall m :: 0 <= m < k ==> !Types(arg, alts[m].word)
    ensures FirstStarting(AltNodes(alts), arg) == k
    decreases k
  {
    hide Types, AltNode, StartsWithToken;
    AltStarts(alts[0], arg);
    assert AltNodes(alts)[1..] == AltNodes(alts[1..]);
    if k > 0 {
      forall m | 0 <= m < k - 1 ensures !Types(arg, alts[1..][m].word) {
        assert alts[1..][m] == alts[m + 1];
      }
      FirstIs(alts[1..], arg, k - 1);
    }
  }

  lemma {:induction false} ArgNodesArePlain(roles: seq<Role>)
    requires NoCount(roles)
    ensures AllPlain(ArgNodes(roles)) && FlattenAll(ArgNodes(roles)) == roles
    decreases |roles|
  {
    if roles != [] {
      ArgNodesArePlain(roles[1..]);
      assert ArgNodes(roles)[1..] == ArgNodes(roles[1..]);
    }
  }

  /** An alternative whose word and arguments are there takes them. */
  lemma {:induction false} AltWalks(a: Alt, args: seq<Bytes>, w: Walk)
    requires NoCount(a.roles) && |w.out| + 1 + |a.roles| <= |args| && Types(args[|w.out|], a.word)
    ensures WalkNode(AltNode(a), args, w) == w.(out := w.out + ([Keyword] + a.roles))
  {
    hide Types, SameWord, FlattenAll;
    TypesIff(args[|w.out|], a.word);
    var taken := w.(out := w.out + [Keyword]);
    assert WalkNode(Token(a.word, Keyword), args, w) == taken;
    if a.roles == [] {
      assert [Keyword] + a.roles == [Keyword];
    } else {
      var nodes := [Token(a.word, Keyword)] + ArgNodes(a.roles);
      assert nodes[1..] == ArgNodes(a.roles);
      ArgNodesArePlain(a.roles);
      PlainSeqWalks(ArgNodes(a.roles), args, taken);
      assert a.roles[..|a.roles|] == a.roles;
      assert taken.out + a.roles == w.out + ([Keyword] + a.roles);
    }
  }

  lemma {:induction false} GroupWalks(alts: seq<Alt>, t: Typed, args: seq<Bytes>, w: Walk, behind: seq<Bytes>)
    requires |w.out| <= |args| && Plausible(alts, t, behind)
    requires args[|w.out|..] == (if t.Absent? then [] else [t.word] + t.args) + behind
    ensures WalkNode(GroupNode(alts), args, w)
         == w.(out := w.out + if t.Absent? then [] else [Keyword] + alts[t.k].roles)
  {
    hide Types, SameWord, AltNodes, AltNode, MayStart, StartsWithToken, FirstPlain;
    assert w.out + [] == w.out;
    if |w.out| < |args| {
      var arg := args[|w.out|];
      assert arg == args[|w.out|..][0];
      GroupStarts(alts, arg);
      if t.Chose? {
        assert TypesSome(arg, alts);
        FirstIs(alts, arg, t.k);
        AltWalks(alts[t.k], args, w);
      }
    } else {
      assert args[|w.out|..] == [];
    }
  }

  function Own(t: Typed): seq<Bytes> {
    if t.Absent? then [] else [t.word] + t.args
  }

  function OwnRoles(alts: seq<Alt>, t: Typed): seq<Role>
    requires t.Chose? ==> t.k < |alts|
  {
    if t.Absent? then [] else [Keyword] + alts[t.k].roles
  }

  lemma {:induction false} TypedMore(groups: seq<seq<Alt>>, typed: seq<Typed>, rest: seq<Bytes>)
    requires groups != [] && AllPlausible(groups, typed, rest)
    ensures typed != [] && AllPlausible(groups[1..], typed[1..], rest)
    ensures Plausible(groups[0], typed[0], TypedArgs(typed[1..]) + rest) && |Own(typed[0])| == |OwnRoles(groups[0], typed[0])|
    ensures TypedArgs(typed) == Own(typed[0]) + TypedArgs(typed[1..])
    ensures |groups| == |typed| && forall g :: 0 <= g < |typed| && typed[g].Chose? ==> typed[g].k < |groups[g]|
    ensures forall g :: 0 <= g < |typed[1..]| && typed[1..][g].Chose? ==> typed[1..][g].k < |groups[1..][g]|
    ensures TypedRoles(groups, typed) == OwnRoles(groups[0], typed[0]) + TypedRoles(groups[1..], typed[1..])
    ensures GroupNodes(groups) == [GroupNode(groups[0])] + GroupNodes(groups[1..])
  {
    hide Types, TypesSome, NoCount, GroupNode;
    ChosenInRange(groups, typed, rest);
    ChosenInRange(groups[1..], typed[1..], rest);
  }

  lemma {:induction false} WalkOneMore(n: Node, more: seq<Node>, args: seq<Bytes>, w: Walk)
    requires |w.out| <= |args|
    ensures WalkSeq([n] + more, args, w) == WalkSeq(more, args, WalkNode(n, args, w))
  {
    hide WalkNode;
    assert ([n] + more)[1..] == more;
  }

  /** The groups, one after the other. */
  lemma {:induction false} GroupsWalk(groups: seq<seq<Alt>>, typed: seq<Typed>, args: seq<Bytes>, w: Walk, rest: seq<Bytes>)
    requires |w.out| <= |args| && AllPlausible(groups, typed, rest) && args[|w.out|..] == TypedArgs(typed) + rest
    ensures |groups| == |typed| && forall g :: 0 <= g < |typed| && typed[g].Chose? ==> typed[g].k < |groups[g]|
    ensures WalkSeq(GroupNodes(groups), args, w) == w.(out := w.out + TypedRoles(groups, typed))
    ensures |TypedRoles(groups, typed)| == |TypedArgs(typed)|
    decreases |groups|
  {
    hide WalkNode, WalkSeq, GroupNodes, GroupNode, Plausible, AllPlausible, TypedArgs, TypedRoles, Own, OwnRoles;
    if groups == [] {
      NoGroups(groups, typed, args, w, rest);
    } else {
      TypedMore(groups, typed, rest);
      var own, behind := Own(typed[0]), TypedArgs(typed[1..]) + rest;
      var roles := OwnRoles(groups[0], typed[0]);
      assert args[|w.out|..] == own + behind;
      OneGroupWalks(groups[0], typed[0], args, w, behind);
      var next := w.(out := w.out + roles);
      assert args[|next.out|..] == args[|w.out|..][|own|..] == behind;
      GroupsWalk(groups[1..], typed[1..], args, next, rest);
      WalkOneMore(GroupNode(groups[0]), GroupNodes(groups[1..]), args, w);
      assert next.out + TypedRoles(groups[1..], typed[1..]) == w.out + (roles + TypedRoles(groups[1..], typed[1..]));
    }
  }

  lemma {:induction false} OneGroupWalks(alts: seq<Alt>, t: Typed, args: seq<Bytes>, w: Walk, behind: seq<Bytes>)
    requires |w.out| <= |args| && Plausible(alts, t, behind) && args[|w.out|..] == Own(t) + behind && (t.Chose? ==> t.k < |alts|)
    ensures WalkNode(GroupNode(alts), args, w) == w.(out := w.out + OwnRoles(alts, t))
  {
    hide WalkNode, GroupNode, Types, TypesSome, NoCount;
    GroupWalks(alts, t, args, w, behind);
  }

  lemma {:induction false} NoGroups(groups: seq<seq<Alt>>, typed: seq<Typed>, args: seq<Bytes>, w: Walk, rest: seq<Bytes>)
    requires groups == [] && |w.out| <= |args| && AllPlausible(groups, typed, rest)
    ensures typed == [] && WalkSeq(GroupNodes(groups), args, w) == w.(out := w.out + TypedRoles(groups, typed))
    ensures TypedRoles(groups, typed) == [] && TypedArgs(typed) == []
  {
    hide WalkNode;
    assert w.out + [] == w.out;
  }

  // ---------------------------------------------------------------- whole commands

  lemma {:induction false} SeqAppend(a: seq<Node>, b: seq<Node>, args: seq<Bytes>, w: Walk)
    requires |w.out| <= |args|
    ensures WalkSeq(a + b, args, w) == WalkSeq(b, args, WalkSeq(a, args, w))
    decreases |a|
  {
    hide WalkNode;
    if a == [] {
      assert a + b == b;
    } else {
      assert (a + b)[1..] == a[1..] + b && (a + b)[0] == a[0];
      SeqAppend(a[1..], b, args, WalkNode(a[0], args, w));
    }
  }

  /** Fixed arguments, optional keywords, and then `last`. */
  function Command(front: seq<Role>, groups: seq<seq<Alt>>, last: Node): Node {
    Seq(ArgNodes(front) + (GroupNodes(groups) + [last]))
  }

  lemma {:induction false} CommandWalks(
      front: seq<Role>, groups: seq<seq<Alt>>, last: Node, given: seq<Bytes>, typed: seq<Typed>, rest: seq<Bytes>)
    requires NoCount(front) && |given| == |front| && AllPlausible(groups, typed, rest)
    ensures |groups| == |typed| && forall g :: 0 <= g < |typed| && typed[g].Chose? ==> typed[g].k < |groups[g]|
    ensures var args := given + (TypedArgs(typed) + rest); var before := front + TypedRoles(groups, typed);
            && |before| == |given| + |TypedArgs(typed)|
            && (args != [] ==> WalkNode(Command(front, groups, last), args, Walk([], Unseen)) == WalkNode(last, args, Walk(before, Unseen)))
  {
    hide WalkNode, Taken, GroupNodes, FlattenAll, AllPlain, NoCount, Types, TypesSome;
    var args := given + (TypedArgs(typed) + rest);
    var w := Walk([], Unseen);
    ArgNodesArePlain(front);
    PlainSeqWalks(ArgNodes(front), args, w);
    FrontTaken(front, args);
    var next := Walk(front, Unseen);
    assert args[|front|..] == TypedArgs(typed) + rest;
    GroupsWalk(groups, typed, args, next, rest);
    SeqAppend(ArgNodes(front), GroupNodes(groups) + [last], args, w);
    SeqAppend(GroupNodes(groups), [last], args, next);
    OneNode(last, args, Walk(front + TypedRoles(groups, typed), Unseen));
    if args != [] {
      SeqIs(ArgNodes(front) + (GroupNodes(groups) + [last]), args, w);
    }
  }

  lemma {:induction false} FrontTaken(front: seq<Role>, args: seq<Bytes>)
    requires |front| <= |args|
    ensures Taken(front, args, Walk([], Unseen)) == Walk(front, Unseen)
  {
    assert front[..|front|] == front && [] + front == front;
  }

  lemma {:induction false} OneNode(n: Node, args: seq<Bytes>, w: Walk)
    requires |w.out| <= |args|
    ensures WalkSeq([n], args, w) == WalkNode(n, args, w)
  {
    hide WalkNode;
    assert [n][1..] == [];
  }

  lemma {:induction false} SeqIs(items: seq<Node>, args: seq<Bytes>, w: Walk)
    requires |w.out| < |args|
    ensures WalkNode(Seq(items), args, w) == WalkSeq(items, args, w)
  {
    hide WalkSeq;
  }

  /**
    Optional keywords are recognised where the grammar has them: whatever the fixed arguments say, each keyword
    that was typed is one, its arguments have its roles, and what stands behind them all is told by the last node.
   */
  lemma {:induction false} OptionsAreRecognised(
      front: seq<Role>, groups: seq<seq<Alt>>, last: Node, given: seq<Bytes>, typed: seq<Typed>, rest: seq<Bytes>)
    requires NoCount(front) && |given| == |front| && AllPlausible(groups, typed, rest) && IsTailed(last)
    ensures |groups| == |typed| && forall g :: 0 <= g < |typed| && typed[g].Chose? ==> typed[g].k < |groups[g]|
    ensures var roles := ResolveRoles(Command(front, groups, last), given + (TypedArgs(typed) + rest));
            var before := front + TypedRoles(groups, typed);
            && |roles| == |before| + |rest| && roles[..|before|] == before
            && forall k :: 0 <= k < |rest| ==>
                 roles[|before| + k] == match RoleAt(last, k) case Some(role) => role case None => Value
  {
    hide WalkNode, Command, TypedArgs, TypedRoles, AllPlausible, NoCount, RoleAt;
    var args := given + (TypedArgs(typed) + rest);
    CommandWalks(front, groups, last, given, typed, rest);
    var before := front + TypedRoles(groups, typed);
    if args == [] {
      NothingToWalk(Command(front, groups, last), args, Walk([], Unseen));
    } else {
      forall k | 0 <= k < |rest|
        ensures ResolveRoles(Command(front, groups, last), args)[|before| + k]
             == match RoleAt(last, k) case Some(role) => role case None => Value
      {
        TailRoleAt(last, args, before, k);
      }
    }
  }

  /** The last node's part of the answer. */
  lemma {:induction false} TailRoleAt(n: Node, args: seq<Bytes>, before: seq<Role>, k: nat)
    requires IsTailed(n) && |before| + k < |args|
    ensures var out := WalkNode(n, args, Walk(before, Unseen)).out;
            && |out| <= |args| && before <= out
            && (if |before| + k < |out| then out[|before| + k] else Value)
               == match RoleAt(n, k) case Some(role) => role case None => Value
  {
    hide WalkNode, Flatten, Fixed, TrailingRepeat;
    TailedWalks(n, args, Walk(before, Unseen));
    SpineOfTailed(n);
    var fixed, cycle := Fixed(n), Cycle(n);
    if k >= |fixed| && cycle != [] {
      SmallModulo(k - |fixed|, |cycle|);
    }
  }

  /** The rest in halves: an argument is in the first half when what precedes it is less than half of the rest. */
  lemma {:induction false} HalvesAreTold(
      front: seq<Role>, groups: seq<seq<Alt>>, first: Role, second: Role, given: seq<Bytes>, typed: seq<Typed>, rest: seq<Bytes>)
    requires NoCount(front) && |given| == |front| && AllPlausible(groups, typed, rest)
    ensures |groups| == |typed| && forall g :: 0 <= g < |typed| && typed[g].Chose? ==> typed[g].k < |groups[g]|
    ensures var roles := ResolveRoles(Command(front, groups, Paired(first, second)), given + (TypedArgs(typed) + rest));
            var before := front + TypedRoles(groups, typed);
            && |roles| == |before| + |rest| && roles[..|before|] == before
            && forall k :: 0 <= k < |rest| ==> roles[|before| + k] == if 2 * k < |rest| then first else second
  {
    hide Command, TypedArgs, TypedRoles, AllPlausible, NoCount;
    var args := given + (TypedArgs(typed) + rest);
    CommandWalks(front, groups, Paired(first, second), given, typed, rest);
    if args == [] {
      NothingToWalk(Command(front, groups, Paired(first, second)), args, Walk([], Unseen));
    }
  }
}
