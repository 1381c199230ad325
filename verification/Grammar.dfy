/** Command grammars of the catalog: what each argument means, by position and by walking what was typed. */
module Grammar {
  import opened Prelude
  import opened Utf8
  import opened VersionedText

  datatype Role =
    | Subcommand | Key | Field | Member | Score | Value | Cursor | Group | Channel
    | Consumer | EntryId | NumKeysRole | Keyword | Integer | Pattern

  datatype Node =
    | Token(text: Bytes, role: Role)
    | Arg(role: Role)
    | Optional(inner: Node)
    | Choice(alts: seq<Node>)
    | Seq(items: seq<Node>)
    | Repeat(inner: Node)
    | Paired(first: Role, second: Role)

  // ---------------------------------------------------------------- the positional table

  /** The mandatory spine. */
  function Flatten(n: Node): seq<Role>
    decreases n, 0
  {
    match n
    case Token(_, role) => [role]
    case Arg(role) => [role]
    case Optional(_) => []
    case Choice(_) => []
    case Seq(items) => FlattenAll(items)
    case Repeat(inner) => Flatten(inner)
    case Paired(first, second) => [first, second]
  }

  function FlattenAll(items: seq<Node>): seq<Role>
    decreases items, 1
  {
    if items == [] then [] else Flatten(items[0]) + FlattenAll(items[1..])
  }

  function TrailingRepeat(n: Node): Option<Node> {
    match n
    case Repeat(inner) => Some(inner)
    case Seq(items) => if items == [] then None else TrailingRepeat(items[|items| - 1])
    case _ => None
  }

  /** `Node::role_at`: past the fixed part a trailing repeat cycles. */
  function RoleAt(n: Node, index: nat): Option<Role> {
    var flat := Flatten(n);
    if index < |flat| then Some(flat[index])
    else
      match TrailingRepeat(n)
      case None => None
      case Some(repeated) =>
        var cycle := Flatten(repeated);
        if cycle == [] then None
        else
          var fixed := if |flat| >= |cycle| then |flat| - |cycle| else 0;
          Some(cycle[(index - fixed) % |cycle|])
  }

  /** `eval_role_at`, with the sum of a release build, which wraps; a debug build panics where it does. */
  function EvalRoleAt(index: nat, numKeys: Option<U64>): Role {
    if index == 0 then Value
    else if index == 1 then NumKeysRole
    else
      match numKeys
      case None => Value
      case Some(n) => if index < (2 + n) % U64_LIMIT then Key else Value
  }

  // ---------------------------------------------------------------- leading tokens

  function Lower(c: Byte): int {
    if 0x41 <= c <= 0x5A then c + 32 else c
  }

  /** `eq_ignore_ascii_case`. */
  predicate SameWord(a: Bytes, b: Bytes) {
    |a| == |b| && forall k :: 0 <= k < |a| ==> Lower(a[k]) == Lower(b[k])
  }

  /** The keywords that can introduce a node, or nothing when it starts with a plain argument. */
  function LeadingTokens(n: Node): Option<seq<Bytes>>
    decreases n, 0
  {
    match n
    case Token(text, _) => Some([text])
    case Arg(_) => None
    case Paired(_, _) => None
    case Optional(inner) => LeadingTokens(inner)
    case Repeat(inner) => LeadingTokens(inner)
    case Seq(items) => if items == [] then None else LeadingTokens(items[0])
    case Choice(alts) => LeadingOfAll(alts)
  }

  function LeadingOfAll(alts: seq<Node>): Option<seq<Bytes>>
    decreases alts, 1
  {
    if alts == [] then Some([])
    else
      match (LeadingTokens(alts[0]), LeadingOfAll(alts[1..]))
      case (Some(a), Some(b)) => Some(a + b)
      case _ => None
  }

  predicate AnyMatches(tokens: seq<Bytes>, arg: Bytes) {
    exists k :: 0 <= k < |tokens| && SameWord(arg, tokens[k])
  }

  predicate StartsWithToken(n: Node, arg: Bytes) {
    LeadingTokens(n).Some? && AnyMatches(LeadingTokens(n).value, arg)
  }

  predicate MayStart(n: Node, arg: Bytes) {
    LeadingTokens(n).None? || StartsWithToken(n, arg)
  }

  /** If a node takes exactly one argument, its role. */
  function SingleRole(n: Node): Option<Role> {
    match n
    case Arg(role) => Some(role)
    case Seq(items) => if |items| == 1 then SingleRole(items[0]) else None
    case _ => None
  }

  function FirstStarting(alts: seq<Node>, arg: Bytes): (k: nat)
    ensures k <= |alts| && (k < |alts| ==> StartsWithToken(alts[k], arg))
  {
    if alts == [] then 0 else if StartsWithToken(alts[0], arg) then 0 else 1 + FirstStarting(alts[1..], arg)
  }

  function FirstPlain(alts: seq<Node>): (k: nat)
    ensures k <= |alts|
  {
    if alts == [] then 0 else if LeadingTokens(alts[0]).None? then 0 else 1 + FirstPlain(alts[1..])
  }

  /** A keyword-led alternative whose keyword is there wins, then an unconditional one. */
  function Chosen(alts: seq<Node>, arg: Bytes): (k: nat)
    ensures k <= |alts|
  {
    if FirstStarting(alts, arg) < |alts| then FirstStarting(alts, arg) else FirstPlain(alts)
  }

  // ---------------------------------------------------------------- walking

  datatype NumKeys = Unseen | Unparsed | Exactly(count: nat)

  /** The roles given so far, one for each argument passed, and what is known of a `numkeys`. */
  datatype Walk = Walk(out: seq<Role>, numKeys: NumKeys)

  /** `str::parse::<usize>` of an argument. */
  function ParseCount(arg: Bytes): Option<U64> {
    if exists k :: 0 <= k < |arg| && arg[k] >= 0x80 then None else ParseU64(AsText(arg))
  }

  function AsText(arg: Bytes): Text
    requires forall k :: 0 <= k < |arg| ==> arg[k] < 0x80
  {
    arg
  }

  function CountKeys(arg: Bytes): NumKeys {
    match ParseCount(arg)
    case None => Unparsed
    case Some(n) => Exactly(n)
  }

  function Copies(role: Role, n: nat): (s: seq<Role>)
    ensures |s| == n && forall k :: 0 <= k < n ==> s[k] == role
  {
    seq(n, k => role)
  }

  function Min(a: nat, b: nat): nat {
    if a < b then a else b
  }

  /** The rest in two halves, the odd argument going to the first. */
  function Halves(first: Role, second: Role, rest: nat): (s: seq<Role>)
    ensures |s| == rest
  {
    Copies(first, (rest + 1) / 2) + Copies(second, rest - (rest + 1) / 2)
  }

  function WalkNode(n: Node, args: seq<Bytes>, w: Walk): (r: Walk)
    requires |w.out| <= |args|
    ensures |r.out| <= |args| && w.out <= r.out
    decreases n, 0, 0
  {
    if |w.out| == |args| then w
    else
      var arg := args[|w.out|];
      match n
      case Token(text, role) => if SameWord(arg, text) then w.(out := w.out + [role]) else w
      case Arg(role) =>
        Walk(w.out + [role], if role.NumKeysRole? then CountKeys(arg) else w.numKeys)
      case Seq(items) => WalkSeq(items, args, w)
      case Optional(inner) => if MayStart(inner, arg) then WalkNode(inner, args, w) else w
      case Choice(alts) =>
        var k := Chosen(alts, arg);
        if k < |alts| then WalkNode(alts[k], args, w) else w
      case Repeat(inner) =>
        if !w.numKeys.Unseen? && SingleRole(inner) == Some(Key) then TakeKeys(args, w) else WalkRepeat(inner, args, w)
      case Paired(first, second) => w.(out := w.out + Halves(first, second, |args| - |w.out|))
  }

  /** Exactly as many keys as the `numkeys` argument says, and none if it is not a number. */
  function TakeKeys(args: seq<Bytes>, w: Walk): (r: Walk)
    requires |w.out| <= |args|
    ensures |r.out| <= |args| && w.out <= r.out
  {
    var n := if w.numKeys.Exactly? then w.numKeys.count else 0;
    Walk(w.out + Copies(Key, Min(n, |args| - |w.out|)), Unseen)
  }

  function WalkSeq(items: seq<Node>, args: seq<Bytes>, w: Walk): (r: Walk)
    requires |w.out| <= |args|
    ensures |r.out| <= |args| && w.out <= r.out
    decreases items, 2, 0
  {
    if items == [] then w else WalkSeq(items[1..], args, WalkNode(items[0], args, w))
  }

  function WalkRepeat(inner: Node, args: seq<Bytes>, w: Walk): (r: Walk)
    requires |w.out| <= |args|
    ensures |r.out| <= |args| && w.out <= r.out
    decreases inner, 1, |args| - |w.out|
  {
    if |w.out| == |args| || !MayStart(inner, args[|w.out|]) then w
    else
      var next := WalkNode(inner, args, w);
      if |next.out| == |w.out| then next else WalkRepeat(inner, args, next)
  }

  /** `resolve_roles`: one role for each argument; what the grammar does not cover is a value. */
  function ResolveRoles(grammar: Node, args: seq<Bytes>): (r: seq<Role>)
    ensures |r| == |args|
  {
    var w := WalkNode(grammar, args, Walk([], Unseen));
    w.out + Copies(Value, |args| - |w.out|)
  }

  class Walker {
    const args: seq<Bytes>
    var i: nat
    var out: seq<Role>
    var numKeys: NumKeys

    constructor (args: seq<Bytes>)
      ensures this.args == args && Valid() && State() == Walk([], Unseen)
    {
      this.args, i, out, numKeys := args, 0, [], Unseen;
    }

    predicate Valid()
      reads this
    {
      i == |out| <= |args|
    }

    function State(): Walk
      reads this
    {
      Walk(out, numKeys)
    }

    method Take(role: Role)
      requires Valid()
      modifies this`i, this`out
      ensures Valid() && out == if old(i) < |args| then old(out) + [role] else old(out)
    {
      if i < |args| {
        out := out + [role];
        i := i + 1;
      }
    }

    method Visit(n: Node)
      requires Valid()
      modifies this
      ensures Valid() && State() == WalkNode(n, args, old(State()))
      decreases n, 0, 0
    {
      hide SameWord, LeadingTokens, StartsWithToken, MayStart, CountKeys, FirstStarting, FirstPlain, Halves;
      if i >= |args| {
        return;
      }
      match n {
        case Token(text, role) =>
          if SameWord(args[i], text) {
            Take(role);
          }
        case Arg(role) =>
          if role.NumKeysRole? {
            numKeys := CountKeys(args[i]);
          }
          Take(role);
        case Seq(items) => VisitAll(items);
        case Optional(inner) =>
          if MayStart(inner, args[i]) {
            Visit(inner);
          }
        case Choice(alts) =>
          var k := Chosen(alts, args[i]);
          if k < |alts| {
            Visit(alts[k]);
          }
        case Repeat(inner) =>
          if !numKeys.Unseen? && SingleRole(inner) == Some(Key) {
            ghost var _ := VisitKeys();
          } else {
            VisitRepeat(inner);
          }
        case Paired(first, second) => VisitPaired(first, second);
      }
    }

    method VisitAll(items: seq<Node>)
      requires Valid()
      modifies this
      ensures Valid() && State() == WalkSeq(items, args, old(State()))
      decreases items, 2, 0
    {
      hide WalkNode;
      assert items[0..] == items;
      for k := 0 to |items|
        invariant Valid() && WalkSeq(items[k..], args, State()) == WalkSeq(items, args, old(State()))
      {
        assert items[k..][1..] == items[k + 1..];
        Visit(items[k]);
      }
    }

    method VisitPaired(first: Role, second: Role)
      requires Valid()
      modifies this
      ensures Valid() && State() == old(State()).(out := old(out) + Halves(first, second, |args| - old(i)))
    {
      var remaining := |args| - i;
      var firsts := (remaining + 1) / 2;
      ghost var halves := Halves(first, second, remaining);
      for n := 0 to remaining
        invariant Valid() && i == old(i) + n && numKeys == old(numKeys)
        invariant out == old(out) + halves[..n]
      {
        Take(if n < firsts then first else second);
        assert halves[..n + 1] == halves[..n] + [halves[n]];
      }
      assert halves[..remaining] == halves;
    }

    /** One round for each key that was announced, whether or not an argument is left for it. */
    method VisitKeys() returns (ghost rounds: nat)
      requires Valid()
      modifies this
      ensures Valid() && State() == TakeKeys(args, old(State()))
      ensures rounds == if old(numKeys).Exactly? then old(numKeys).count else 0
    {
      var n := if numKeys.Exactly? then numKeys.count else 0;
      numKeys := Unseen;
      rounds := 0;
      for k := 0 to n
        invariant Valid() && numKeys == Unseen && rounds == k
        invariant out == old(out) + Copies(Key, Min(k, |args| - old(i)))
      {
        Take(Key);
        rounds := rounds + 1;
      }
    }

    method VisitRepeat(inner: Node)
      requires Valid()
      modifies this
      ensures Valid() && State() == WalkRepeat(inner, args, old(State()))
      decreases inner, 1, |args| - i
    {
      hide WalkNode, MayStart;
      while i < |args|
        invariant Valid() && WalkRepeat(inner, args, State()) == WalkRepeat(inner, args, old(State()))
        decreases |args| - i
      {
        var before := i;
        if !MayStart(inner, args[i]) {
          return;
        }
        Visit(inner);
        if i == before {
          return;
        }
      }
    }
  }

  method Resolve(grammar: Node, args: seq<Bytes>) returns (roles: seq<Role>)
    ensures roles == ResolveRoles(grammar, args)
  {
    hide WalkNode;
    var w := new Walker(args);
    w.Visit(grammar);
    roles := w.out;
    ghost var walked := w.out;
    while |roles| < |args|
      invariant |walked| <= |roles| <= |args|
      invariant roles == walked + Copies(Value, |roles| - |walked|)
    {
      roles := roles + [Value];
    }
  }
}
