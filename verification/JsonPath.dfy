/**
  Occurrence-aware paths of `pr-json`: their syntax, and how one step selects a child.
  A path is read as characters; every delimiter is ASCII, so byte and character scans agree.
 */
module JsonPath {
  import opened Prelude
  import opened Utf8
  import opened Decimal
  import opened JsonDom
  import opened JsonTree

  datatype Step = Named(name: Text, occurrence: Option<nat>) | Index(index: nat)

  // ---------------------------------------------------------------- one step

  /** The position of the first member called `name`, at or after `k`. */
  function FirstNamed(ms: seq<Member>, name: Text, k: nat): (r: Option<nat>)
    requires k <= |ms|
    ensures r.Some? ==> k <= r.value < |ms| && ms[r.value].key == name
    ensures r.None? ==> forall j :: k <= j < |ms| ==> ms[j].key != name
    decreases |ms| - k
  {
    if k == |ms| then None else if ms[k].key == name then Some(k) else FirstNamed(ms, name, k + 1)
  }

  /** The position of the first member called `name` that is occurrence `o`, at or after `k`. */
  function FirstOccurrence(ms: seq<Member>, name: Text, o: nat, k: nat): (r: Option<nat>)
    requires k <= |ms|
    ensures r.Some? ==> k <= r.value < |ms| && ms[r.value].key == name && ms[r.value].occurrence == o
    ensures r.None? ==> forall j :: k <= j < |ms| ==> ms[j].key != name || ms[j].occurrence != o
    decreases |ms| - k
  {
    if k == |ms| then None
    else if ms[k].key == name && ms[k].occurrence == o then Some(k)
    else FirstOccurrence(ms, name, o, k + 1)
  }

  function CountNamed(ms: seq<Member>, name: Text): nat {
    if ms == [] then 0 else (if ms[0].key == name then 1 else 0) + CountNamed(ms[1..], name)
  }

  /** `path::step`, giving the position of the child it selects. */
  function Choose(n: Node, st: Step): (r: Result<nat, JsonError>)
    ensures r.Ok? ==> r.value < |Children(n)|
  {
    match (n.kind, st)
    case (Object(ms), Named(name, occurrence)) =>
      (match FirstNamed(ms, name, 0)
       case None => Err(NoSuchPath)
       case Some(k) =>
         match occurrence
         case None =>
           if CountNamed(ms, name) > 1 then Err(AmbiguousMember(name, CountNamed(ms, name))) else Ok(k)
         case Some(o) =>
           match FirstOccurrence(ms, name, o, 0)
           case None => Err(NoSuchPath)
           case Some(j) => Ok(j))
    case (Array(items), Index(k)) => if k < |items| then Ok(k) else Err(NoSuchPath)
    case _ => Err(NoSuchPath)
  }

  /** The route a list of steps follows from `n`. */
  function Locate(n: Node, steps: seq<Step>): (r: Result<seq<nat>, JsonError>)
    ensures r.Ok? ==> |r.value| == |steps| && Descend(n, r.value).Some?
    decreases |steps|
  {
    if steps == [] then Ok([])
    else
      match Choose(n, steps[0])
      case Err(e) => Err(e)
      case Ok(k) =>
        match Locate(Children(n)[k], steps[1..])
        case Err(e) => Err(e)
        case Ok(rest) =>
          assert ([k] + rest)[1..] == rest;
          Ok([k] + rest)
  }

  // ---------------------------------------------------------------- numbering

  /** A member as the parser collected it. */
  function Strip(ms: seq<Member>): (raw: seq<RawMember>)
    ensures |raw| == |ms|
    ensures forall k :: 0 <= k < |ms| ==> raw[k] == RawMember(ms[k].keyStart, ms[k].keyEnd, ms[k].key, ms[k].value)
  {
    seq(|ms|, k requires 0 <= k < |ms| => RawMember(ms[k].keyStart, ms[k].keyEnd, ms[k].key, ms[k].value))
  }

  /** Every object below `n` carries the numbers the parser assigns. */
  predicate WellNumbered(n: Node)
    decreases n
  {
    match n.kind
    case Array(items) => forall k :: 0 <= k < |items| ==> WellNumbered(items[k])
    case Object(ms) => ms == Numbered(Strip(ms)) && forall k :: 0 <= k < |ms| ==> WellNumbered(ms[k].value)
    case _ => true
  }

  lemma {:induction false} ValueWellNumbered(b: Bytes, max: nat, depth: nat, i: nat)
    requires i <= |b| && Value(b, max, depth, i).Got?
    ensures WellNumbered(Value(b, max, depth, i).value)
    decreases |b| - i, 0
  {
    hide Ws, Items, Members, Pair, Token, Numbered;
    var r := Value(b, max, depth, i);
    var s := Ws(b, i);
    if b[s] == OPEN_BRACKET {
      if b[Ws(b, s + 1)] != CLOSE_BRACKET {
        ItemsWellNumbered(b, max, depth + 1, Ws(b, s + 1));
      }
    } else if b[s] == OPEN_BRACE {
      if b[Ws(b, s + 1)] == CLOSE_BRACE {
        assert Numbered(Strip([])) == [];
      } else {
        var raw := Members(b, max, depth + 1, Ws(b, s + 1)).value;
        MembersWellNumbered(b, max, depth + 1, Ws(b, s + 1));
        assert Strip(Numbered(raw)) == raw;
      }
    } else {
      TokenIsLeaf(b, s);
    }
  }

  lemma {:induction false} ItemsWellNumbered(b: Bytes, max: nat, depth: nat, i: nat)
    requires i <= |b| && Items(b, max, depth, i).Got?
    ensures forall k :: 0 <= k < |Items(b, max, depth, i).value| ==> WellNumbered(Items(b, max, depth, i).value[k])
    decreases |b| - i, 1
  {
    hide Value, Ws, WellNumbered;
    ValueWellNumbered(b, max, depth, i);
    var w := Ws(b, Value(b, max, depth, i).next);
    if b[w] == COMMA {
      ItemsWellNumbered(b, max, depth, w + 1);
    }
  }

  lemma {:induction false} MembersWellNumbered(b: Bytes, max: nat, depth: nat, i: nat)
    requires i <= |b| && Members(b, max, depth, i).Got?
    ensures forall k :: 0 <= k < |Members(b, max, depth, i).value| ==> WellNumbered(Members(b, max, depth, i).value[k].value)
    decreases |b| - i, 1
  {
    hide Value, Ws, WellNumbered, StringSpan;
    var j := StringSpan(b, Ws(b, i)).next;
    ValueWellNumbered(b, max, depth, Ws(b, j) + 1);
    var w := Ws(b, Pair(b, max, depth, i).next);
    if b[w] == COMMA {
      MembersWellNumbered(b, max, depth, w + 1);
    }
  }

  lemma {:induction false} CountAppend(a: seq<RawMember>, c: seq<RawMember>, key: Text)
    ensures Count(a + c, key) == Count(a, key) + Count(c, key)
  {
    if a == [] {
      assert a + c == c;
    } else {
      assert (a + c)[1..] == a[1..] + c;
      CountAppend(a[1..], c, key);
    }
  }

  /** Counting over a longer prefix. */
  lemma {:induction false} CountPrefix(raw: seq<RawMember>, j: nat, k: nat, key: Text)
    requires j < k <= |raw|
    ensures Count(raw[..j], key) <= Count(raw[..k], key)
    ensures raw[k - 1].key == key ==> Count(raw[..j], key) < Count(raw[..k], key)
  {
    assert raw[..k] == raw[..j] + raw[j..k - 1] + [raw[k - 1]];
    CountAppend(raw[..j] + raw[j..k - 1], [raw[k - 1]], key);
    CountAppend(raw[..j], raw[j..k - 1], key);
    assert [raw[k - 1]][1..] == [];
  }

  /** Some member is occurrence `o`, for every `o` up to the total. */
  lemma {:induction false} OccurrenceExists(raw: seq<RawMember>, key: Text, o: nat)
    requires 1 <= o <= Count(raw, key)
    ensures exists k :: 0 <= k < |raw| && raw[k].key == key && Count(raw[..k + 1], key) == o
  {
    var n := |raw| - 1;
    CountPrefix(raw, n, n + 1, key);
    assert raw[..n + 1] == raw;
    assert raw == raw[..n] + [raw[n]];
    CountAppend(raw[..n], [raw[n]], key);
    if o <= Count(raw[..n], key) {
      OccurrenceExists(raw[..n], key, o);
      var k :| 0 <= k < n && raw[..n][k].key == key && Count(raw[..n][..k + 1], key) == o;
      assert raw[..n][..k + 1] == raw[..k + 1];
    } else {
      assert [raw[n]][1..] == [];
    }
  }

  predicate HasOccurrence(ms: seq<Member>, key: Text, o: int) {
    exists k :: 0 <= k < |ms| && ms[k].key == key && ms[k].occurrence == o
  }

  /**
    In a parsed object the members sharing a key are numbered 1, 2, and so on up to their total, in
    source order: the numbers grow along the source and none of them is missing.
   */
  lemma {:induction false} OccurrencesRankDuplicates(ms: seq<Member>, key: Text)
    requires ms == Numbered(Strip(ms))
    ensures forall k :: 0 <= k < |ms| && ms[k].key == key ==> 1 <= ms[k].occurrence <= ms[k].total == CountNamed(ms, key)
    ensures forall j, k :: 0 <= j < k < |ms| && ms[j].key == key && ms[k].key == key ==> ms[j].occurrence < ms[k].occurrence
    ensures forall o :: 1 <= o <= CountNamed(ms, key) ==> HasOccurrence(ms, key, o)
  {
    hide Numbered, HasOccurrence, Count, CountNamed;
    var raw := Strip(ms);
    CountNamedIsCount(ms, key);
    assert raw[..|raw|] == raw;
    forall k | 0 <= k < |ms| && ms[k].key == key
      ensures 1 <= ms[k].occurrence <= ms[k].total == CountNamed(ms, key)
    {
      assert ms[k] == NumberOne(raw, k);
      CountPrefix(raw, k, k + 1, key);
      if k + 1 < |raw| {
        CountPrefix(raw, k + 1, |raw|, key);
      }
    }
    forall j, k | 0 <= j < k < |ms| && ms[j].key == key && ms[k].key == key ensures ms[j].occurrence < ms[k].occurrence {
      assert ms[k] == NumberOne(raw, k) && ms[j] == NumberOne(raw, j);
      CountPrefix(raw, j + 1, k + 1, key);
    }
    forall o | 1 <= o <= CountNamed(ms, key) ensures HasOccurrence(ms, key, o) {
      NumberedHasOccurrence(ms, key, o);
    }
  }

  lemma {:induction false} NumberedHasOccurrence(ms: seq<Member>, key: Text, o: nat)
    requires ms == Numbered(Strip(ms)) && 1 <= o <= Count(Strip(ms), key)
    ensures HasOccurrence(ms, key, o)
  {
    hide Numbered;
    var raw := Strip(ms);
    OccurrenceExists(raw, key, o);
    var k :| 0 <= k < |raw| && raw[k].key == key && Count(raw[..k + 1], key) == o;
    assert ms[k] == NumberOne(raw, k);
  }

  lemma {:induction false} CountNamedIsCount(ms: seq<Member>, key: Text)
    ensures CountNamed(ms, key) == Count(Strip(ms), key)
  {
    if ms != [] {
      CountNamedIsCount(ms[1..], key);
      assert Strip(ms)[1..] == Strip(ms[1..]);
    }
  }

  lemma {:induction false} CountNamedAtLeast(ms: seq<Member>, name: Text, k: nat)
    requires k < |ms| && ms[k].key == name
    ensures CountNamed(ms, name) >= 1
  {
    if k > 0 {
      CountNamedAtLeast(ms[1..], name, k - 1);
    }
  }

  /** A name without `#n` is accepted exactly when one member carries it; otherwise the error says why. */
  lemma {:induction false} BareNameNeedsUniqueness(ms: seq<Member>, n: Node, name: Text)
    requires n.kind == Object(ms)
    ensures var r := Choose(n, Named(name, None));
            && (r.Ok? <==> CountNamed(ms, name) == 1)
            && (r.Ok? ==> ms[r.value].key == name)
            && (r == Err(NoSuchPath) <==> CountNamed(ms, name) == 0)
            && (r == Err(AmbiguousMember(name, CountNamed(ms, name))) <==> CountNamed(ms, name) >= 2)
  {
    match FirstNamed(ms, name, 0)
    case Some(k) => CountNamedAtLeast(ms, name, k);
    case None => CountNamedNone(ms, name);
  }

  lemma {:induction false} CountNamedNone(ms: seq<Member>, name: Text)
    requires forall k :: 0 <= k < |ms| ==> ms[k].key != name
    ensures CountNamed(ms, name) == 0
  {
    if ms != [] {
      CountNamedNone(ms[1..], name);
    }
  }

  // ---------------------------------------------------------------- canonical steps

  /** The fully qualified step to child `k`. */
  function StepTo(n: Node, k: nat): Step
    requires k < |Children(n)|
  {
    if n.kind.Object? then Named(n.kind.members[k].key, Some(n.kind.members[k].occurrence)) else Index(k)
  }

  /** The fully qualified steps along `route`. */
  function StepsTo(n: Node, route: seq<nat>): (steps: seq<Step>)
    requires Descend(n, route).Some?
    ensures |steps| == |route|
    decreases |route|
  {
    if route == [] then [] else [StepTo(n, route[0])] + StepsTo(Children(n)[route[0]], route[1..])
  }

  predicate Qualified(steps: seq<Step>) {
    forall k :: 0 <= k < |steps| && steps[k].Named? ==> steps[k].occurrence.Some?
  }

  /** No other member with its name carries the occurrence of member `k`. */
  lemma {:induction false} OccurrenceIsUnique(ms: seq<Member>, k: nat)
    requires ms == Numbered(Strip(ms)) && k < |ms|
    ensures FirstOccurrence(ms, ms[k].key, ms[k].occurrence, 0) == Some(k)
  {
    hide Numbered, Strip, CountNamed, HasOccurrence, FirstOccurrence;
    OccurrencesRankDuplicates(ms, ms[k].key);
    var f := FirstOccurrence(ms, ms[k].key, ms[k].occurrence, 0);
    assert f.Some? && !(f.value < k) && !(k < f.value);
  }

  lemma {:induction false} ChooseCanonical(n: Node, k: nat)
    requires WellNumbered(n) && k < |Children(n)|
    ensures Choose(n, StepTo(n, k)) == Ok(k)
  {
    hide Numbered, Strip, CountNamed, FirstNamed, FirstOccurrence;
    if n.kind.Object? {
      OccurrenceIsUnique(n.kind.members, k);
    }
  }

  lemma {:induction false} ChooseOnlyCanonical(n: Node, st: Step)
    requires WellNumbered(n) && Choose(n, st).Ok? && (st.Named? ==> st.occurrence.Some?)
    ensures st == StepTo(n, Choose(n, st).value)
  {
  }

  lemma {:induction false} CanonicalStepsLead(n: Node, route: seq<nat>)
    requires WellNumbered(n) && Descend(n, route).Some?
    ensures Locate(n, StepsTo(n, route)) == Ok(route) && Qualified(StepsTo(n, route))
    decreases |route|
  {
    hide WellNumbered, Choose;
    if route != [] {
      var c := Children(n)[route[0]];
      ChildWellNumbered(n, route[0]);
      ChooseCanonical(n, route[0]);
      assert StepsTo(n, route)[1..] == StepsTo(c, route[1..]);
      CanonicalStepsLead(c, route[1..]);
      assert route == [route[0]] + route[1..];
    }
  }

  lemma {:induction false} OnlyCanonicalStepsLead(n: Node, steps: seq<Step>)
    requires WellNumbered(n) && Qualified(steps) && Locate(n, steps).Ok?
    ensures steps == StepsTo(n, Locate(n, steps).value)
    decreases |steps|
  {
    hide WellNumbered, Choose;
    if steps != [] {
      var k := Choose(n, steps[0]).value;
      var c := Children(n)[k];
      ChildWellNumbered(n, k);
      ChooseOnlyCanonical(n, steps[0]);
      OnlyCanonicalStepsLead(c, steps[1..]);
      var rest := Locate(c, steps[1..]).value;
      assert Locate(n, steps).value[1..] == rest;
      assert steps == [steps[0]] + steps[1..];
    }
  }

  /**
    Every node has exactly one fully qualified list of steps: it leads to the node, and every fully
    qualified list that leads there is that one.
   */
  lemma {:induction false} CanonicalStepsAreUnique(n: Node, route: seq<nat>, steps: seq<Step>)
    requires WellNumbered(n) && Descend(n, route).Some? && Qualified(steps)
    ensures Locate(n, steps) == Ok(route) <==> steps == StepsTo(n, route)
    ensures Qualified(StepsTo(n, route))
  {
    hide WellNumbered, Locate, StepsTo;
    CanonicalStepsLead(n, route);
    if Locate(n, steps) == Ok(route) {
      OnlyCanonicalStepsLead(n, steps);
    }
  }

  lemma {:induction false} ChildWellNumbered(n: Node, k: nat)
    requires WellNumbered(n) && k < |Children(n)|
    ensures WellNumbered(Children(n)[k])
  {
  }

  // ---------------------------------------------------------------- path syntax

  const DOLLAR := 0x24
  const HASH := 0x23
  const USIZE_LIMIT := 0x1_0000_0000_0000_0000
  const U32_LIMIT := 0x1_0000_0000

  predicate IsNameEnd(c: Scalar) {
    c == 0x2E || c == 0x5B || c == HASH
  }

  predicate IsDecimal(c: Scalar) {
    0x30 <= c <= 0x39
  }

  function NameEnd(p: Text, i: nat): (j: nat)
    requires i <= |p|
    ensures i <= j <= |p|
    ensures forall k :: i <= k < j ==> !IsNameEnd(p[k])
    ensures j < |p| ==> IsNameEnd(p[j])
    decreases |p| - i
  {
    if i < |p| && !IsNameEnd(p[i]) then NameEnd(p, i + 1) else i
  }

  function QuoteEnd(p: Text, i: nat): (j: nat)
    requires i <= |p|
    ensures i <= j <= |p| && (j < |p| ==> p[j] == 0x22)
    ensures forall k :: i <= k < j ==> p[k] != 0x22
    decreases |p| - i
  {
    if i < |p| && p[i] != 0x22 then QuoteEnd(p, i + 1) else i
  }

  function DecimalEnd(p: Text, i: nat): (j: nat)
    requires i <= |p|
    ensures i <= j <= |p|
    ensures forall k :: i <= k < j ==> IsDecimal(p[k])
    ensures j < |p| ==> !IsDecimal(p[j])
    decreases |p| - i
  {
    if i < |p| && IsDecimal(p[i]) then DecimalEnd(p, i + 1) else i
  }

  /** `parse_occurrence`: an optional `#n`, and the position after it. */
  function Occurrence(p: Text, i: nat): (r: Result<(Option<nat>, nat), JsonError>)
    requires i <= |p|
    ensures r.Ok? ==> i <= r.value.1 <= |p|
  {
    if i < |p| && p[i] == HASH then
      var j := DecimalEnd(p, i + 1);
      if j == i + 1 then Err(BadPath(ExpectedOccurrenceDigits))
      else
        var n := DecimalValue(p[i + 1..j]);
        if !(0 <= n < U32_LIMIT) then Err(BadPath(BadOccurrence))
        else if n == 0 then Err(BadPath(OccurrenceIsOneBased))
        else Ok((Some(n), j))
    else Ok((None, i))
  }

  /** One step of the path at `i`, and the position after it. */
  function StepAt(p: Text, i: nat): (r: Result<(Step, nat), JsonError>)
    requires i < |p|
    ensures r.Ok? ==> i < r.value.1 <= |p|
  {
    if p[i] == 0x2E then
      var e := NameEnd(p, i + 1);
      if e == i + 1 then Err(BadPath(EmptyMemberName))
      else
        match Occurrence(p, e)
        case Err(x) => Err(x)
        case Ok((o, j)) => Ok((Named(p[i + 1..e], o), j))
    else if p[i] == 0x5B then
      if i + 1 < |p| && p[i + 1] == 0x22 then
        var e := QuoteEnd(p, i + 2);
        if e == |p| then Err(BadPath(UnterminatedMember))
        else if e + 1 >= |p| || p[e + 1] != 0x5D then Err(BadPath(ExpectedCloseBracket))
        else
          match Occurrence(p, e + 2)
          case Err(x) => Err(x)
          case Ok((o, j)) => Ok((Named(p[i + 2..e], o), j))
      else
        var e := DecimalEnd(p, i + 1);
        if e == i + 1 || e == |p| || p[e] != 0x5D then Err(BadPath(ExpectedIndex))
        else
          var n := DecimalValue(p[i + 1..e]);
          if !(0 <= n < USIZE_LIMIT) then Err(BadPath(BadIndex)) else Ok((Index(n), e + 1))
    else Err(BadPath(ExpectedDotOrBracket))
  }

  function StepsFrom(p: Text, i: nat): Result<seq<Step>, JsonError>
    requires i <= |p|
    decreases |p| - i
  {
    if i == |p| then Ok([])
    else
      match StepAt(p, i)
      case Err(e) => Err(e)
      case Ok((st, j)) =>
        match StepsFrom(p, j)
        case Err(e) => Err(e)
        case Ok(rest) => Ok([st] + rest)
  }

  /** `path::parse`: the leading dollar sign is optional. */
  function ParsePath(p: Text): Result<seq<Step>, JsonError> {
    StepsFrom(p, if p != [] && p[0] == DOLLAR then 1 else 0)
  }

  // ---------------------------------------------------------------- which steps a path can spell

  predicate Quotable(name: Text) {
    forall k :: 0 <= k < |name| ==> name[k] != 0x22
  }

  predicate Dottable(name: Text) {
    name != [] && forall k :: 0 <= k < |name| ==> !IsNameEnd(name[k])
  }

  /** A name is addressable unless it holds both a quote and one of the three delimiters. */
  predicate Spellable(st: Step) {
    match st
    case Index(k) => k < USIZE_LIMIT
    case Named(name, o) => (Quotable(name) || Dottable(name)) && (o.Some? ==> 1 <= o.value < U32_LIMIT)
  }

  function Numeral(n: nat): (s: Text)
    ensures s != [] && forall k :: 0 <= k < |s| ==> IsDecimal(s[k])
  {
    Show(n)
  }

  function SpellOccurrence(o: Option<nat>): Text {
    match o
    case None => []
    case Some(n) => [HASH] + Numeral(n)
  }

  function SpellName(name: Text): Text {
    if Quotable(name) then [0x5B, 0x22] + name + [0x22, 0x5D] else [0x2E] + name
  }

  function Spell(st: Step): Text {
    match st
    case Index(k) => [0x5B] + Numeral(k) + [0x5D]
    case Named(name, o) => SpellName(name) + SpellOccurrence(o)
  }

  function SpellAll(steps: seq<Step>): Text {
    if steps == [] then [] else Spell(steps[0]) + SpellAll(steps[1..])
  }

  /** Position `j` ends the path or starts another step. */
  predicate StepBoundary(p: Text, j: nat) {
    j <= |p| && (j < |p| ==> p[j] == 0x2E || p[j] == 0x5B)
  }

  lemma {:induction false} DecimalEndIs(p: Text, i: nat, j: nat)
    requires i <= j <= |p| && (forall k :: i <= k < j ==> IsDecimal(p[k])) && (j < |p| ==> !IsDecimal(p[j]))
    ensures DecimalEnd(p, i) == j
    decreases j - i
  {
    if i < j {
      DecimalEndIs(p, i + 1, j);
    }
  }

  lemma {:induction false} NumeralAt(p: Text, i: nat, n: nat)
    requires Carries(p, i, Numeral(n)) && (i + |Numeral(n)| < |p| ==> !IsDecimal(p[i + |Numeral(n)|]))
    ensures DecimalEnd(p, i) == i + |Numeral(n)| && DecimalValue(p[i..i + |Numeral(n)|]) == n
  {
    var s := Numeral(n);
    forall k | i <= k < i + |s| ensures IsDecimal(p[k]) {
      CarriesAt(p, i, s, k - i);
    }
    DecimalEndIs(p, i, i + |s|);
    ValueOfShow(n);
  }

  lemma {:induction false} OccurrenceAt(p: Text, i: nat, o: Option<nat>)
    requires Carries(p, i, SpellOccurrence(o)) && StepBoundary(p, i + |SpellOccurrence(o)|)
    requires o.Some? ==> 1 <= o.value < U32_LIMIT
    ensures Occurrence(p, i) == Ok((o, i + |SpellOccurrence(o)|))
  {
    if o.Some? {
      CarriesAt(p, i, SpellOccurrence(o), 0);
      assert p[i + 1..i + 1 + |Numeral(o.value)|] == SpellOccurrence(o)[1..];
      NumeralAt(p, i + 1, o.value);
    }
  }

  lemma {:induction false} QuoteEndIs(p: Text, i: nat, j: nat)
    requires i <= j < |p| && (forall k :: i <= k < j ==> p[k] != 0x22) && p[j] == 0x22
    ensures QuoteEnd(p, i) == j
    decreases j - i
  {
    if i < j {
      QuoteEndIs(p, i + 1, j);
    }
  }

  lemma {:induction false} NameEndIs(p: Text, i: nat, j: nat)
    requires i <= j <= |p| && (forall k :: i <= k < j ==> !IsNameEnd(p[k])) && (j < |p| ==> IsNameEnd(p[j]))
    ensures NameEnd(p, i) == j
    decreases j - i
  {
    if i < j {
      NameEndIs(p, i + 1, j);
    }
  }

  lemma {:induction false} QuotedNameAt(p: Text, i: nat, name: Text)
    requires Quotable(name) && Carries(p, i, SpellName(name))
    ensures i + 1 < |p| && p[i] == 0x5B && p[i + 1] == 0x22 && QuoteEnd(p, i + 2) == i + 2 + |name|
    ensures i + 3 + |name| < |p| && p[i + 3 + |name|] == 0x5D && p[i + 2..i + 2 + |name|] == name
  {
    var t := SpellName(name);
    CarriesParts(p, i, [0x5B, 0x22], name + [0x22, 0x5D]) by { assert t == [0x5B, 0x22] + (name + [0x22, 0x5D]); }
    CarriesParts(p, i + 2, name, [0x22, 0x5D]);
    CarriesAt(p, i, [0x5B, 0x22], 0);
    CarriesAt(p, i, [0x5B, 0x22], 1);
    CarriesAt(p, i + 2 + |name|, [0x22, 0x5D], 0);
    CarriesAt(p, i + 2 + |name|, [0x22, 0x5D], 1);
    forall k | i + 2 <= k < i + 2 + |name| ensures p[k] != 0x22 {
      CarriesAt(p, i + 2, name, k - i - 2);
    }
    QuoteEndIs(p, i + 2, i + 2 + |name|);
  }

  lemma {:induction false} DottedNameAt(p: Text, i: nat, name: Text)
    requires !Quotable(name) && Dottable(name) && Carries(p, i, SpellName(name))
    requires var j := i + 1 + |name|; j < |p| ==> IsNameEnd(p[j])
    ensures i < |p| && p[i] == 0x2E && NameEnd(p, i + 1) == i + 1 + |name| && p[i + 1..i + 1 + |name|] == name
  {
    CarriesParts(p, i, [0x2E], name);
    CarriesAt(p, i, [0x2E], 0);
    forall k | i + 1 <= k < i + 1 + |name| ensures !IsNameEnd(p[k]) {
      CarriesAt(p, i + 1, name, k - i - 1);
    }
    NameEndIs(p, i + 1, i + 1 + |name|);
  }

  lemma {:induction false} BracketedAt(p: Text, i: nat, e: nat)
    requires i + 1 < e < |p| && p[i] == 0x5B && p[i + 1] != 0x22 && DecimalEnd(p, i + 1) == e && p[e] == 0x5D
    requires 0 <= DecimalValue(p[i + 1..e]) < USIZE_LIMIT
    ensures StepAt(p, i) == Ok((Index(DecimalValue(p[i + 1..e])), e + 1))
  {
    hide DecimalEnd, DecimalValue;
  }

  lemma {:induction false} SpelledIndexAt(p: Text, i: nat, k: nat)
    requires k < USIZE_LIMIT && Carries(p, i, Spell(Index(k)))
    ensures i < |p| && StepAt(p, i) == Ok((Index(k), i + |Spell(Index(k))|))
  {
    hide StepAt, DecimalEnd, Numeral, DecimalValue, Carries;
    CarriesParts(p, i, [0x5B], Numeral(k) + [0x5D]) by { assert Spell(Index(k)) == [0x5B] + (Numeral(k) + [0x5D]); }
    CarriesParts(p, i + 1, Numeral(k), [0x5D]);
    CarriesFit(p, i + 1 + |Numeral(k)|, [0x5D]);
    CarriesAt(p, i, [0x5B], 0);
    CarriesAt(p, i + 1, Numeral(k), 0);
    CarriesAt(p, i + 1 + |Numeral(k)|, [0x5D], 0);
    NumeralAt(p, i + 1, k);
    BracketedAt(p, i, i + 1 + |Numeral(k)|);
  }

  lemma {:induction false} CarriesFit(p: Text, i: nat, t: Text)
    requires Carries(p, i, t)
    ensures i + |t| <= |p|
  {
  }

  lemma {:induction false} SpelledStepAt(p: Text, i: nat, st: Step)
    requires Spellable(st) && Carries(p, i, Spell(st)) && StepBoundary(p, i + |Spell(st)|) && i < |p|
    ensures StepAt(p, i) == Ok((st, i + |Spell(st)|))
  {
    hide NameEnd, QuoteEnd, DecimalEnd, Occurrence, Numeral, DecimalValue, Carries, SpellName, SpellOccurrence;
    if st.Index? {
      SpelledIndexAt(p, i, st.index);
    } else {
      var name, o := st.name, st.occurrence;
      CarriesParts(p, i, SpellName(name), SpellOccurrence(o));
      NameSpelledAt(p, i, name, o);
      OccurrenceAt(p, i + |SpellName(name)|, o);
    }
  }

  lemma {:induction false} NameSpelledAt(p: Text, i: nat, name: Text, o: Option<nat>)
    requires Quotable(name) || Dottable(name)
    requires Carries(p, i, SpellName(name)) && Carries(p, i + |SpellName(name)|, SpellOccurrence(o))
    requires StepBoundary(p, i + |SpellName(name)| + |SpellOccurrence(o)|)
    ensures i < |p|
    ensures if Quotable(name) then
              p[i] == 0x5B && i + 1 < |p| && p[i + 1] == 0x22 && QuoteEnd(p, i + 2) == i + 2 + |name|
              && i + 3 + |name| < |p| && p[i + 3 + |name|] == 0x5D && p[i + 2..i + 2 + |name|] == name
              && |SpellName(name)| == |name| + 4
            else
              p[i] == 0x2E && NameEnd(p, i + 1) == i + 1 + |name| && p[i + 1..i + 1 + |name|] == name
              && |SpellName(name)| == |name| + 1 && name != []
  {
    hide Carries;
    if Quotable(name) {
      QuotedNameAt(p, i, name);
    } else {
      if o.Some? {
        CarriesAt(p, i + |SpellName(name)|, SpellOccurrence(o), 0);
      }
      DottedNameAt(p, i, name);
    }
  }

  lemma {:induction false} SpellStarts(st: Step)
    ensures Spell(st) != [] && (Spell(st)[0] == 0x2E || Spell(st)[0] == 0x5B)
  {
  }

  lemma {:induction false} SpelledStepsFrom(p: Text, i: nat, steps: seq<Step>)
    requires i <= |p| && p[i..] == SpellAll(steps)
    requires forall k :: 0 <= k < |steps| ==> Spellable(steps[k])
    ensures StepsFrom(p, i) == Ok(steps)
    decreases |steps|
  {
    hide StepAt, Spell;
    if steps == [] {
      assert i == |p|;
    } else {
      var t := Spell(steps[0]);
      var j := i + |t|;
      SpellStarts(steps[0]);
      assert p[i..][..|t|] == t && p[i..][|t|..] == SpellAll(steps[1..]);
      assert p[i..j] == t && p[j..] == SpellAll(steps[1..]);
      if steps[1..] != [] {
        SpellStarts(steps[1]);
        assert p[j] == p[j..][0];
      }
      SpelledStepAt(p, i, steps[0]);
      SpelledStepsFrom(p, j, steps[1..]);
      assert steps == [steps[0]] + steps[1..];
    }
  }

  lemma {:induction false} ParsedStepsAreSpellable(p: Text, i: nat)
    requires i <= |p| && StepsFrom(p, i).Ok?
    ensures forall k :: 0 <= k < |StepsFrom(p, i).value| ==> Spellable(StepsFrom(p, i).value[k])
    decreases |p| - i
  {
    hide StepAt, Spellable;
    if i < |p| {
      ParsedStepIsSpellable(p, i);
      ParsedStepsAreSpellable(p, StepAt(p, i).value.1);
    }
  }

  lemma {:induction false} ParsedStepIsSpellable(p: Text, i: nat)
    requires i < |p| && StepAt(p, i).Ok?
    ensures Spellable(StepAt(p, i).value.0)
  {
    hide NameEnd, QuoteEnd, DecimalEnd, DecimalValue;
  }

  /**
    The steps a path can express are exactly the spellable ones; a member whose name holds a quote and
    also a dot, an opening bracket or a hash has no path at all.
   */
  lemma {:induction false} PathsExpressSpellableSteps(steps: seq<Step>)
    ensures (exists p :: ParsePath(p) == Ok(steps)) <==> forall k :: 0 <= k < |steps| ==> Spellable(steps[k])
  {
    if p :| ParsePath(p) == Ok(steps) {
      ParsedStepsAreSpellable(p, if p != [] && p[0] == DOLLAR then 1 else 0);
    }
    if forall k :: 0 <= k < |steps| ==> Spellable(steps[k]) {
      var p := [DOLLAR] + SpellAll(steps);
      assert p[1..] == SpellAll(steps);
      SpelledStepsFrom(p, 1, steps);
      assert ParsePath(p) == Ok(steps);
    }
  }
}
