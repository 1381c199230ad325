/** Which texts are paths, and the steps they mean. */
module PathForms {
  import opened Prelude
  import opened Utf8
  import opened Decimal
  import opened JsonPath

  /** One step as it is typed: the digits of an index, or a name and perhaps the digits of its occurrence. */
  datatype Typed =
    | Dotted(name: Text, mark: Option<Text>)
    | Quoted(name: Text, mark: Option<Text>)
    | Bracketed(digits: Text)

  function MarkText(mark: Option<Text>): Text {
    match mark
    case None => []
    case Some(digits) => ['#' as int] + digits
  }

  function StepText(x: Typed): (t: Text)
    ensures t != []
  {
    match x
    case Dotted(name, mark) => ['.' as int] + (name + MarkText(mark))
    case Quoted(name, mark) => ['[' as int, '"' as int] + (name + (['"' as int, ']' as int] + MarkText(mark)))
    case Bracketed(digits) => ['[' as int] + (digits + [']' as int])
  }

  function PathText(xs: seq<Typed>): Text {
    if xs == [] then [] else StepText(xs[0]) + PathText(xs[1..])
  }

  predicate AreDigits(t: Text) {
    t != [] && forall k :: 0 <= k < |t| ==> '0' as int <= t[k] <= '9' as int
  }

  /** A name without a dot, a bracket or a hash, or any name without a quote in quotes; numbers in their ranges. */
  predicate IsStep(x: Typed) {
    match x
    case Dotted(name, mark) =>
      && name != [] && '.' as int !in name && '[' as int !in name && '#' as int !in name && IsMark(mark)
    case Quoted(name, mark) => '"' as int !in name && IsMark(mark)
    case Bracketed(digits) => AreDigits(digits) && 0 <= DecimalValue(digits) < 0x1_0000_0000_0000_0000
  }

  predicate IsMark(mark: Option<Text>) {
    mark.Some? ==> AreDigits(mark.value) && 1 <= DecimalValue(mark.value) < 0x1_0000_0000
  }

  predicate AreSteps(xs: seq<Typed>) {
    forall k :: 0 <= k < |xs| ==> IsStep(xs[k])
  }

  function MarkMeaning(mark: Option<Text>): Option<nat>
    requires IsMark(mark)
  {
    match mark
    case None => None
    case Some(digits) => Some(DecimalValue(digits))
  }

  function StepMeaning(x: Typed): Step
    requires IsStep(x)
  {
    match x
    case Dotted(name, mark) => Named(name, MarkMeaning(mark))
    case Quoted(name, mark) => Named(name, MarkMeaning(mark))
    case Bracketed(digits) => Index(DecimalValue(digits))
  }

  function Meanings(xs: seq<Typed>): seq<Step>
    requires AreSteps(xs)
  {
    if xs == [] then [] else [StepMeaning(xs[0])] + Meanings(xs[1..])
  }

  /** `p` is these steps, perhaps behind a dollar sign. */
  predicate IsPath(p: Text, xs: seq<Typed>) {
    AreSteps(xs) && (p == PathText(xs) || p == ['$' as int] + PathText(xs))
  }

  // ---------------------------------------------------------------- typed steps are read

  /** A step ends where the path does or another step begins. */
  predicate Ends(rest: Text) {
    rest == [] || rest[0] == '.' as int || rest[0] == '[' as int
  }

  lemma {:induction false} DigitsAt(p: Text, i: nat, digits: Text, rest: Text)
    requires i <= |p| && p[i..] == digits + rest && AreDigits(digits) && (rest != [] ==> !IsDecimal(rest[0]))
    ensures DecimalEnd(p, i) == i + |digits| && p[i..i + |digits|] == digits && p[i + |digits|..] == rest
  {
    forall k | i <= k < i + |digits| ensures IsDecimal(p[k]) {
      assert p[k] == p[i..][k - i] == digits[k - i];
    }
    assert p[i + |digits|..] == p[i..][|digits|..] == rest;
    assert p[i..i + |digits|] == p[i..][..|digits|];
    DecimalEndIs(p, i, i + |digits|);
  }

  lemma {:induction false} MarkReads(p: Text, i: nat, mark: Option<Text>, rest: Text)
    requires i <= |p| && p[i..] == MarkText(mark) + rest && IsMark(mark) && Ends(rest)
    ensures Occurrence(p, i) == Ok((MarkMeaning(mark), i + |MarkText(mark)|)) && p[i + |MarkText(mark)|..] == rest
  {
    hide DecimalEnd, DecimalValue, AreDigits;
    if mark.None? {
      assert p[i..] == rest;
      if i < |p| {
        assert p[i] == p[i..][0];
      }
    } else {
      assert p[i] == p[i..][0];
      assert p[i + 1..] == p[i..][1..] == mark.value + rest;
      DigitsAt(p, i + 1, mark.value, rest);
      SomeDigits(mark.value);
    }
  }

  lemma {:induction false} SomeDigits(t: Text)
    requires AreDigits(t)
    ensures t != []
  {
  }

  /** A mark or the next step stands behind a name. */
  lemma {:induction false} BehindName(mark: Option<Text>, rest: Text)
    requires Ends(rest)
    ensures var t := MarkText(mark) + rest; t != [] ==> IsNameEnd(t[0]) && !IsDecimal(t[0])
  {
  }

  lemma {:induction false} Regroup(a: Text, b: Text, c: Text, d: Text)
    ensures (a + (b + c)) + d == a + (b + (c + d))
    ensures (a + (b + (c + d))) == (a + b) + (c + d)
  {
  }

  /** The texts of steps in front of a rest. */
  lemma {:induction false} StepTexts(name: Text, mark: Option<Text>, digits: Text, rest: Text)
    ensures StepText(Dotted(name, mark)) + rest == ['.' as int] + (name + (MarkText(mark) + rest))
    ensures StepText(Quoted(name, mark)) + rest
         == ['[' as int, '"' as int] + (name + (['"' as int, ']' as int] + (MarkText(mark) + rest)))
    ensures StepText(Bracketed(digits)) + rest == ['[' as int] + (digits + ([']' as int] + rest))
    ensures |StepText(Dotted(name, mark))| == 1 + |name| + |MarkText(mark)|
    ensures |StepText(Quoted(name, mark))| == 4 + |name| + |MarkText(mark)|
    ensures |StepText(Bracketed(digits))| == 2 + |digits|
  {
    hide MarkText;
    Regroup(['.' as int], name, MarkText(mark), rest);
    Regroup(['[' as int, '"' as int], name, ['"' as int, ']' as int] + MarkText(mark), rest);
    Regroup(['"' as int, ']' as int], MarkText(mark), [], rest);
    assert (['"' as int, ']' as int] + MarkText(mark)) + rest == ['"' as int, ']' as int] + (MarkText(mark) + rest);
    Regroup(['[' as int], digits, [']' as int], rest);
  }

  lemma {:induction false} DottedAt(p: Text, i: nat, e: nat, o: Option<nat>, j: nat)
    requires i + 1 < e <= |p| && p[i] == 0x2E && NameEnd(p, i + 1) == e && Occurrence(p, e) == Ok((o, j))
    ensures StepAt(p, i) == Ok((Named(p[i + 1..e], o), j))
  {
    hide NameEnd, Occurrence;
  }

  lemma {:induction false} DottedReads(p: Text, i: nat, name: Text, mark: Option<Text>, rest: Text)
    requires i < |p| && IsStep(Dotted(name, mark)) && Ends(rest) && p[i..] == StepText(Dotted(name, mark)) + rest
    ensures var x := Dotted(name, mark); var j := i + |StepText(x)|;
            StepAt(p, i) == Ok((StepMeaning(x), j)) && p[j..] == rest
  {
    hide StepAt, StepText, NameEnd, Occurrence, MarkText, IsMark, MarkMeaning, Ends;
    var open: Text := ['.' as int];
    StepTexts(name, mark, [], rest);
    Parts(p, i, open, name, MarkText(mark) + rest);
    var e := i + 1 + |name|;
    assert p[i + 0] == open[0];
    forall k | i + 1 <= k < e ensures !IsNameEnd(p[k]) {
      assert p[k] == name[k - i - 1];
    }
    BehindName(mark, rest);
    if e < |p| {
      assert p[e] == p[e..][0];
    }
    NameEndIs(p, i + 1, e);
    MarkReads(p, e, mark, rest);
    DottedAt(p, i, e, MarkMeaning(mark), e + |MarkText(mark)|);
  }

  /** What two parts in front of a rest are, by position. */
  lemma {:induction false} Parts(p: Text, i: nat, front: Text, name: Text, rest: Text)
    requires i <= |p| && p[i..] == front + (name + rest)
    ensures var m := i + |front|; var e := m + |name|;
            && e <= |p| && p[m..] == name + rest && p[m..e] == name && p[e..] == rest
            && (forall k :: m <= k < e ==> p[k] == name[k - m]) && forall k :: 0 <= k < |front| ==> p[i + k] == front[k]
  {
    var m := i + |front|;
    assert p[m..] == p[i..][|front|..] == name + rest;
    assert p[m + |name|..] == p[m..][|name|..] == rest;
    assert p[m..m + |name|] == p[m..][..|name|];
    forall k | 0 <= k < |front| ensures p[i + k] == front[k] {
      assert p[i + k] == p[i..][k];
    }
    forall k | m <= k < m + |name| ensures p[k] == name[k - m] {
      assert p[k] == p[m..][k - m];
    }
  }

  lemma {:induction false} QuotedAt(p: Text, i: nat, e: nat, o: Option<nat>, j: nat)
    requires i + 1 < |p| && p[i] == 0x5B && p[i + 1] == 0x22 && QuoteEnd(p, i + 2) == e && e + 1 < |p| && p[e + 1] == 0x5D
    requires Occurrence(p, e + 2) == Ok((o, j))
    ensures StepAt(p, i) == Ok((Named(p[i + 2..e], o), j))
  {
    hide QuoteEnd, Occurrence;
  }

  lemma {:induction false} QuotedReads(p: Text, i: nat, name: Text, mark: Option<Text>, rest: Text)
    requires i < |p| && IsStep(Quoted(name, mark)) && Ends(rest) && p[i..] == StepText(Quoted(name, mark)) + rest
    ensures var x := Quoted(name, mark); var j := i + |StepText(x)|;
            StepAt(p, i) == Ok((StepMeaning(x), j)) && p[j..] == rest
  {
    hide StepAt, StepText, Occurrence, MarkText, IsMark, MarkMeaning, QuoteEnd, Ends;
    var tail := MarkText(mark) + rest;
    StepTexts(name, mark, [], rest);
    var open, close: Text := ['[' as int, '"' as int], ['"' as int, ']' as int];
    Parts(p, i, open, name, close + tail);
    var e := i + 2 + |name|;
    Parts(p, e, close, [], tail) by { assert close + ([] + tail) == close + tail; }
    assert p[i] == open[0] && p[i + 1] == open[1] && p[e] == close[0] && p[e + 1] == close[1] by {
      assert p[i + 0] == open[0] && p[e + 0] == close[0];
    }
    QuoteEndIs(p, i + 2, e);
    MarkReads(p, e + 2, mark, rest);
    QuotedAt(p, i, e, MarkMeaning(mark), e + 2 + |MarkText(mark)|);
  }

  lemma {:induction false} BracketedReads(p: Text, i: nat, digits: Text, rest: Text)
    requires i < |p| && IsStep(Bracketed(digits)) && p[i..] == StepText(Bracketed(digits)) + rest
    ensures var x := Bracketed(digits); var j := i + |StepText(x)|;
            StepAt(p, i) == Ok((StepMeaning(x), j)) && p[j..] == rest
  {
    hide StepAt, StepText, DecimalEnd, DecimalValue;
    var open: Text := ['[' as int];
    var tail := [']' as int] + rest;
    StepTexts([], None, digits, rest);
    Parts(p, i, open, digits, tail);
    var e := i + 1 + |digits|;
    assert p[i + 0] == open[0] && p[i + 1] == digits[0];
    DigitsAt(p, i + 1, digits, tail);
    assert p[e] == p[e..][0];
    assert p[e + 1..] == p[e..][1..] == rest;
    BracketedAt(p, i, e);
  }

  lemma {:induction false} StepReads(p: Text, i: nat, x: Typed, rest: Text)
    requires i < |p| && IsStep(x) && Ends(rest) && p[i..] == StepText(x) + rest
    ensures StepAt(p, i) == Ok((StepMeaning(x), i + |StepText(x)|)) && p[i + |StepText(x)|..] == rest
  {
    hide StepAt, StepText, StepMeaning, IsStep;
    match x
    case Dotted(name, mark) => DottedReads(p, i, name, mark, rest);
    case Quoted(name, mark) => QuotedReads(p, i, name, mark, rest);
    case Bracketed(digits) => BracketedReads(p, i, digits, rest);
  }

  lemma {:induction false} PathEnds(xs: seq<Typed>)
    ensures Ends(PathText(xs))
  {
  }

  lemma {:induction false} StepsRead(p: Text, i: nat, xs: seq<Typed>)
    requires i <= |p| && AreSteps(xs) && p[i..] == PathText(xs)
    ensures StepsFrom(p, i) == Ok(Meanings(xs))
    decreases |xs|
  {
    hide StepAt, StepText, StepMeaning, IsStep, Ends;
    if xs != [] {
      PathEnds(xs[1..]);
      StepReads(p, i, xs[0], PathText(xs[1..]));
      StepsRead(p, i + |StepText(xs[0])|, xs[1..]);
    }
  }

  // ---------------------------------------------------------------- what is read was typed

  lemma {:induction false} RunIsDigits(p: Text, i: nat)
    requires i <= |p| && DecimalEnd(p, i) > i
    ensures AreDigits(p[i..DecimalEnd(p, i)]) && DecimalValue(p[i..DecimalEnd(p, i)]) >= 0
  {
    hide DecimalValue;
    var d := p[i..DecimalEnd(p, i)];
    forall k | 0 <= k < |d| ensures '0' as int <= d[k] <= '9' as int {
      assert IsDecimal(p[i + k]);
    }
    ValueIsNat(d);
  }

  lemma {:induction false} ValueIsNat(d: Text)
    requires forall k :: 0 <= k < |d| ==> '0' as int <= d[k] <= '9' as int
    ensures DecimalValue(d) >= 0
    decreases |d|
  {
    if d != [] {
      ValueIsNat(d[..|d| - 1]);
    }
  }

  lemma {:induction false} MarkDerives(p: Text, i: nat) returns (mark: Option<Text>)
    requires i <= |p| && Occurrence(p, i).Ok?
    ensures IsMark(mark) && Occurrence(p, i).value.0 == MarkMeaning(mark) && p[i..Occurrence(p, i).value.1] == MarkText(mark)
  {
    hide DecimalEnd, DecimalValue, AreDigits;
    mark := None;
    if i < |p| && p[i] == HASH {
      var j := DecimalEnd(p, i + 1);
      RunIsDigits(p, i + 1);
      mark := Some(p[i + 1..j]);
      assert p[i..j] == [p[i]] + p[i + 1..j];
    }
  }

  lemma {:induction false} NameIsClear(p: Text, i: nat, e: nat)
    requires i <= e <= |p| && forall k :: i <= k < e ==> !IsNameEnd(p[k])
    ensures '.' as int !in p[i..e] && '[' as int !in p[i..e] && '#' as int !in p[i..e]
  {
  }

  lemma {:induction false} DottedDerives(p: Text, i: nat) returns (x: Typed)
    requires i < |p| && p[i] == 0x2E && StepAt(p, i).Ok?
    ensures IsStep(x) && StepAt(p, i).value.0 == StepMeaning(x) && p[i..StepAt(p, i).value.1] == StepText(x)
  {
    hide NameEnd, Occurrence, IsMark, MarkMeaning, MarkText;
    var e := NameEnd(p, i + 1);
    var mark := MarkDerives(p, e);
    x := Dotted(p[i + 1..e], mark);
    NameIsClear(p, i + 1, e);
    var j := Occurrence(p, e).value.1;
    assert p[i..j] == ['.' as int] + (p[i + 1..e] + p[e..j]);
  }

  lemma {:induction false} QuotedDerives(p: Text, i: nat) returns (x: Typed)
    requires i + 1 < |p| && p[i] != 0x2E && p[i + 1] == 0x22 && StepAt(p, i).Ok?
    ensures IsStep(x) && StepAt(p, i).value.0 == StepMeaning(x) && p[i..StepAt(p, i).value.1] == StepText(x)
  {
    hide QuoteEnd, Occurrence, IsMark, MarkMeaning, MarkText;
    var e := QuoteEnd(p, i + 2);
    var mark := MarkDerives(p, e + 2);
    x := Quoted(p[i + 2..e], mark);
    var j := Occurrence(p, e + 2).value.1;
    assert p[e..j] == ['"' as int, ']' as int] + p[e + 2..j];
    assert p[i..j] == ['[' as int, '"' as int] + (p[i + 2..e] + p[e..j]);
  }

  lemma {:induction false} BracketedDerives(p: Text, i: nat) returns (x: Typed)
    requires i < |p| && p[i] != 0x2E && (i + 1 < |p| ==> p[i + 1] != 0x22) && StepAt(p, i).Ok?
    ensures IsStep(x) && StepAt(p, i).value.0 == StepMeaning(x) && p[i..StepAt(p, i).value.1] == StepText(x)
  {
    hide DecimalEnd, DecimalValue;
    var e := DecimalEnd(p, i + 1);
    RunIsDigits(p, i + 1);
    x := Bracketed(p[i + 1..e]);
    assert p[i..e + 1] == ['[' as int] + (p[i + 1..e] + [']' as int]);
  }

  lemma {:induction false} StepDerives(p: Text, i: nat) returns (x: Typed)
    requires i < |p| && StepAt(p, i).Ok?
    ensures IsStep(x) && StepAt(p, i).value.0 == StepMeaning(x) && p[i..StepAt(p, i).value.1] == StepText(x)
  {
    hide StepAt, StepText, IsStep, StepMeaning;
    if p[i] == 0x2E {
      x := DottedDerives(p, i);
    } else if i + 1 < |p| && p[i + 1] == 0x22 {
      x := QuotedDerives(p, i);
    } else {
      x := BracketedDerives(p, i);
    }
  }

  lemma {:induction false} StepsDerive(p: Text, i: nat) returns (xs: seq<Typed>)
    requires i <= |p| && StepsFrom(p, i).Ok?
    ensures AreSteps(xs) && p[i..] == PathText(xs) && StepsFrom(p, i).value == Meanings(xs)
    decreases |p| - i
  {
    hide StepAt, StepText, StepMeaning, IsStep;
    xs := [];
    if i < |p| {
      var x := StepDerives(p, i);
      var j := StepAt(p, i).value.1;
      var more := StepsDerive(p, j);
      xs := [x] + more;
      assert xs[1..] == more;
      assert p[i..] == p[i..j] + p[j..];
    }
  }

  lemma {:induction false} NoDollar(xs: seq<Typed>)
    ensures PathText(xs) != [] ==> PathText(xs)[0] != '$' as int
  {
  }

  /** A text is a path exactly when it is steps as they are typed, and it means what they mean. */
  lemma {:induction false} PathsExactly(p: Text, steps: seq<Step>)
    ensures ParsePath(p) == Ok(steps) <==> exists xs :: IsPath(p, xs) && Meanings(xs) == steps
  {
    hide StepsFrom, AreSteps, PathText, Meanings;
    if ParsePath(p) == Ok(steps) {
      var i := if p != [] && p[0] == DOLLAR then 1 else 0;
      var xs := StepsDerive(p, i);
      assert p[0..] == p && (i == 1 ==> p == ['$' as int] + p[1..]);
      assert IsPath(p, xs);
    }
    if xs :| IsPath(p, xs) && Meanings(xs) == steps {
      NoDollar(xs);
      if p == PathText(xs) {
        assert p[0..] == p;
        StepsRead(p, 0, xs);
      } else {
        assert p[1..] == PathText(xs);
        StepsRead(p, 1, xs);
      }
    }
  }
}
