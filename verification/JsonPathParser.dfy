/** `path::parse` as it runs: index loops over the path, with the steps collected as they are read. */
module JsonPathParser {
  import opened Prelude
  import opened Utf8
  import opened Decimal
  import opened JsonDom
  import opened JsonPath

  method SkipName(p: Text, from: nat) returns (i: nat)
    requires from <= |p|
    ensures i == NameEnd(p, from)
  {
    i := from;
    while i < |p| && !IsNameEnd(p[i])
      invariant from <= i <= |p| && NameEnd(p, i) == NameEnd(p, from)
    {
      i := i + 1;
    }
  }

  method SkipQuoted(p: Text, from: nat) returns (i: nat)
    requires from <= |p|
    ensures i == QuoteEnd(p, from)
  {
    i := from;
    while i < |p| && p[i] != 0x22
      invariant from <= i <= |p| && QuoteEnd(p, i) == QuoteEnd(p, from)
    {
      i := i + 1;
    }
  }

  method SkipDigits(p: Text, from: nat) returns (i: nat)
    requires from <= |p|
    ensures i == DecimalEnd(p, from)
  {
    i := from;
    while i < |p| && IsDecimal(p[i])
      invariant from <= i <= |p| && DecimalEnd(p, i) == DecimalEnd(p, from)
    {
      i := i + 1;
    }
  }

  method ParseOccurrence(p: Text, from: nat) returns (r: Result<(Option<nat>, nat), JsonError>)
    requires from <= |p|
    ensures r == Occurrence(p, from)
  {
    hide DecimalEnd, DecimalValue;
    if from < |p| && p[from] == HASH {
      var i := SkipDigits(p, from + 1);
      if i == from + 1 {
        return Err(BadPath(ExpectedOccurrenceDigits));
      }
      var n := DecimalValue(p[from + 1..i]);
      if !(0 <= n < U32_LIMIT) {
        return Err(BadPath(BadOccurrence));
      }
      if n == 0 {
        return Err(BadPath(OccurrenceIsOneBased));
      }
      return Ok((Some(n), i));
    }
    r := Ok((None, from));
  }

  method ParseStep(p: Text, from: nat) returns (r: Result<(Step, nat), JsonError>)
    requires from < |p|
    ensures r == StepAt(p, from)
  {
    hide DecimalEnd, DecimalValue, NameEnd, QuoteEnd, Occurrence;
    if p[from] == 0x2E {
      var i := SkipName(p, from + 1);
      if i == from + 1 {
        return Err(BadPath(EmptyMemberName));
      }
      var occurrence := ParseOccurrence(p, i);
      if occurrence.Err? {
        return Err(occurrence.error);
      }
      return Ok((Named(p[from + 1..i], occurrence.value.0), occurrence.value.1));
    }
    if p[from] == 0x5B {
      if from + 1 < |p| && p[from + 1] == 0x22 {
        var i := SkipQuoted(p, from + 2);
        if i == |p| {
          return Err(BadPath(UnterminatedMember));
        }
        if i + 1 >= |p| || p[i + 1] != 0x5D {
          return Err(BadPath(ExpectedCloseBracket));
        }
        var occurrence := ParseOccurrence(p, i + 2);
        if occurrence.Err? {
          return Err(occurrence.error);
        }
        return Ok((Named(p[from + 2..i], occurrence.value.0), occurrence.value.1));
      }
      var i := SkipDigits(p, from + 1);
      if i == from + 1 || i == |p| || p[i] != 0x5D {
        return Err(BadPath(ExpectedIndex));
      }
      var n := DecimalValue(p[from + 1..i]);
      if !(0 <= n < USIZE_LIMIT) {
        return Err(BadPath(BadIndex));
      }
      return Ok((Index(n), i + 1));
    }
    r := Err(BadPath(ExpectedDotOrBracket));
  }

  method Parse(p: Text) returns (r: Result<seq<Step>, JsonError>)
    ensures r == ParsePath(p)
  {
    hide StepAt;
    var steps: seq<Step>, i: nat := [], 0;
    if p != [] && p[0] == DOLLAR {
      i := 1;
    }
    NothingBefore(StepsFrom(p, i));
    while i < |p|
      invariant i <= |p|
      invariant Behind(steps, StepsFrom(p, i)) == ParsePath(p)
    {
      var step := ParseStep(p, i);
      if step.Err? {
        return Err(step.error);
      }
      OneMore(steps, step.value.0, StepsFrom(p, step.value.1));
      steps := steps + [step.value.0];
      i := step.value.1;
    }
    assert steps + [] == steps;
    r := Ok(steps);
  }

  function Behind(steps: seq<Step>, r: Result<seq<Step>, JsonError>): Result<seq<Step>, JsonError> {
    match r
    case Err(e) => Err(e)
    case Ok(rest) => Ok(steps + rest)
  }

  lemma {:induction false} NothingBefore(r: Result<seq<Step>, JsonError>)
    ensures Behind([], r) == r
  {
    if r.Ok? {
      assert [] + r.value == r.value;
    }
  }

  lemma {:induction false} OneMore(steps: seq<Step>, step: Step, r: Result<seq<Step>, JsonError>)
    ensures Behind(steps, Behind([step], r)) == Behind(steps + [step], r)
  {
    if r.Ok? {
      assert steps + ([step] + r.value) == steps + [step] + r.value;
    }
  }
}
