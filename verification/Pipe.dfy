/** `--pipe`: every frame of the stream is decoded, classified and put through the policy, or the stream stops. */
module Pipe {
  import opened Prelude
  import opened Utf8
  import opened RespValue
  import opened Decoder
  import opened DecoderLaws

  datatype Effects = Effects(
    readsData: bool, writesData: bool, consumes: bool, blocks: bool, admin: bool, destructive: bool, unknown: bool)

  datatype Policy = Policy(allowWrites: bool, allowDestructive: bool, allowUnclassified: bool, allowPipe: bool)

  datatype Reason = Unclassified | Destructive | Writes

  datatype Stop =
    | PipeDenied
    | NotACommand(index: nat, offset: nat)
    | Malformed(index: nat, offset: nat, error: DecodeError)
    | Truncated(index: nat, offset: nat)
    | Refused(index: nat, command: Text, reason: Reason)

  datatype Admitted = Admitted(index: nat, args: seq<Bytes>, effects: Effects)

  datatype Admission = Admission(accepted: seq<Admitted>, stopped: Option<Stop>)

  /**
    `str::to_uppercase`, and the local catalog of upper-case names: a command that it does not list has
    unknown effects.
   */
  datatype Catalog = Catalog(upper: Text -> Text, known: Text -> Option<Effects>)

  const UNKNOWN := Effects(false, false, false, false, false, false, true)

  /** The default limits of the decoder. */
  const DEFAULTS := Budget(64, 1024 * 1024, 16 * 1024 * 1024, 64 * 1024 * 1024)

  /** The name under which a command is looked up and reported. */
  function Name(command: Bytes, catalog: Catalog): Text {
    catalog.upper(Lossy(command))
  }

  function Classify(name: Text, catalog: Catalog): Effects {
    match catalog.known(name)
    case Some(e) => e
    case None => UNKNOWN
  }

  function RefuseReason(e: Effects, p: Policy): Option<Reason> {
    if e.unknown && !p.allowUnclassified then Some(Unclassified)
    else if e.destructive && !p.allowDestructive then Some(Destructive)
    else if (e.writesData || e.consumes || e.admin) && !p.allowWrites then Some(Writes)
    else None
  }

  /** Each permission a command needs is granted. */
  predicate Permits(p: Policy, e: Effects) {
    && (e.unknown ==> p.allowUnclassified)
    && (e.destructive ==> p.allowDestructive)
    && (e.writesData || e.consumes || e.admin ==> p.allowWrites)
  }

  function Payloads(items: seq<Value>): seq<Bytes>
    requires forall k :: 0 <= k < |items| ==> items[k].Bulk?
  {
    seq(|items|, k requires 0 <= k < |items| => items[k].data)
  }

  /** A command is a non-empty array of bulk strings. */
  function AsCommand(v: Value): (r: Option<seq<Bytes>>)
    ensures r.Some? ==> r.value != []
  {
    if v.Array? && v.items != [] && forall k :: 0 <= k < |v.items| ==> v.items[k].Bulk?
    then Some(Payloads(v.items))
    else None
  }

  /** The loop of `as_command`. */
  method ReadCommand(v: Value) returns (r: Option<seq<Bytes>>)
    ensures r == AsCommand(v)
  {
    if !v.Array? || v.items == [] {
      return None;
    }
    var out: seq<Bytes> := [];
    for k := 0 to |v.items|
      invariant |out| == k && forall m :: 0 <= m < k ==> v.items[m].Bulk? && out[m] == v.items[m].data
    {
      if !v.items[k].Bulk? {
        return None;
      }
      out := out + [v.items[k].data];
    }
    assert out == Payloads(v.items);
    r := Some(out);
  }

  /** What a decoded frame becomes: an admitted request, or the reason to stop. */
  function Judge(v: Value, index: nat, offset: nat, policy: Policy, catalog: Catalog): Result<Admitted, Stop> {
    match AsCommand(v)
    case None => Err(NotACommand(index, offset))
    case Some(args) =>
      var effects := Classify(Name(args[0], catalog), catalog);
      match RefuseReason(effects, policy)
      case Some(reason) => Err(Refused(index, Name(args[0], catalog), reason))
      case None => Ok(Admitted(index, args, effects))
  }

  function AdmitFrom(buf: Bytes, index: nat, offset: nat, policy: Policy, catalog: Catalog, budget: Budget): Admission
    decreases |buf|
  {
    match Attempt(buf, budget)
    case More => Admission([], if buf == [] then None else Some(Truncated(index, offset)))
    case Fail(e) => Admission([], Some(Malformed(index, offset, e)))
    case Got(v, end) =>
      match Judge(v, index, offset, policy, catalog)
      case Err(stop) => Admission([], Some(stop))
      case Ok(request) => Joined([request], AdmitFrom(buf[end..], index + 1, offset + end, policy, catalog, budget))
  }

  function Joined(first: seq<Admitted>, rest: Admission): Admission {
    Admission(first + rest.accepted, rest.stopped)
  }

  function Admit(input: Bytes, policy: Policy, catalog: Catalog, budget: Budget): Admission {
    if !policy.allowPipe then Admission([], Some(PipeDenied)) else AdmitFrom(input, 0, 0, policy, catalog, budget)
  }

  lemma {:induction false} JoinedOnce(
      accepted: seq<Admitted>, buf: Bytes, index: nat, offset: nat, policy: Policy, catalog: Catalog, budget: Budget)
    ensures Joined(accepted, AdmitFrom(buf, index, offset, policy, catalog, budget)) == (
      match Attempt(buf, budget)
      case More => Admission(accepted, if buf == [] then None else Some(Truncated(index, offset)))
      case Fail(e) => Admission(accepted, Some(Malformed(index, offset, e)))
      case Got(v, end) =>
        match Judge(v, index, offset, policy, catalog)
        case Err(stop) => Admission(accepted, Some(stop))
        case Ok(request) =>
          Joined(accepted + [request], AdmitFrom(buf[end..], index + 1, offset + end, policy, catalog, budget)))
  {
    hide Attempt, Judge;
    assert accepted + [] == accepted;
    match Attempt(buf, budget)
    case Got(v, end) =>
      if Judge(v, index, offset, policy, catalog).Ok? {
        var request := Judge(v, index, offset, policy, catalog).value;
        var rest := AdmitFrom(buf[end..], index + 1, offset + end, policy, catalog, budget);
        assert accepted + ([request] + rest.accepted) == accepted + [request] + rest.accepted;
      }
    case _ =>
  }

  /** The loop of `admit`. */
  method AdmitStream(input: Bytes, policy: Policy, catalog: Catalog) returns (r: Admission)
    ensures r == Admit(input, policy, catalog, DEFAULTS)
  {
    hide AdmitFrom, Attempt, RefuseReason, Classify;
    var accepted: seq<Admitted> := [];
    if !policy.allowPipe {
      return Admission(accepted, Some(PipeDenied));
    }
    var dec := new Decoder(DEFAULTS);
    dec.Feed(input);
    assert [] + input == input;
    var index: nat, offset: nat := 0, 0;
    NothingJoined(AdmitFrom(input, 0, 0, policy, catalog, DEFAULTS));
    while true
      invariant dec.budget == DEFAULTS
      invariant Joined(accepted, AdmitFrom(dec.buf, index, offset, policy, catalog, DEFAULTS))
             == AdmitFrom(input, 0, 0, policy, catalog, DEFAULTS)
      decreases |dec.buf|
    {
      JoinedOnce(accepted, dec.buf, index, offset, policy, catalog, DEFAULTS);
      var before := |dec.buf|;
      var step := dec.Decode();
      if step.Got? {
        var consumed := before - |dec.buf|;
        var frameOffset := offset;
        offset := offset + consumed;
        var args := ReadCommand(step.value);
        if args.None? {
          return Admission(accepted, Some(NotACommand(index, frameOffset)));
        }
        var name := catalog.upper(Lossy(args.value[0]));
        var effects := Classify(name, catalog);
        var reason := RefuseReason(effects, policy);
        if reason.Some? {
          return Admission(accepted, Some(Refused(index, name, reason.value)));
        }
        accepted := accepted + [Admitted(index, args.value, effects)];
        index := index + 1;
      } else if step.More? {
        return Admission(accepted, if |dec.buf| == 0 then None else Some(Truncated(index, offset)));
      } else {
        return Admission(accepted, Some(Malformed(index, offset, step.error)));
      }
    }
  }

  lemma {:induction false} NothingJoined(a: Admission)
    ensures Joined([], a) == a
  {
    assert [] + a.accepted == a.accepted;
  }

  // ---------------------------------------------------------------- what is admitted, and why it stops

  /** The octets that the first `n` frames take. */
  function Consumed(buf: Bytes, n: nat, budget: Budget): nat
    decreases n
  {
    if n == 0 then 0
    else
      match Attempt(buf, budget)
      case Got(_, end) => end + Consumed(buf[end..], n - 1, budget)
      case _ => 0
  }

  /** Why admission stops at a frame, or behind the last one. */
  function StopAt(d: Drained, n: nat, index: nat, offset: nat, policy: Policy, catalog: Catalog): Option<Stop>
    requires n <= |d.values|
  {
    if n < |d.values| then
      match Judge(d.values[n], index, offset, policy, catalog)
      case Err(stop) => Some(stop)
      case Ok(_) => None
    else if d.error.Some? then Some(Malformed(index, offset, d.error.value))
    else if d.rest != [] then Some(Truncated(index, offset))
    else None
  }

  /** The frame is a command whose effects, as the catalog knows them, the policy permits. */
  predicate IsAdmissible(v: Value, policy: Policy, catalog: Catalog) {
    AsCommand(v).Some? && Permits(policy, Classify(Name(AsCommand(v).value[0], catalog), catalog))
  }

  predicate IsAdmitted(a: Admitted, v: Value, index: nat, policy: Policy, catalog: Catalog) {
    && IsAdmissible(v, policy, catalog)
    && a == Admitted(index, AsCommand(v).value, Classify(Name(AsCommand(v).value[0], catalog), catalog))
  }

  /** `v` is the command of these arguments: an array of bulk strings, at least one. */
  predicate IsCommandOf(v: Value, args: seq<Bytes>) {
    v.Array? && args != [] && |v.items| == |args| && forall k :: 0 <= k < |args| ==> v.items[k] == Bulk(args[k])
  }

  /** A listed command needs the permissions its effects call for, and one that is not listed that for the unclassified. */
  predicate MayRun(name: Text, policy: Policy, catalog: Catalog) {
    match catalog.known(name)
    case None => policy.allowUnclassified
    case Some(e) =>
      && (e.unknown ==> policy.allowUnclassified) && (e.destructive ==> policy.allowDestructive)
      && (e.writesData ==> policy.allowWrites) && (e.consumes ==> policy.allowWrites) && (e.admin ==> policy.allowWrites)
  }

  lemma {:induction false} CommandIff(v: Value, args: seq<Bytes>)
    ensures IsCommandOf(v, args) <==> AsCommand(v) == Some(args)
  {
    if IsCommandOf(v, args) {
      assert Payloads(v.items) == args;
    }
  }

  /** What is admitted, without the words of the classifier. */
  lemma {:induction false} AdmissibleIff(v: Value, policy: Policy, catalog: Catalog)
    ensures IsAdmissible(v, policy, catalog) <==>
              exists args :: IsCommandOf(v, args) && MayRun(catalog.upper(Lossy(args[0])), policy, catalog)
  {
    hide AsCommand, IsCommandOf, Lossy;
    if AsCommand(v).Some? {
      CommandIff(v, AsCommand(v).value);
    }
    forall args | IsCommandOf(v, args) ensures AsCommand(v) == Some(args) {
      CommandIff(v, args);
    }
  }

  /** Why a command is refused: for being unclassified before being destructive, and for that before writing. */
  lemma {:induction false} RefusedFor(v: Value, args: seq<Bytes>, index: nat, offset: nat, policy: Policy, catalog: Catalog)
    requires IsCommandOf(v, args)
    ensures var name := catalog.upper(Lossy(args[0])); var known := catalog.known(name);
            var r := Judge(v, index, offset, policy, catalog);
            && (r.Ok? <==> MayRun(name, policy, catalog))
            && (r.Err? ==> r.error.Refused? && r.error.index == index && r.error.command == name)
            && (r.Err? ==> (r.error.reason.Unclassified? <==> (known.Some? ==> known.value.unknown) && !policy.allowUnclassified))
            && (r.Err? && known.Some? && !r.error.reason.Unclassified? ==>
                  (r.error.reason.Destructive? <==> known.value.destructive && !policy.allowDestructive))
  {
    hide AsCommand, IsCommandOf, Lossy;
    CommandIff(v, args);
  }

  /** Anything but a command stops the stream. */
  lemma {:induction false} NoCommandStops(v: Value, index: nat, offset: nat, policy: Policy, catalog: Catalog)
    ensures (forall args :: !IsCommandOf(v, args)) <==> Judge(v, index, offset, policy, catalog) == Err(NotACommand(index, offset))
  {
    hide AsCommand, IsCommandOf, Lossy;
    if AsCommand(v).Some? {
      CommandIff(v, AsCommand(v).value);
    }
    forall args | IsCommandOf(v, args) ensures AsCommand(v) == Some(args) {
      CommandIff(v, args);
    }
  }

  lemma {:induction false} JudgedByPermission(v: Value, index: nat, offset: nat, policy: Policy, catalog: Catalog)
    ensures var r := Judge(v, index, offset, policy, catalog);
            && (r.Ok? <==> IsAdmissible(v, policy, catalog))
            && (r.Ok? ==> IsAdmitted(r.value, v, index, policy, catalog))
  {
    hide AsCommand, Classify;
  }

  /**
    Fail-closed: the accepted requests are the stream's leading frames that are commands the policy
    permits, numbered without a gap; nothing behind the first other frame is accepted; and the stop names
    that frame by its index and by the number of octets of the frames before it.
   */
  lemma {:induction false} FailsClosed(
      buf: Bytes, index: nat, offset: nat, policy: Policy, catalog: Catalog, budget: Budget)
    ensures var a, d := AdmitFrom(buf, index, offset, policy, catalog, budget), Drain(buf, budget);
            var n := |a.accepted|;
            && n <= |d.values|
            && (forall k :: 0 <= k < n ==> IsAdmitted(a.accepted[k], d.values[k], index + k, policy, catalog))
            && (n < |d.values| ==> !IsAdmissible(d.values[n], policy, catalog))
            && a.stopped == StopAt(d, n, index + n, offset + Consumed(buf, n, budget), policy, catalog)
    decreases |buf|
  {
    hide Attempt, Judge, IsAdmissible, IsAdmitted, Drain;
    DrainOnce(buf, budget);
    match Attempt(buf, budget)
    case Got(v, end) =>
      JudgedByPermission(v, index, offset, policy, catalog);
      if Judge(v, index, offset, policy, catalog).Ok? {
        FailsClosed(buf[end..], index + 1, offset + end, policy, catalog, budget);
      }
    case _ =>
  }

  // ---------------------------------------------------------------- policies

  predicate AtLeastAsStrict(p: Policy, q: Policy) {
    && (p.allowWrites ==> q.allowWrites) && (p.allowDestructive ==> q.allowDestructive)
    && (p.allowUnclassified ==> q.allowUnclassified) && (p.allowPipe ==> q.allowPipe)
  }

  lemma {:induction false} StricterFrom(
      buf: Bytes, index: nat, offset: nat, p: Policy, q: Policy, catalog: Catalog, budget: Budget)
    requires AtLeastAsStrict(p, q)
    ensures AdmitFrom(buf, index, offset, p, catalog, budget).accepted
         <= AdmitFrom(buf, index, offset, q, catalog, budget).accepted
    decreases |buf|
  {
    hide Attempt, AsCommand, Classify;
    match Attempt(buf, budget)
    case Got(v, end) => StricterFrom(buf[end..], index + 1, offset + end, p, q, catalog, budget);
    case _ =>
  }

  /** A stricter policy accepts a prefix of what a looser one accepts. */
  lemma {:induction false} StricterAcceptsPrefix(input: Bytes, p: Policy, q: Policy, catalog: Catalog, budget: Budget)
    requires AtLeastAsStrict(p, q)
    ensures Admit(input, p, catalog, budget).accepted <= Admit(input, q, catalog, budget).accepted
  {
    hide AdmitFrom;
    StricterFrom(input, 0, 0, p, q, catalog, budget);
  }

  // ---------------------------------------------------------------- longer input

  predicate IsFinal(a: Admission) {
    a.stopped.Some? && !a.stopped.value.Truncated?
  }

  lemma {:induction false} MoreInputFrom(
      buf: Bytes, more: Bytes, index: nat, offset: nat, policy: Policy, catalog: Catalog, budget: Budget)
    requires |buf| + |more| <= budget.maxFrameBytes
    ensures var a, b := AdmitFrom(buf, index, offset, policy, catalog, budget),
                        AdmitFrom(buf + more, index, offset, policy, catalog, budget);
            a.accepted <= b.accepted && (IsFinal(a) ==> b == a)
    decreases |buf|
  {
    hide Attempt, Judge;
    AttemptIsStable(buf, more, budget);
    match Attempt(buf, budget)
    case Got(v, end) =>
      assert (buf + more)[end..] == buf[end..] + more;
      MoreInputFrom(buf[end..], more, index + 1, offset + end, policy, catalog, budget);
    case _ =>
  }

  /** Input that overruns the decoder's buffer limit is refused as a whole. */
  lemma {:induction false} TooLongIsRefused(input: Bytes, policy: Policy, catalog: Catalog, budget: Budget)
    requires |input| > budget.maxFrameBytes && policy.allowPipe
    ensures Admit(input, policy, catalog, budget) == Admission([], Some(Malformed(0, 0, OverBudget)))
  {
    hide ParseValue;
  }

  /**
    Appending input only extends what is accepted, and cannot undo a refusal, exactly as long as the
    whole input stays within the decoder's buffer limit: beyond it even the frames accepted before are lost.
   */
  lemma {:induction false} MoreInputExtends(
      input: Bytes, more: Bytes, policy: Policy, catalog: Catalog, budget: Budget)
    ensures var a, b := Admit(input, policy, catalog, budget), Admit(input + more, policy, catalog, budget);
            && (a.accepted <= b.accepted <==> |input + more| <= budget.maxFrameBytes || a.accepted == [])
            && (|input + more| <= budget.maxFrameBytes && IsFinal(a) ==> b == a)
  {
    hide AdmitFrom;
    if policy.allowPipe {
      if |input + more| <= budget.maxFrameBytes {
        MoreInputFrom(input, more, 0, 0, policy, catalog, budget);
      } else {
        TooLongIsRefused(input + more, policy, catalog, budget);
      }
    }
  }
}
