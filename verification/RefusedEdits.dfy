/** How long the conflict file of a refused edit lasts, over any run. */
module RefusedEdits {
  import opened Prelude
  import opened Utf8
  import opened VersionedText
  import opened SharedFile
  import opened SharedRuns

  ghost function NameOf(call: Call): ConflictName
    requires call.phase.Refusing?
  {
    ConflictName(call.phase.expected, call.phase.found, call.pid)
  }

  /** A refusal opens this conflict file, and thereby empties it. */
  ghost predicate RefusesInto(s: State, t: State, name: ConflictName) {
    exists w :: w in s.calls && s.calls[w].phase.Refusing? && NameOf(s.calls[w]) == name && Step(s, w, CreateConflict, t)
  }

  ghost predicate RefusedAt(run: seq<State>, j: nat, name: ConflictName) {
    j + 1 < |run| && RefusesInto(run[j], run[j + 1], name)
  }

  ghost predicate Holds(s: State, name: ConflictName, text: Text) {
    name in s.disk.conflicts && s.disk.conflicts[name] == Blob(text, true)
  }

  /** No call is in the middle of writing this conflict file. */
  ghost predicate Untouched(s: State, name: ConflictName) {
    forall w :: w in s.calls && s.calls[w].phase.Refusing? && s.calls[w].phase.written.Some? ==> NameOf(s.calls[w]) != name
  }

  lemma {:induction false} StepSpares(s: State, w: nat, a: Action, t: State, name: ConflictName, text: Text)
    requires Holds(s, name, text) && Untouched(s, name) && Step(s, w, a, t) && !RefusesInto(s, t, name)
    ensures Holds(t, name, text) && Untouched(t, name)
  {
    hide ReadText, Print, Succ, NewText;
    if a.CreateConflict? {
      assert NameOf(s.calls[w]) != name;
    }
    forall o | o in t.calls && t.calls[o].phase.Refusing? && t.calls[o].phase.written.Some?
      ensures NameOf(t.calls[o]) != name
    {
      if o != w {
        assert t.calls[o] == s.calls[o];
      } else {
        assert NameOf(t.calls[w]) == NameOf(s.calls[w]);
      }
    }
  }

  lemma {:induction false} NextSpares(s: State, t: State, name: ConflictName, text: Text)
    requires Holds(s, name, text) && Untouched(s, name) && Next(s, t) && !RefusesInto(s, t, name)
    ensures Holds(t, name, text) && Untouched(t, name)
  {
    hide Step, RefusesInto;
    if w, a :| Step(s, w, a, t) {
      StepSpares(s, w, a, t, name, text);
    }
  }

  lemma {:induction false} RefusalEmpties(s: State, t: State, name: ConflictName)
    requires RefusesInto(s, t, name)
    ensures name in t.disk.conflicts && t.disk.conflicts[name] == Blob([], false)
  {
  }

  /** Whoever holds the lock is alone, so that nobody is writing a conflict file when it returns. */
  lemma {:induction false} NobodyElse(s: State, w: nat, t: State, base: Option<Versioned>, name: ConflictName)
    requires Inv(s, base) && Step(s, w, Action.Leave, t)
    ensures Untouched(t, name)
  {
    hide DiskOk, LogOk, CallOk;
  }

  lemma {:induction false} SparedSoFar(run: seq<State>, n: nat, m: nat, name: ConflictName, text: Text)
    requires IsRun(run) && n <= m < |run| && Holds(run[n], name, text) && Untouched(run[n], name)
    requires forall j :: n <= j < m ==> !RefusedAt(run, j, name)
    ensures Holds(run[m], name, text) && Untouched(run[m], name)
    decreases m
  {
    hide Init, Next, Holds, Untouched, RefusesInto;
    if m > n {
      SparedSoFar(run, n, m - 1, name, text);
      assert Next(run[m - 1], run[m]);
      assert !RefusedAt(run, m - 1, name);
      NextSpares(run[m - 1], run[m], name, text);
    }
  }

  lemma {:induction false} KeptAtReturn(s: State, w: nat, t: State, base: Option<Versioned>)
    requires Inv(s, base) && Step(s, w, Action.Leave, t) && s.calls[w].phase.report.Refused?
    ensures var call, name := s.calls[w], s.calls[w].phase.report.name;
            && call.job.WriteIfUnchanged? && Untouched(t, name)
            && Holds(t, name, Print(call.job.expected, call.job.body))
  {
    hide DiskOk, LogOk, LockOk, Print, Current, Untouched;
    assert CallOk(s, w, s.calls[w]);
    NobodyElse(s, w, t, base, s.calls[w].phase.report.name);
  }

  lemma {:induction false} LastsUntil(run: seq<State>, n: nat, m: nat, name: ConflictName, text: Text)
    requires IsRun(run) && n <= m < |run| && Holds(run[n], name, text) && Untouched(run[n], name) && text != []
    ensures (forall j :: n <= j <= m ==> Holds(run[j], name, text))
       <==> (forall j :: n <= j < m ==> !RefusedAt(run, j, name))
  {
    hide IsRun, RefusesInto, Untouched;
    if forall j :: n <= j < m ==> !RefusedAt(run, j, name) {
      forall j | n <= j <= m ensures Holds(run[j], name, text) {
        SparedSoFar(run, n, j, name, text);
      }
    } else {
      var j :| n <= j < m && RefusedAt(run, j, name);
      RefusalEmpties(run[j], run[j + 1], name);
      assert !Holds(run[j + 1], name, text);
    }
  }

  /**
    A refused edit lasts exactly until a refusal with the same name, that is with the same expected and found
    version in the same process: through any other step, crash or power failure it stays complete and synced.
   */
  lemma {:induction false} RefusedEditLasts(run: seq<State>, n: nat, m: nat, w: nat)
    requires IsRun(run) && n < m < |run| && Step(run[n], w, Action.Leave, run[n + 1])
    requires run[n].calls[w].phase.report.Refused?
    ensures var call, name := run[n].calls[w], run[n].calls[w].phase.report.name;
            && call.job.WriteIfUnchanged?
            && ((forall j :: n < j <= m ==> Holds(run[j], name, Print(call.job.expected, call.job.body)))
                <==> (forall j :: n < j < m ==> !RefusedAt(run, j, name)))
  {
    hide Inv, Print, IsRun, RefusesInto, Untouched, Holds, Current;
    RunKeepsInv(run, n);
    var call := run[n].calls[w];
    KeptAtReturn(run[n], w, run[n + 1], Current(run[0].disk));
    PrintIsNotEmpty(call.job.expected, call.job.body);
    LastsUntil(run, n + 1, m, call.phase.report.name, Print(call.job.expected, call.job.body));
  }

  // ---------------------------------------------------------------- a later refusal takes its place

  ghost function Now(run: seq<State>): State
    requires run != []
  {
    run[|run| - 1]
  }

  lemma {:induction false} Extended(run: seq<State>, t: State)
    requires IsRun(run) && Next(Now(run), t)
    ensures IsRun(run + [t])
  {
    hide Next, Init;
    var more := run + [t];
    assert more[0] == run[0];
    forall i | 0 < i < |more| ensures Next(more[i - 1], more[i]) {
      assert more[i - 1] == run[i - 1];
      assert i < |run| ==> more[i] == run[i];
    }
  }

  lemma {:induction false} ExtendedByStep(run: seq<State>, w: nat, a: Action, t: State)
    requires IsRun(run) && Step(Now(run), w, a, t)
    ensures IsRun(run + [t])
  {
    hide Step, IsRun;
    Extended(run, t);
  }

  ghost predicate Idle(s: State, version: U64) {
    s.lock.None? && Current(s.disk).Some? && Current(s.disk).value.version == version
  }

  /** The state of a call that has come this far. */
  ghost function At(s: State, w: nat, pid: nat, job: Job, lock: Option<nat>, phase: Phase): State {
    s.(lock := lock, calls := s.calls[w := Call(pid, job, phase)])
  }

  /** A compare-and-swap up to the verdict. */
  lemma {:induction false} MeetsAnotherVersion(run: seq<State>, w: nat, pid: nat, expected: U64, found: U64, body: Text)
      returns (next: seq<State>)
    requires IsRun(run) && Idle(Now(run), found) && w !in Now(run).calls && expected != found
    ensures IsRun(next) && run <= next
    ensures Now(next) == At(Now(run), w, pid, WriteIfUnchanged(expected, body), Some(w), Refusing(expected, body, found, None))
  {
    hide IsRun, ReadText;
    assert run != [] by { NotEmpty(run); }
    var s, job := Now(run), WriteIfUnchanged(expected, body);
    var s1 := At(s, w, pid, job, None, Waiting);
    assert Begins(s, w, pid, job, s1);
    Extended(run, s1);
    var s2 := At(s, w, pid, job, Some(w), Locked);
    assert s2.calls == s1.calls[w := Call(pid, job, Locked)];
    assert Step(s1, w, Acquire, s2);
    ExtendedByStep(run + [s1], w, Acquire, s2);
    var s3 := At(s, w, pid, job, Some(w), Refusing(expected, body, found, None));
    assert s3.calls == s2.calls[w := Call(pid, job, Refusing(expected, body, found, None))];
    assert Step(s2, w, Load, s3);
    ExtendedByStep(run + [s1] + [s2], w, Load, s3);
    next := run + [s1] + [s2] + [s3];
  }

  lemma {:induction false} NotEmpty(run: seq<State>)
    requires IsRun(run)
    ensures run != []
  {
  }

  /** From the verdict to the report. */
  lemma {:induction false} WritesConflict(run: seq<State>, w: nat, pid: nat, expected: U64, found: U64, body: Text)
      returns (next: seq<State>)
    requires IsRun(run) && w in Now(run).calls && Now(run).lock == Some(w)
    requires Now(run).calls[w] == Call(pid, WriteIfUnchanged(expected, body), Refusing(expected, body, found, None))
    ensures IsRun(next) && run <= next
    ensures var name := ConflictName(expected, found, pid);
            Now(next) == At(Now(run), w, pid, WriteIfUnchanged(expected, body), Some(w), Leaving(Refused(name))).(
                           disk := Noted(Now(run).disk, name, Blob(Print(expected, body), true)))
  {
    hide IsRun, Print;
    assert run != [] by { NotEmpty(run); }
    PrintIsNotEmpty(expected, body);
    var s, job := Now(run), WriteIfUnchanged(expected, body);
    var name, text := ConflictName(expected, found, pid), Print(expected, body);
    var s1 := At(s, w, pid, job, Some(w), Refusing(expected, body, found, Some(0))).(
      disk := Noted(s.disk, name, Blob([], false)));
    assert Step(s, w, CreateConflict, s1);
    ExtendedByStep(run, w, CreateConflict, s1);
    var s2 := At(s, w, pid, job, Some(w), Refusing(expected, body, found, Some(|text|))).(
      disk := Noted(s.disk, name, Blob(text, false)));
    assert text[..|text|] == text;
    assert s2.disk.conflicts == s1.disk.conflicts[name := Blob(text, false)];
    assert s2.calls == s1.calls[w := Call(pid, job, Refusing(expected, body, found, Some(|text|)))];
    assert Step(s1, w, Action.WriteConflict(|text|), s2);
    ExtendedByStep(run + [s1], w, Action.WriteConflict(|text|), s2);
    var s3 := At(s, w, pid, job, Some(w), Leaving(Refused(name))).(disk := Noted(s.disk, name, Blob(text, true)));
    assert s3.disk.conflicts == s2.disk.conflicts[name := Blob(text, true)];
    assert s3.calls == s2.calls[w := Call(pid, job, Leaving(Refused(name)))];
    assert Step(s2, w, SyncConflict, s3);
    ExtendedByStep(run + [s1] + [s2], w, SyncConflict, s3);
    next := run + [s1] + [s2] + [s3];
  }

  lemma {:induction false} PrintIsNotEmpty(version: U64, body: Text)
    ensures Print(version, body) != []
  {
  }

  lemma {:induction false} Leaves(run: seq<State>, w: nat) returns (next: seq<State>)
    requires IsRun(run) && w in Now(run).calls && Now(run).calls[w].phase.Leaving?
    ensures IsRun(next) && next == run + [Now(next)] && Step(Now(run), w, Action.Leave, Now(next))
    ensures Now(next).lock.None? && Now(next).disk == Now(run).disk && Now(next).calls.Keys == Now(run).calls.Keys
  {
    hide IsRun;
    assert run != [] by { NotEmpty(run); }
    var s := Now(run);
    var t := s.(lock := None, calls := s.calls[w := s.calls[w].(phase := Returned(s.calls[w].phase.report))]);
    assert Step(s, w, Action.Leave, t);
    ExtendedByStep(run, w, Action.Leave, t);
    next := run + [t];
  }

  /** One version of the file, and nobody at work. */
  ghost function Start(version: U64, body: Text): State {
    State(Disk(map[0 := Blob(Print(version, body), true)], Some(0), map[], map[]), None, map[], [])
  }

  lemma {:induction false} Starts(version: U64, body: Text)
    ensures IsRun([Start(version, body)]) && Idle(Start(version, body), version)
  {
    hide Print, Parse;
    ParseInvertsPrint(version, body);
  }

  lemma {:induction false} StillIdle(s: State, t: State, version: U64)
    requires Idle(s, version) && t.lock.None? && t.disk.main == s.disk.main && t.disk.inodes == s.disk.inodes
    ensures Idle(t, version)
  {
    hide ReadText;
  }

  lemma {:induction false} DifferentBodies(version: U64, a: Text, b: Text)
    requires a != b
    ensures Print(version, a) != Print(version, b)
  {
    ParseInvertsPrint(version, a);
    ParseInvertsPrint(version, b);
  }

  /** A process that is refused twice in the same way keeps its second edit only. */
  lemma {:induction false} LaterRefusalOverwrites(
      pid: nat, found: U64, expected: U64, body: Text, first: Text, second: Text)
      returns (run: seq<State>, n: nat)
    requires expected != found && first != second
    ensures IsRun(run) && n + 1 < |run| && Step(run[n], 0, Action.Leave, run[n + 1])
    ensures run[n].calls[0] == Call(pid, WriteIfUnchanged(expected, first), Leaving(Refused(ConflictName(expected, found, pid))))
    ensures var name := ConflictName(expected, found, pid);
            && Holds(run[n + 1], name, Print(expected, first)) && !Holds(Now(run), name, Print(expected, first))
            && Holds(Now(run), name, Print(expected, second))
  {
    hide IsRun, Step, Print, ReadText;
    var name := ConflictName(expected, found, pid);
    Starts(found, body);
    var s0 := Start(found, body);
    var r1 := MeetsAnotherVersion([s0], 0, pid, expected, found, first);
    var r2 := WritesConflict(r1, 0, pid, expected, found, first);
    var r3 := Leaves(r2, 0);
    n := |r2| - 1;
    assert r3[n] == Now(r2) && r3[n + 1] == Now(r3);
    StillIdle(s0, Now(r3), found);
    var r4 := MeetsAnotherVersion(r3, 1, pid, expected, found, second);
    run := WritesConflict(r4, 1, pid, expected, found, second);
    assert run[n] == r3[n] && run[n + 1] == r3[n + 1];
    DifferentBodies(expected, first, second);
  }
}
