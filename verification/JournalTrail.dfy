/**
  Which runs lose track of a secret. A lapse is an event after which reconciliation may pass over a secret
  in silence; without lapses it reports every stored secret that no profile references, and each single
  kind of lapse is enough to hide one.
 */
module JournalTrail {
  import opened Prelude
  import opened Utf8
  import opened Journal
  import opened Reconciling
  import opened JournalRuns

  /**
    `Overtaken`: a binding replaces another reference than the one it read when it started.
    `Abandoned`: a binding crashes between installing its reference and its committed record.
    `Overwritten`: a cleaned record lands on a binding whose committed record still names a stored secret.
    `Dropped` and `Truncated`: somebody removes a profile, or the journal.
   */
  datatype Lapse = Overtaken | Abandoned | Overwritten | Dropped | Truncated

  /** The last record of the binding of `ref` says that a stored secret is superseded. */
  ghost predicate StillNamesASecret(s: World, name: Text, ref: Text) {
    exists e :: IsLast(s.journal, e) && e.profile == name && e.ref == ref && Supersession(e) && e.supersedes.value in s.secrets
  }

  predicate Supersession(e: Entry) {
    e.stage.Committed? && e.supersedes.Some?
  }

  /** The step that process `w` takes shows the lapse, which is known before the step is taken. */
  ghost predicate Shows(s: World, w: nat, a: Action, l: Lapse) {
    && w in s.processes
    && match (l, a, s.processes[w])
       case (Overtaken, BindProfile, Binding(profile, _, prior, _)) => CurrentRef(s, profile) != prior
       case (Abandoned, Crash, Binding(_, _, _, Bound)) => true
       case (Overwritten, LogCleaned, Binding(profile, _, Some(ref), _)) => StillNamesASecret(s, profile, ref)
       case (Overwritten, LogOne, Cleaning(name, todo, _)) => todo != [] && StillNamesASecret(s, name, todo[0])
       case _ => false
  }

  /** A transition with no lapses other than these. */
  ghost predicate Moves(s: World, t: World, lapses: set<Lapse>) {
    || (exists w, a :: Step(s, w, a, t) && forall l :: Shows(s, w, a, l) ==> l in lapses)
    || (Dropped in lapses && exists p :: t == s.(profiles := s.profiles - {p}))
    || (Truncated in lapses && t == s.(journal := []))
  }

  ghost predicate Path(run: seq<World>, lapses: set<Lapse>) {
    run != [] && Init(run[0]) && forall i :: 0 < i < |run| ==> Moves(run[i - 1], run[i], lapses)
  }

  lemma {:induction false} PathIsRun(run: seq<World>, lapses: set<Lapse>)
    requires Path(run, lapses)
    ensures IsRun(run)
  {
    hide Step, Shows, Init;
    forall i | 0 < i < |run| ensures Next(run[i - 1], run[i]) {
      assert Moves(run[i - 1], run[i], lapses);
    }
  }

  lemma {:induction false} MoreLapses(run: seq<World>, lapses: set<Lapse>, more: set<Lapse>)
    requires Path(run, lapses) && lapses <= more
    ensures Path(run, more)
  {
    hide Step, Shows, Init;
    forall i | 0 < i < |run| ensures Moves(run[i - 1], run[i], more) {
      assert Moves(run[i - 1], run[i], lapses);
    }
  }

  // ---------------------------------------------------------------- the trail of a secret

  /** A process that has replaced `x` and is about to say so. */
  predicate Holds(p: Process, x: Text) {
    p.Binding? && p.phase.Bound? && p.supersedes == Some(x)
  }

  ghost predicate Held(s: World, x: Text) {
    exists w :: w in s.processes && Holds(s.processes[w], x)
  }

  ghost predicate CommittedFor(journal: seq<Entry>, x: Text) {
    exists e :: IsLast(journal, e) && e.stage.Committed? && e.supersedes == Some(x)
  }

  ghost predicate PendingFor(journal: seq<Entry>, x: Text) {
    exists e :: IsLast(journal, e) && e.stage.Pending? && e.ref == x
  }

  /** The record that a step appends, if any. */
  function Written(p: Process, a: Action): seq<Entry> {
    match (a, p)
    case (WriteAhead, Binding(profile, ref, prior, _)) => [Entry(profile, ref, prior, Stage.Pending)]
    case (Commit, Binding(profile, ref, prior, _)) => [Entry(profile, ref, prior, Stage.Committed)]
    case (LogCleaned, Binding(profile, _, Some(ref), _)) => [CleanedEntry(profile, ref)]
    case (LogOne, Cleaning(name, todo, _)) => if todo == [] then [] else [CleanedEntry(name, todo[0])]
    case _ => []
  }

  lemma {:induction false} StepWrites(s: World, w: nat, a: Action, t: World)
    requires Step(s, w, a, t)
    ensures t.journal == s.journal + if w in s.processes then Written(s.processes[w], a) else []
  {
    hide Reconciled, Latest;
  }

  lemma {:induction false} LastStays(journal: seq<Entry>, more: seq<Entry>, e: Entry)
    requires IsLast(journal, e) && |more| <= 1 && (more != [] ==> !SamePair(more[0], e))
    ensures IsLast(journal + more, e)
  {
    hide IsLast, SamePair;
    if more == [] {
      assert journal + more == journal;
    } else {
      assert more == [more[0]];
      LastOfMore(journal, more[0]);
    }
  }

  lemma {:induction false} NewIsLast(journal: seq<Entry>, e: Entry)
    ensures IsLast(journal + [e], e)
  {
    hide IsLast, SamePair;
    LastOfMore(journal, e);
  }

  /** A binding that has not committed finds no committed record of its own reference. */
  ghost predicate NotYetCommitted(s: World, p: Process) {
    p.Binding? && (p.phase.Minted? || p.phase.Journalled? || p.phase.Stored? || p.phase.Bound?) ==>
      forall k :: 0 <= k < |s.journal| && s.journal[k].stage.Committed? ==> s.journal[k].ref != p.ref
  }

  ghost predicate UsedOnceBound(s: World, p: Process) {
    p.Binding? && (p.phase.Bound? || p.phase.Committed? || p.phase.Checked? || p.phase.Deleted?) ==> p.ref in s.used
  }

  /** Holds in every run, with any lapses. */
  ghost predicate Orderly(s: World) {
    && Inv(s)
    && (forall k :: 0 <= k < |s.journal| ==> s.journal[k].ref in s.minted)
    && (forall w :: w in s.processes ==> NotYetCommitted(s, s.processes[w]) && UsedOnceBound(s, s.processes[w]))
  }

  /** Secrets stored but never used by a profile: their write-ahead record is still the last. */
  ghost predicate UnusedTracked(first: World, s: World) {
    && (forall x :: x in s.secrets && x !in s.used && x !in first.secrets ==> PendingFor(s.journal, x))
    && (forall w :: w in s.processes && s.processes[w].Binding? && s.processes[w].phase.Journalled? ==>
          PendingFor(s.journal, s.processes[w].ref))
  }

  /** Secrets that were in use and are not any more. */
  ghost predicate RetiredTracked(s: World) {
    forall x :: x in s.secrets && Retired(s, x) ==> Held(s, x) || CommittedFor(s.journal, x)
  }

  // ---------------------------------------------------------------- kept by every step

  lemma {:induction false} WrittenRefs(s: World, w: nat, a: Action, t: World, e: Entry)
    requires Orderly(s) && Step(s, w, a, t) && w in s.processes && e in Written(s.processes[w], a)
    ensures e.ref in s.minted
    ensures e.stage.Committed? ==> s.processes[w].Binding? && s.processes[w].phase.Bound? && e.ref == s.processes[w].ref
    ensures e.stage.Committed? || e.stage.Cleaned? ==> e.ref in s.used
  {
    hide Reconciled, Latest, NotYetCommitted, FreshRefs, EntryOk;
    var p := s.processes[w];
    assert ProcessOk(s, p) && UsedOnceBound(s, p);
  }

  lemma {:induction false} StepKeepsOrder(s: World, w: nat, a: Action, t: World)
    requires Orderly(s) && Step(s, w, a, t)
    ensures Orderly(t)
  {
    StepKeepsInv(s, w, a, t);
    StepWrites(s, w, a, t);
    MintedGrows(s, w, a, t);
    forall k | 0 <= k < |t.journal| ensures t.journal[k].ref in t.minted {
      if k >= |s.journal| {
        assert t.journal[k] in Written(s.processes[w], a);
        WrittenRefs(s, w, a, t, t.journal[k]);
      }
    }
    forall o | o in t.processes ensures NotYetCommitted(t, t.processes[o]) && UsedOnceBound(t, t.processes[o]) {
      OrderOfOne(s, w, a, t, o);
    }
    hide Step, Inv, NotYetCommitted, UsedOnceBound;
  }

  lemma {:induction false} MintedGrows(s: World, w: nat, a: Action, t: World)
    requires Step(s, w, a, t)
    ensures s.minted <= t.minted && s.used <= t.used
  {
    hide Reconciled, Latest;
  }

  lemma {:induction false} OrderOfOne(s: World, w: nat, a: Action, t: World, o: nat)
    requires Orderly(s) && Step(s, w, a, t) && o in t.processes
    ensures NotYetCommitted(t, t.processes[o]) && UsedOnceBound(t, t.processes[o])
  {
    hide Inv, NotYetCommitted, UsedOnceBound, Step;
    StepWrites(s, w, a, t);
    MintedGrows(s, w, a, t);
    if o == w {
      OwnOrder(s, w, a, t);
    } else {
      Bystander(s, w, a, t, o);
      OthersOrder(s, w, a, t, o);
    }
  }

  lemma {:induction false} OthersOrder(s: World, w: nat, a: Action, t: World, o: nat)
    requires Orderly(s) && Step(s, w, a, t) && o in t.processes && o != w
    requires o in s.processes && t.processes[o] == s.processes[o]
    requires s.used <= t.used && t.journal == s.journal + if w in s.processes then Written(s.processes[w], a) else []
    ensures NotYetCommitted(t, t.processes[o]) && UsedOnceBound(t, t.processes[o])
  {
    hide Step, ProcessOk, EntryOk, Written;
    var p := s.processes[o];
    assert NotYetCommitted(s, p) && UsedOnceBound(s, p);
    forall k | 0 <= k < |t.journal| && t.journal[k].stage.Committed? && p.Binding?
      ensures k < |s.journal| || t.journal[k].ref != p.ref
    {
      if k >= |s.journal| {
        assert t.journal[k] in Written(s.processes[w], a);
        WrittenRefs(s, w, a, t, t.journal[k]);
      }
    }
  }

  lemma {:induction false} OwnOrder(s: World, w: nat, a: Action, t: World)
    requires Orderly(s) && Step(s, w, a, t) && w in t.processes
    ensures NotYetCommitted(t, t.processes[w]) && UsedOnceBound(t, t.processes[w])
  {
    hide Reconciled, Latest, FreshRefs, EntryOk, ProcessOk;
    if w in s.processes {
      assert NotYetCommitted(s, s.processes[w]) && UsedOnceBound(s, s.processes[w]);
    }
  }

  lemma {:induction false} HousekeepingKeepsOrder(s: World, t: World)
    requires Orderly(s) && Housekeeping(s, t)
    ensures Orderly(t)
  {
    HousekeepingKeepsInv(s, t);
    hide Inv;
    forall o | o in t.processes ensures NotYetCommitted(t, t.processes[o]) && UsedOnceBound(t, t.processes[o]) {
      assert NotYetCommitted(s, s.processes[o]) && UsedOnceBound(s, s.processes[o]);
    }
  }

  // ---------------------------------------------------------------- secrets that were never in use

  lemma {:induction false} PendingStays(s: World, w: nat, a: Action, t: World, x: Text)
    requires Orderly(s) && Step(s, w, a, t) && PendingFor(s.journal, x) && x !in s.used
    ensures PendingFor(t.journal, x)
  {
    hide Inv, Step, IsLast, NotYetCommitted, UsedOnceBound, Written;
    StepWrites(s, w, a, t);
    var e :| IsLast(s.journal, e) && e.stage.Pending? && e.ref == x;
    var more := if w in s.processes then Written(s.processes[w], a) else [];
    AtMostOne(s, w, a);
    if more != [] && SamePair(more[0], e) {
      WrittenRefs(s, w, a, t, more[0]);
      NewIsLast(s.journal, more[0]);
      assert more == [more[0]];
    } else {
      LastStays(s.journal, more, e);
    }
  }

  lemma {:induction false} AtMostOne(s: World, w: nat, a: Action)
    ensures |if w in s.processes then Written(s.processes[w], a) else []| <= 1
  {
  }

  lemma {:induction false} UnusedStaysTracked(first: World, s: World, w: nat, a: Action, t: World)
    requires Orderly(s) && UnusedTracked(first, s) && Step(s, w, a, t)
    ensures UnusedTracked(first, t)
  {
    hide Orderly, PendingFor;
    MintedGrows(s, w, a, t);
    forall x | x in t.secrets && x !in t.used && x !in first.secrets ensures PendingFor(t.journal, x) {
      StoredBefore(s, w, a, t, x);
      PendingStays(s, w, a, t, x);
    }
    forall o | o in t.processes && t.processes[o].Binding? && t.processes[o].phase.Journalled?
      ensures PendingFor(t.journal, t.processes[o].ref)
    {
      if o == w {
        JustWritten(s, w, a, t);
      } else {
        Bystander(s, w, a, t, o);
        UnusedUntilBound(s, o);
        PendingStays(s, w, a, t, s.processes[o].ref);
      }
    }
    hide Step;
  }

  lemma {:induction false} StoredBefore(s: World, w: nat, a: Action, t: World, x: Text)
    requires Step(s, w, a, t) && x in t.secrets
    ensures x in s.secrets || (w in s.processes && s.processes[w].Binding? && s.processes[w].phase.Journalled? && s.processes[w].ref == x)
  {
    hide Reconciled, Latest;
  }

  lemma {:induction false} JustWritten(s: World, w: nat, a: Action, t: World)
    requires Step(s, w, a, t) && w in t.processes && t.processes[w].Binding? && t.processes[w].phase.Journalled?
    ensures PendingFor(t.journal, t.processes[w].ref)
  {
    hide Reconciled, Latest, IsLast;
    assert a.WriteAhead?;
    var p := t.processes[w];
    var e := Entry(p.profile, p.ref, p.supersedes, Stage.Pending);
    NewIsLast(s.journal, e);
    assert t.journal == s.journal + [e];
  }

  lemma {:induction false} UnusedUntilBound(s: World, o: nat)
    requires Orderly(s) && o in s.processes && s.processes[o].Binding? && s.processes[o].phase.Journalled?
    ensures s.processes[o].ref !in s.used
  {
    hide FreshRefs, EntryOk, NotYetCommitted, UsedOnceBound;
    assert ProcessOk(s, s.processes[o]);
  }

  // ---------------------------------------------------------------- secrets that were in use

  lemma {:induction false} CommittedStays(s: World, w: nat, a: Action, t: World, x: Text)
    requires Orderly(s) && Step(s, w, a, t) && CommittedFor(s.journal, x) && x in s.secrets && !Shows(s, w, a, Overwritten)
    ensures CommittedFor(t.journal, x)
  {
    hide Inv, Step, IsLast, NotYetCommitted, UsedOnceBound;
    StepWrites(s, w, a, t);
    var e :| IsLast(s.journal, e) && e.stage.Committed? && e.supersedes == Some(x);
    var more := if w in s.processes then Written(s.processes[w], a) else [];
    if more != [] && SamePair(more[0], e) {
      OverwritingShows(s, w, a, t, more[0], e);
    }
    LastStays(s.journal, more, e);
  }

  /** Only a cleaned record can land on a committed one of the same binding. */
  lemma {:induction false} OverwritingShows(s: World, w: nat, a: Action, t: World, next: Entry, e: Entry)
    requires Orderly(s) && Step(s, w, a, t) && w in s.processes && next in Written(s.processes[w], a)
    requires IsLast(s.journal, e) && Supersession(e) && e.supersedes.value in s.secrets && SamePair(next, e)
    ensures Shows(s, w, a, Overwritten)
  {
    hide Inv, Reconciled, Latest, UsedOnceBound;
    assert NotYetCommitted(s, s.processes[w]);
    assert next.stage.Cleaned?;
    assert StillNamesASecret(s, next.profile, next.ref);
  }

  lemma {:induction false} HeldUntilCommitted(s: World, w: nat, a: Action, t: World, x: Text)
    requires Step(s, w, a, t) && Held(s, x) && !Shows(s, w, a, Abandoned)
    ensures Held(t, x) || CommittedFor(t.journal, x)
  {
    hide Reconciled, Latest, IsLast;
    var o :| o in s.processes && Holds(s.processes[o], x);
    if o == w {
      var p := s.processes[w];
      var e := Entry(p.profile, p.ref, p.supersedes, Stage.Committed);
      NewIsLast(s.journal, e);
      assert t.journal == s.journal + [e];
    } else {
      assert o in t.processes && Holds(t.processes[o], x);
    }
  }

  /** A secret leaves service only under a binding that then holds it. */
  lemma {:induction false} Retires(s: World, w: nat, a: Action, t: World, x: Text)
    requires Inv(s) && Step(s, w, a, t) && Retired(t, x) && !Retired(s, x) && !Shows(s, w, a, Overtaken)
    ensures Held(t, x)
  {
    hide Reconciled, Latest, ProcessOk, EntryOk, FreshRefs;
    var p := s.processes[w];
    assert t.profiles == s.profiles[p.profile := p.ref];
    assert p.ref in t.profiles.Values by { UpdatedValues(s.profiles, p.profile, p.ref); }
    assert forall k :: k in s.profiles && k != p.profile ==> k in t.profiles && t.profiles[k] == s.profiles[k];
    var k :| k in s.profiles && s.profiles[k] == x;
    assert k == p.profile;
    assert Holds(t.processes[w], x);
  }

  lemma {:induction false} RetiredStaysTracked(s: World, w: nat, a: Action, t: World)
    requires Orderly(s) && RetiredTracked(s) && Step(s, w, a, t) && forall l :: !Shows(s, w, a, l)
    ensures RetiredTracked(t)
  {
    hide Step, Shows, IsLast, Retired, Held, CommittedFor, Inv, NotYetCommitted, UsedOnceBound;
    forall x | x in t.secrets && Retired(t, x) ensures Held(t, x) || CommittedFor(t.journal, x) {
      if Retired(s, x) {
        NotStoredAgain(s, w, a, t, x);
        if Held(s, x) {
          HeldUntilCommitted(s, w, a, t, x);
        } else {
          CommittedStays(s, w, a, t, x);
        }
      } else {
        Retires(s, w, a, t, x);
      }
    }
  }

  lemma {:induction false} NotStoredAgain(s: World, w: nat, a: Action, t: World, x: Text)
    requires Inv(s) && Step(s, w, a, t) && x in t.secrets && Retired(s, x)
    ensures x in s.secrets
  {
    hide Step, FreshRefs, EntryOk;
    assert w in s.processes ==> ProcessOk(s, s.processes[w]);
    StoredBefore(s, w, a, t, x);
  }

  // ---------------------------------------------------------------- whole runs

  lemma {:induction false} MoveIsStepOrHousekeeping(s: World, t: World, lapses: set<Lapse>)
    requires Moves(s, t, lapses)
    ensures (exists w, a :: Step(s, w, a, t) && forall l :: Shows(s, w, a, l) ==> l in lapses) || Housekeeping(s, t)
    ensures !(exists w, a :: Step(s, w, a, t) && forall l :: Shows(s, w, a, l) ==> l in lapses) ==>
              t.journal == s.journal || Truncated in lapses
    ensures lapses == {} ==> exists w, a :: Step(s, w, a, t) && forall l :: !Shows(s, w, a, l)
  {
    hide Step, Shows;
  }

  lemma {:induction false} StartIsOrderly(s: World)
    requires Init(s)
    ensures Orderly(s) && UnusedTracked(s, s) && RetiredTracked(s)
  {
  }

  lemma {:induction false} PathIsOrderly(run: seq<World>, lapses: set<Lapse>, i: nat)
    requires Path(run, lapses) && i < |run|
    ensures Orderly(run[i])
    decreases i
  {
    hide Orderly, Step, Shows, Housekeeping, Init, Moves;
    if i == 0 {
      StartIsOrderly(run[0]);
    } else {
      PathIsOrderly(run, lapses, i - 1);
      var s, t := run[i - 1], run[i];
      MoveIsStepOrHousekeeping(s, t, lapses);
      if w, a :| Step(s, w, a, t) {
        StepKeepsOrder(s, w, a, t);
      } else {
        HousekeepingKeepsOrder(s, t);
      }
    }
  }

  lemma {:induction false} HousekeepingKeepsUnused(first: World, s: World, t: World)
    requires UnusedTracked(first, s) && Housekeeping(s, t) && t.journal == s.journal
    ensures UnusedTracked(first, t)
  {
    hide PendingFor;
  }

  lemma {:induction false} UnusedTrail(run: seq<World>, lapses: set<Lapse>, i: nat)
    requires Path(run, lapses) && i < |run| && Truncated !in lapses
    ensures UnusedTracked(run[0], run[i])
    decreases i
  {
    hide Orderly, Step, Shows, Housekeeping, Init, Moves, UnusedTracked;
    if i == 0 {
      StartIsOrderly(run[0]);
    } else {
      UnusedTrail(run, lapses, i - 1);
      PathIsOrderly(run, lapses, i - 1);
      var s, t := run[i - 1], run[i];
      MoveIsStepOrHousekeeping(s, t, lapses);
      if w, a :| Step(s, w, a, t) && forall l :: Shows(s, w, a, l) ==> l in lapses {
        UnusedStaysTracked(run[0], s, w, a, t);
      } else {
        HousekeepingKeepsUnused(run[0], s, t);
      }
    }
  }

  lemma {:induction false} RetiredTrail(run: seq<World>, i: nat)
    requires Path(run, {}) && i < |run|
    ensures RetiredTracked(run[i])
    decreases i
  {
    hide Orderly, Step, Shows, Housekeeping, Init, Moves, RetiredTracked;
    if i == 0 {
      StartIsOrderly(run[0]);
    } else {
      RetiredTrail(run, i - 1);
      PathIsOrderly(run, {}, i - 1);
      var s, t := run[i - 1], run[i];
      MoveIsStepOrHousekeeping(s, t, {});
      var w, a :| Step(s, w, a, t) && forall l :: !Shows(s, w, a, l);
      RetiredStaysTracked(s, w, a, t);
    }
  }

  /** Reconciliation, run in this state with the references the profiles hold, names the secret. */
  ghost predicate Reported(s: World, referenced: seq<Text>, x: Text) {
    var found := Reconciled(Latest(s.journal), Vault(s.secrets, {}), referenced);
    found.Some? && (x in found.value.orphans || x in found.value.retryable)
  }

  lemma {:induction false} ReportedByLastRecords(s: World, referenced: seq<Text>, x: Text)
    requires x in s.secrets && x !in referenced
    ensures Reported(s, referenced, x)
       <==> exists e :: IsLast(s.journal, e) && Reports(e, Vault(s.secrets, {}), referenced, x)
  {
    hide Latest, IsLast, Reports, Orphans, Retryable, Dangling;
    var slots, v := Latest(s.journal), Vault(s.secrets, {});
    ReportedExactly(slots, v, referenced, x);
    LatestKeepsTheLast(s.journal);
    if e :| IsLast(s.journal, e) && Reports(e, v, referenced, x) {
      assert e in slots;
    }
    if k :| 0 <= k < |slots| && Reports(slots[k], v, referenced, x) {
      assert slots[k] in slots;
    }
  }

  /**
    A stored secret that no profile references, that was in use or was stored during the run, that no live
    process is about to record, and that reconciliation does not name.
   */
  ghost predicate Forgotten(first: World, s: World, referenced: seq<Text>, x: Text) {
    && Lists(referenced, s.profiles) && x in s.secrets && x !in s.profiles.Values
    && (x in s.used || x !in first.secrets)
    && !Held(s, x) && !Reported(s, referenced, x)
  }

  lemma {:induction false} ListedMeansReferenced(referenced: seq<Text>, profiles: map<Text, Text>, x: Text)
    requires Lists(referenced, profiles)
    ensures x in referenced <==> x in profiles.Values
  {
    assert x in referenced <==> x in Members(referenced);
  }

  lemma {:induction false} SpeakingRecordReports(s: World, referenced: seq<Text>, x: Text)
    requires Inv(s) && Lists(referenced, s.profiles) && x in s.secrets && x !in s.profiles.Values
    requires PendingFor(s.journal, x) || CommittedFor(s.journal, x)
    ensures Reported(s, referenced, x)
  {
    hide IsLast, Lists, Reported, ProcessOk, EntryOk, FreshRefs;
    ListedMeansReferenced(referenced, s.profiles, x);
    ReportedByLastRecords(s, referenced, x);
    if PendingFor(s.journal, x) {
      var e :| IsLast(s.journal, e) && e.stage.Pending? && e.ref == x;
      assert Reports(e, Vault(s.secrets, {}), referenced, x);
    } else {
      var e :| IsLast(s.journal, e) && e.stage.Committed? && e.supersedes == Some(x);
      ListedMeansReferenced(referenced, s.profiles, e.ref);
      assert Reports(e, Vault(s.secrets, {}), referenced, x);
    }
  }

  /** A secret stored for a binding that got no further is reported, whatever else happens to the profiles. */
  lemma {:induction false} StoredAheadIsReported(
      run: seq<World>, lapses: set<Lapse>, i: nat, referenced: seq<Text>, x: Text)
    requires Path(run, lapses) && Truncated !in lapses && i < |run| && Lists(referenced, run[i].profiles)
    requires x in run[i].secrets && x !in run[i].used && x !in run[0].secrets
    ensures Reported(run[i], referenced, x)
  {
    hide Reported, PendingFor, CommittedFor, Path, Lists, ProcessOk, EntryOk, FreshRefs;
    UnusedTrail(run, lapses, i);
    PathIsOrderly(run, lapses, i);
    SpeakingRecordReports(run[i], referenced, x);
  }

  /** Without lapses no secret is forgotten at any moment of any run. */
  lemma {:induction false} NothingIsForgotten(run: seq<World>, i: nat, referenced: seq<Text>, x: Text)
    requires Path(run, {}) && i < |run|
    ensures !Forgotten(run[0], run[i], referenced, x)
  {
    hide Reported, PendingFor, CommittedFor, Held, Path, Lists, ProcessOk, EntryOk, FreshRefs;
    var s := run[i];
    PathIsOrderly(run, {}, i);
    RetiredTrail(run, i);
    if Forgotten(run[0], s, referenced, x) {
      if x in s.used {
        SpeakingRecordReports(s, referenced, x);
      } else {
        StoredAheadIsReported(run, {}, i, referenced, x);
      }
    }
  }

  // ---------------------------------------------------------------- every lapse matters

  function Now(run: seq<World>): World
    requires run != []
  {
    run[|run| - 1]
  }

  lemma {:induction false} Extended(run: seq<World>, lapses: set<Lapse>, t: World)
    requires Path(run, lapses) && Moves(Now(run), t, lapses)
    ensures Path(run + [t], lapses)
  {
    hide Moves, Init;
    var more := run + [t];
    assert more[0] == run[0];
    forall i | 0 < i < |more| ensures Moves(more[i - 1], more[i], lapses) {
      assert more[i - 1] == run[i - 1];
      assert i < |run| ==> more[i] == run[i];
    }
  }

  lemma {:induction false} ExtendedByStep(run: seq<World>, lapses: set<Lapse>, w: nat, a: Action, t: World)
    requires Path(run, lapses) && Step(Now(run), w, a, t) && forall l :: Shows(Now(run), w, a, l) ==> l in lapses
    ensures Path(run + [t], lapses)
  {
    hide Step, Shows, Path;
    Extended(run, lapses, t);
  }

  lemma {:induction false} Begins(run: seq<World>, lapses: set<Lapse>, w: nat, profile: Text, ref: Text)
      returns (next: seq<World>)
    requires Path(run, lapses) && w !in Now(run).processes && ref !in Now(run).minted
    ensures next != [] && Path(next, lapses) && next[0] == run[0]
    ensures var s := Now(run);
            Now(next) == s.(processes := s.processes[w := Binding(profile, ref, CurrentRef(s, profile), Minted)],
                            minted := s.minted + {ref})
  {
    hide Path;
    NonEmpty(run, lapses);
    var s := Now(run);
    var t := s.(processes := s.processes[w := Binding(profile, ref, CurrentRef(s, profile), Minted)], minted := s.minted + {ref});
    assert Step(s, w, Mint(profile, ref), t);
    ExtendedByStep(run, lapses, w, Mint(profile, ref), t);
    next := run + [t];
  }

  lemma {:induction false} NonEmpty(run: seq<World>, lapses: set<Lapse>)
    requires Path(run, lapses)
    ensures run != []
  {
  }

  /** From the minted reference to the installed one. */
  lemma {:induction false} Installs(run: seq<World>, lapses: set<Lapse>, w: nat, p: Process) returns (next: seq<World>)
    requires Path(run, lapses) && w in Now(run).processes && Now(run).processes[w] == p && p.Binding? && p.phase.Minted?
    requires CurrentRef(Now(run), p.profile) != p.supersedes ==> Overtaken in lapses
    ensures next != [] && Path(next, lapses) && next[0] == run[0]
    ensures var s := Now(run);
            Now(next) == s.(journal := s.journal + [Entry(p.profile, p.ref, p.supersedes, Stage.Pending)],
                            secrets := s.secrets + {p.ref}, profiles := s.profiles[p.profile := p.ref],
                            used := s.used + {p.ref}, processes := s.processes[w := p.(phase := Bound)])
  {
    hide Path, Reconciled, Latest;
    NonEmpty(run, lapses);
    var s0 := Now(run);
    var s1 := With(WithEntry(s0, Entry(p.profile, p.ref, p.supersedes, Stage.Pending)), w, p.(phase := Journalled));
    assert Step(s0, w, WriteAhead, s1);
    ExtendedByStep(run, lapses, w, WriteAhead, s1);
    var s2 := With(s1, w, p.(phase := Stored)).(secrets := s1.secrets + {p.ref});
    assert Step(s1, w, StoreSecret, s2);
    ExtendedByStep(run + [s1], lapses, w, StoreSecret, s2);
    var s3 := With(s2, w, p.(phase := Bound)).(profiles := s2.profiles[p.profile := p.ref], used := s2.used + {p.ref});
    assert Step(s2, w, BindProfile, s3);
    ExtendedByStep(run + [s1] + [s2], lapses, w, BindProfile, s3);
    next := run + [s1] + [s2] + [s3];
    assert s3.processes == s0.processes[w := p.(phase := Bound)];
  }

  lemma {:induction false} Commits(run: seq<World>, lapses: set<Lapse>, w: nat, p: Process) returns (next: seq<World>)
    requires Path(run, lapses) && w in Now(run).processes && Now(run).processes[w] == p && p.Binding? && p.phase.Bound?
    ensures next != [] && Path(next, lapses) && next[0] == run[0]
    ensures Now(next) == With(WithEntry(Now(run), Entry(p.profile, p.ref, p.supersedes, Stage.Committed)), w,
                              p.(phase := Phase.Committed))
  {
    hide Path, Reconciled, Latest;
    NonEmpty(run, lapses);
    var s := Now(run);
    var t := With(WithEntry(s, Entry(p.profile, p.ref, p.supersedes, Stage.Committed)), w, p.(phase := Phase.Committed));
    assert Step(s, w, Commit, t);
    ExtendedByStep(run, lapses, w, Commit, t);
    next := run + [t];
  }

  /** Deletes the superseded secret and says so. */
  lemma {:induction false} CleansUp(run: seq<World>, lapses: set<Lapse>, w: nat, p: Process, x: Text)
      returns (next: seq<World>)
    requires Path(run, lapses) && w in Now(run).processes && Now(run).processes[w] == p && p.Binding?
    requires p.phase.Committed? && p.supersedes == Some(x) && x !in Now(run).profiles.Values
    requires StillNamesASecret(Now(run).(secrets := Now(run).secrets - {x}), p.profile, x) ==> Overwritten in lapses
    ensures next != [] && Path(next, lapses) && next[0] == run[0]
    ensures var s := Now(run);
            Now(next) == s.(journal := s.journal + [CleanedEntry(p.profile, x)], secrets := s.secrets - {x},
                            processes := s.processes - {w})
  {
    hide Path, Reconciled, Latest, IsLast;
    NonEmpty(run, lapses);
    var s0 := Now(run);
    var s1 := With(s0, w, p.(phase := Checked));
    assert Step(s0, w, CheckOld, s1);
    ExtendedByStep(run, lapses, w, CheckOld, s1);
    var s2 := With(s1, w, p.(phase := Deleted)).(secrets := s1.secrets - {x});
    assert Step(s1, w, DeleteOld, s2);
    ExtendedByStep(run + [s1], lapses, w, DeleteOld, s2);
    var s3 := WithEntry(s2, CleanedEntry(p.profile, x)).(processes := s2.processes - {w});
    assert Step(s2, w, LogCleaned, s3);
    SameTrail(s0.(secrets := s0.secrets - {x}), s2, p.profile, x);
    ExtendedByStep(run + [s1] + [s2], lapses, w, LogCleaned, s3);
    next := run + [s1] + [s2] + [s3];
    assert s3.processes == s0.processes - {w};
  }

  predicate NoneCommittedFor(s: World, ref: Text) {
    forall k :: 0 <= k < |s.journal| && s.journal[k].stage.Committed? ==> s.journal[k].ref != ref
  }

  /** A whole rotation, from the minted reference to the cleaned record. */
  lemma {:induction false} Rotates(run: seq<World>, lapses: set<Lapse>, w: nat, p: Process, x: Text)
      returns (next: seq<World>)
    requires Path(run, lapses) && w in Now(run).processes && Now(run).processes[w] == p && p.Binding?
    requires p.phase.Minted? && p.supersedes == Some(x) && p.ref != x
    requires x !in (Now(run).profiles - {p.profile}).Values
    requires Overtaken in lapses || CurrentRef(Now(run), p.profile) == Some(x)
    requires Overwritten in lapses || NoneCommittedFor(Now(run), x)
    ensures next != [] && Path(next, lapses) && next[0] == run[0]
    ensures var s := Now(run);
            Now(next) == s.(journal := s.journal + [Entry(p.profile, p.ref, p.supersedes, Stage.Pending),
                                                    Entry(p.profile, p.ref, p.supersedes, Stage.Committed),
                                                    CleanedEntry(p.profile, x)],
                            secrets := s.secrets + {p.ref} - {x}, profiles := s.profiles[p.profile := p.ref],
                            used := s.used + {p.ref}, processes := s.processes - {w})
  {
    hide Path, StillNamesASecret, Step, Shows;
    NonEmpty(run, lapses);
    var s := Now(run);
    next := Installs(run, lapses, w, p);
    next := Commits(next, lapses, w, p.(phase := Bound));
    var t := Now(next);
    NotReferenced(s.profiles, p.profile, p.ref, x);
    if Overwritten !in lapses {
      NamesNothing(t.(secrets := t.secrets - {x}), p.profile, x);
    }
    next := CleansUp(next, lapses, w, p.(phase := Phase.Committed), x);
    assert Now(next).processes == s.processes - {w};
    assert Now(next).journal == s.journal + [Entry(p.profile, p.ref, p.supersedes, Stage.Pending),
                                             Entry(p.profile, p.ref, p.supersedes, Stage.Committed),
                                             CleanedEntry(p.profile, x)];
  }

  lemma {:induction false} NotReferenced(profiles: map<Text, Text>, profile: Text, ref: Text, x: Text)
    requires x !in (profiles - {profile}).Values && ref != x
    ensures x !in profiles[profile := ref].Values
  {
    var others, now := profiles - {profile}, profiles[profile := ref];
    forall k | k in now ensures now[k] != x {
      assert k in others ==> others[k] in others.Values;
    }
  }

  lemma {:induction false} SameTrail(s: World, t: World, name: Text, ref: Text)
    requires s.journal == t.journal && s.secrets == t.secrets
    ensures StillNamesASecret(s, name, ref) <==> StillNamesASecret(t, name, ref)
  {
    hide IsLast;
  }

  lemma {:induction false} Crashes(run: seq<World>, lapses: set<Lapse>, w: nat) returns (next: seq<World>)
    requires Path(run, lapses) && w in Now(run).processes
    requires Now(run).processes[w].Binding? && Now(run).processes[w].phase.Bound? ==> Abandoned in lapses
    ensures next != [] && Path(next, lapses) && next[0] == run[0]
    ensures Now(next) == Now(run).(processes := Now(run).processes - {w})
  {
    hide Path, Reconciled, Latest;
    NonEmpty(run, lapses);
    var s := Now(run);
    var t := s.(processes := s.processes - {w});
    assert Step(s, w, Crash, t);
    ExtendedByStep(run, lapses, w, Crash, t);
    next := run + [t];
  }

  /** A record that would speak for `x` is not reported once a later one of the same binding stands behind it. */
  lemma {:induction false} Silent(s: World, referenced: seq<Text>, x: Text)
    requires x in s.secrets && x !in referenced
    requires forall k :: 0 <= k < |s.journal| && Reports(s.journal[k], Vault(s.secrets, {}), referenced, x) ==>
               exists j :: k < j < |s.journal| && SamePair(s.journal[j], s.journal[k])
    ensures !Reported(s, referenced, x)
  {
    hide Reports, SamePair, Reported;
    ReportedByLastRecords(s, referenced, x);
  }

  /** One profile, bound to `x`. */
  function Start(profile: Text, x: Text): World {
    World([], {x}, map[profile := x], map[], {x}, {x})
  }

  lemma {:induction false} Starts(profile: Text, x: Text, lapses: set<Lapse>)
    ensures Path([Start(profile, x)], lapses)
  {
    OneValue(profile, x);
  }

  lemma {:induction false} OneValue(profile: Text, x: Text)
    ensures map[profile := x].Values == {x} && Lists([x], map[profile := x])
  {
    var profiles := map[profile := x];
    assert profiles[profile] == x;
    assert Members([x]) == {x};
  }

  /** The two records of a binding that got as far as its committed record. */
  function Both(profile: Text, ref: Text, x: Text): seq<Entry> {
    [Entry(profile, ref, Some(x), Stage.Pending), Entry(profile, ref, Some(x), Stage.Committed)]
  }

  lemma {:induction false} TwoRotationsOfOne(profile: Text, x: Text, a: Text, b: Text) returns (run: seq<World>)
    requires x != a && x != b && a != b
    ensures run != [] && Path(run, {Overtaken}) && run[0] == Start(profile, x)
    ensures Now(run) == World(Both(profile, a, x) + [CleanedEntry(profile, x)] + Both(profile, b, x) + [CleanedEntry(profile, x)],
                              {a, b}, map[profile := b], map[], {x, a, b}, {x, a, b})
  {
    hide Path;
    var l := {Overtaken};
    var p, q := Binding(profile, a, Some(x), Minted), Binding(profile, b, Some(x), Minted);
    Starts(profile, x, l);
    run := Begins([Start(profile, x)], l, 0, profile, a);
    run := Begins(run, l, 1, profile, b);
    assert (map[profile := x] - {profile}).Values == {};
    run := Rotates(run, l, 0, p, x);
    assert Now(run) == World(Both(profile, a, x) + [CleanedEntry(profile, x)],
                             {a}, map[profile := a], map[1 := q], {x, a, b}, {x, a});
    assert (map[profile := a] - {profile}).Values == {};
    run := Rotates(run, l, 1, q, x);
  }

  /**
    Two rotations read the same reference before either installs its own. Nobody crashes, and the secret of
    the first is superseded by nothing.
   */
  lemma {:induction false} OvertakenRotationIsForgotten(profile: Text, x: Text, a: Text, b: Text) returns (run: seq<World>)
    requires x != a && x != b && a != b
    ensures run != [] && Path(run, {Overtaken}) && Now(run).processes == map[] && Now(run).profiles == map[profile := b]
    ensures Forgotten(run[0], Now(run), [b], a)
  {
    hide Path, IsLast, Reported;
    run := TwoRotationsOfOne(profile, x, a, b);
    assert SamePair(Now(run).journal[1], Now(run).journal[0]);
    OneValue(profile, b);
    Silent(Now(run), [b], a);
  }

  lemma {:induction false} NamesNothing(s: World, name: Text, ref: Text)
    requires NoneCommittedFor(s, ref)
    ensures !StillNamesASecret(s, name, ref)
  {
  }

  /** A crash between installing the reference and the committed record: recovery then finds nothing at all. */
  lemma {:induction false} CrashCanForgetASecret(profile: Text, prior: Text, ref: Text) returns (run: seq<World>)
    requires prior != ref
    ensures run != [] && Path(run, {Abandoned}) && Now(run).processes == map[] && Now(run).profiles == map[profile := ref]
    ensures Forgotten(run[0], Now(run), [ref], prior)
    ensures Reconciled(Latest(Now(run).journal), Vault(Now(run).secrets, {}), [ref]) == Some(Reconciliation([], [], []))
  {
    hide Path, Shows, Step, IsLast, Reconciled, Latest;
    var l := {Abandoned};
    var p := Binding(profile, ref, Some(prior), Minted);
    Starts(profile, prior, l);
    run := Begins([Start(profile, prior)], l, 0, profile, ref);
    run := Installs(run, l, 0, p);
    run := Crashes(run, l, 0);
    var s := Now(run);
    assert s.profiles == map[profile := ref] && s.processes == map[];
    var e := Entry(profile, ref, Some(prior), Stage.Pending);
    assert s.journal == [e];
    OneValue(profile, ref);
    BoundButPending(e, Vault(s.secrets, {}), [ref]);
  }

  /** A pending record whose secret is there and in use is not reported. */
  lemma {:induction false} BoundButPending(e: Entry, v: Vault, referenced: seq<Text>)
    requires e.stage.Pending? && Lookup(v, e.ref).Found? && e.ref in referenced
    ensures Reconciled(Latest([e]), v, referenced) == Some(Reconciliation([], [], []))
  {
    hide SamePair;
    assert [e][..0] == [] && Latest([]) == [];
    assert Latest([e]) == [e];
    OneMoreSlot([e], 0, v, referenced);
    NoMoreSlots([e], v, referenced);
    assert [e][0..] == [e];
  }

  lemma {:induction false} RotationAfterACrash(profile: Text, x: Text, a: Text, b: Text) returns (run: seq<World>)
    requires x != a && x != b && a != b
    ensures run != [] && Path(run, {Overwritten}) && run[0] == Start(profile, x)
    ensures Now(run) == World(Both(profile, a, x) + Both(profile, b, a) + [CleanedEntry(profile, a)],
                              {x, b}, map[profile := b], map[], {x, a, b}, {x, a, b})
  {
    hide Path;
    var l := {Overwritten};
    var p, q := Binding(profile, a, Some(x), Minted), Binding(profile, b, Some(a), Minted);
    Starts(profile, x, l);
    run := Begins([Start(profile, x)], l, 0, profile, a);
    run := Installs(run, l, 0, p);
    run := Commits(run, l, 0, p.(phase := Bound));
    run := Crashes(run, l, 0);
    assert Now(run) == World(Both(profile, a, x), {x, a}, map[profile := a], map[], {x, a}, {x, a});
    run := Begins(run, l, 1, profile, b);
    assert (map[profile := a] - {profile}).Values == {};
    run := Rotates(run, l, 1, q, a);
  }

  /**
    A rotation crashes after its committed record and before its cleanup. The next rotation cleans up the
    reference that the first installed, and its record takes the place of the one that named `x`.
   */
  lemma {:induction false} OverwrittenRecordIsForgotten(profile: Text, x: Text, a: Text, b: Text) returns (run: seq<World>)
    requires x != a && x != b && a != b
    ensures run != [] && Path(run, {Overwritten}) && Now(run).processes == map[] && Now(run).profiles == map[profile := b]
    ensures Forgotten(run[0], Now(run), [b], x)
  {
    hide Path, IsLast, Reported;
    run := RotationAfterACrash(profile, x, a, b);
    assert SamePair(Now(run).journal[4], Now(run).journal[1]);
    OneValue(profile, b);
    Silent(Now(run), [b], x);
  }

  lemma {:induction false} DroppedProfileIsForgotten(profile: Text, x: Text) returns (run: seq<World>)
    ensures run != [] && Path(run, {Dropped}) && Now(run).processes == map[]
    ensures Forgotten(run[0], Now(run), [], x)
  {
    hide Path, Step, Shows, IsLast, Reported;
    var s := Start(profile, x);
    var t := s.(profiles := s.profiles - {profile});
    Starts(profile, x, {Dropped});
    Extended([s], {Dropped}, t);
    run := [s] + [t];
    assert t.profiles == map[];
    Silent(t, [], x);
  }

  /** The journal is removed while it still names the superseded secret. */
  lemma {:induction false} TruncatedJournalForgets(profile: Text, x: Text, a: Text) returns (run: seq<World>)
    requires x != a
    ensures run != [] && Path(run, {Truncated}) && Now(run).processes == map[] && Now(run).profiles == map[profile := a]
    ensures Forgotten(run[0], Now(run), [a], x)
  {
    hide Path, Shows, Step, IsLast, Reported;
    var l := {Truncated};
    var p := Binding(profile, a, Some(x), Minted);
    Starts(profile, x, l);
    run := Begins([Start(profile, x)], l, 0, profile, a);
    run := Installs(run, l, 0, p);
    run := Commits(run, l, 0, p.(phase := Bound));
    run := Crashes(run, l, 0);
    NonEmpty(run, l);
    var s := Now(run);
    var t := s.(journal := []);
    Extended(run, l, t);
    run := run + [t];
    assert t.profiles == map[profile := a] && t.processes == map[];
    OneValue(profile, a);
    Silent(t, [a], x);
  }

  ghost predicate Forgets(run: seq<World>, i: nat)
    requires i < |run|
  {
    exists referenced, x :: Forgotten(run[0], run[i], referenced, x)
  }

  lemma {:induction false} OneLapseIsEnough(l: Lapse) returns (run: seq<World>)
    ensures IsRun(run) && Path(run, {l}) && Forgets(run, |run| - 1)
  {
    hide Path, Forgotten, IsRun;
    var profile, x, a, b := [1], [2], [3], [4];
    match l {
      case Overtaken => run := OvertakenRotationIsForgotten(profile, x, a, b);
      case Abandoned => run := CrashCanForgetASecret(profile, x, a);
      case Overwritten => run := OverwrittenRecordIsForgotten(profile, x, a, b);
      case Dropped => run := DroppedProfileIsForgotten(profile, x);
      case Truncated => run := TruncatedJournalForgets(profile, x, a);
    }
    PathIsRun(run, {l});
  }

  /** The lapses are exactly the causes: runs with these lapses only can forget a secret iff there are any. */
  lemma {:induction false} SecretsAreForgottenOnlyByLapses(lapses: set<Lapse>)
    ensures (exists run, i: nat :: Path(run, lapses) && i < |run| && Forgets(run, i)) <==> lapses != {}
  {
    hide Path, Forgotten;
    if lapses == {} {
      forall run, i: nat | Path(run, lapses) && i < |run| ensures !Forgets(run, i) {
        forall referenced, x ensures !Forgotten(run[0], run[i], referenced, x) {
          NothingIsForgotten(run, i, referenced, x);
        }
      }
    } else {
      var l :| l in lapses;
      var run := OneLapseIsEnough(l);
      MoreLapses(run, {l}, lapses);
      NonEmpty(run, lapses);
      assert Forgets(run, |run| - 1);
    }
  }
}
