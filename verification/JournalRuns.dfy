/**
  Credential binding by any number of processes: the six documented steps, startup recovery, and a crash
  between any two of them. Every reference a binding mints is fresh.
 */
module JournalRuns {
  import opened Prelude
  import opened Utf8
  import opened Journal
  import opened Reconciling

  datatype Phase = Minted | Journalled | Stored | Bound | Committed | Checked | Deleted

  /** A process: binding a profile, or cleaning up what its reconciliation found safe. */
  datatype Process =
    | Binding(profile: Text, ref: Text, supersedes: Option<Text>, phase: Phase)
    | Cleaning(name: Text, todo: seq<Text>, deleted: bool)

  /** `minted` are all references ever handed out, `used` those a profile has pointed at. */
  datatype World = World(
    journal: seq<Entry>, secrets: set<Text>, profiles: map<Text, Text>,
    processes: map<nat, Process>, minted: set<Text>, used: set<Text>)

  datatype Action =
    | Mint(profile: Text, ref: Text)
    | WriteAhead
    | StoreSecret
    | BindProfile
    | Commit
    | CheckOld
    | DeleteOld
    | LogCleaned
    | Recover(name: Text, referenced: seq<Text>)
    | CleanOne
    | LogOne
    | Crash

  function Lists(referenced: seq<Text>, profiles: map<Text, Text>): bool {
    Members(referenced) == profiles.Values
  }

  function With(s: World, w: nat, p: Process): World {
    s.(processes := s.processes[w := p])
  }

  function WithEntry(s: World, e: Entry): World {
    s.(journal := s.journal + [e])
  }

  function CurrentRef(s: World, profile: Text): Option<Text> {
    if profile in s.profiles then Some(s.profiles[profile]) else None
  }

  ghost predicate Step(s: World, w: nat, a: Action, t: World) {
    if a.Mint? then
      && w !in s.processes && a.ref !in s.minted
      && t == With(s, w, Binding(a.profile, a.ref, CurrentRef(s, a.profile), Minted)).(minted := s.minted + {a.ref})
    else if a.Recover? then
      && w !in s.processes && Lists(a.referenced, s.profiles)
      && var found := Reconciled(Latest(s.journal), Vault(s.secrets, {}), a.referenced);
         found.Some? && t == With(s, w, Cleaning(a.name, found.value.retryable, false))
    else
      w in s.processes && Advances(s, w, s.processes[w], a, t)
  }

  ghost predicate Advances(s: World, w: nat, p: Process, a: Action, t: World) {
    match (a, p)
    case (WriteAhead, Binding(profile, ref, prior, Minted)) =>
      t == With(WithEntry(s, Entry(profile, ref, prior, Stage.Pending)), w, p.(phase := Journalled))
    case (StoreSecret, Binding(_, ref, _, Journalled)) =>
      t == With(s, w, p.(phase := Stored)).(secrets := s.secrets + {ref})
    case (BindProfile, Binding(profile, ref, _, Stored)) =>
      t == With(s, w, p.(phase := Bound)).(profiles := s.profiles[profile := ref], used := s.used + {ref})
    case (Commit, Binding(profile, ref, prior, Bound)) =>
      t == With(WithEntry(s, Entry(profile, ref, prior, Stage.Committed)), w, p.(phase := Phase.Committed))
    case (CheckOld, Binding(_, _, prior, Committed)) =>
      if prior.Some? && prior.value !in s.profiles.Values then t == With(s, w, p.(phase := Checked))
      else t == s.(processes := s.processes - {w})
    case (DeleteOld, Binding(_, _, prior, Checked)) =>
      prior.Some? && t == With(s, w, p.(phase := Deleted)).(secrets := s.secrets - {prior.value})
    case (LogCleaned, Binding(profile, _, prior, Deleted)) =>
      prior.Some? && t == WithEntry(s, CleanedEntry(profile, prior.value)).(processes := s.processes - {w})
    case (CleanOne, Cleaning(name, todo, false)) =>
      todo != [] && t == With(s, w, Cleaning(name, todo, true)).(secrets := s.secrets - {todo[0]})
    case (LogOne, Cleaning(name, todo, true)) =>
      todo != [] && t == With(WithEntry(s, CleanedEntry(name, todo[0])), w, Cleaning(name, todo[1..], false))
    case (Crash, _) => t == s.(processes := s.processes - {w})
    case _ => false
  }

  /** What the user may do at any time: drop a profile, or the journal. */
  ghost predicate Housekeeping(s: World, t: World) {
    || (exists p :: t == s.(profiles := s.profiles - {p}))
    || t == s.(journal := [])
  }

  ghost predicate Next(s: World, t: World) {
    (exists w, a :: Step(s, w, a, t)) || Housekeeping(s, t)
  }

  // ---------------------------------------------------------------- invariant

  /** Once unreferenced, a used reference is out of service for good. */
  ghost predicate Retired(s: World, ref: Text) {
    ref in s.used && ref !in s.profiles.Values
  }

  ghost predicate ProcessOk(s: World, p: Process) {
    match p
    case Binding(_, ref, prior, phase) =>
      && ref in s.minted
      && (phase.Minted? || phase.Journalled? || phase.Stored? ==> ref !in s.used)
      && (phase.Stored? ==> ref in s.secrets)
      && (prior.Some? ==> prior.value in s.used)
      && (phase.Checked? || phase.Deleted? ==> prior.Some? && Retired(s, prior.value))
    case Cleaning(_, todo, _) => forall k :: 0 <= k < |todo| ==> Retired(s, todo[k])
  }

  ghost predicate EntryOk(s: World, e: Entry) {
    e.supersedes.Some? ==> e.supersedes.value in s.used
  }

  /** No two bindings share their reference. */
  ghost predicate FreshRefs(s: World) {
    forall v, w | v in s.processes && w in s.processes && v != w ::
      s.processes[v].Binding? && s.processes[w].Binding? ==> s.processes[v].ref != s.processes[w].ref
  }

  ghost predicate Inv(s: World) {
    && s.profiles.Values <= s.secrets && s.profiles.Values <= s.used && s.used <= s.minted
    && FreshRefs(s)
    && (forall w :: w in s.processes ==> ProcessOk(s, s.processes[w]))
    && (forall k :: 0 <= k < |s.journal| ==> EntryOk(s, s.journal[k]))
  }

  /** Some profiles with their secrets, an empty journal, nobody at work. */
  ghost predicate Init(s: World) {
    && s.journal == [] && s.processes == map[] && s.used == s.profiles.Values
    && s.used <= s.secrets <= s.minted
  }

  lemma {:induction false} UpdatedValues(m: map<Text, Text>, k: Text, v: Text)
    ensures m[k := v].Values <= m.Values + {v} && v in m[k := v].Values
    ensures (m - {k}).Values <= m.Values
  {
    assert m[k := v][k] == v;
  }

  /** A reference that has retired stays retired. */
  lemma {:induction false} RetiredStays(s: World, t: World, ref: Text)
    requires Inv(s) && Next(s, t) && Retired(s, ref)
    ensures Retired(t, ref)
  {
    hide Reconciled, Latest, EntryOk;
    if w, a :| Step(s, w, a, t) {
      if a.BindProfile? {
        assert ProcessOk(s, s.processes[w]);
        UpdatedValues(s.profiles, s.processes[w].profile, s.processes[w].ref);
      }
    } else {
      if p :| t == s.(profiles := s.profiles - {p}) {
        UpdatedValues(s.profiles, p, p);
      }
    }
  }

  lemma {:induction false} RecoveryIsSafe(s: World, referenced: seq<Text>, k: nat)
    requires Inv(s) && Lists(referenced, s.profiles)
    requires k < |Retryable(Latest(s.journal), Vault(s.secrets, {}), referenced)|
    ensures Retired(s, Retryable(Latest(s.journal), Vault(s.secrets, {}), referenced)[k])
  {
    hide Latest, Retryable, SamePair;
    var slots, v := Latest(s.journal), Vault(s.secrets, {});
    var x := Retryable(slots, v, referenced)[k];
    RetryableAre(slots, v, referenced, x);
    SafeIsUnreferenced(slots, v, referenced, x);
    LatestKeepsTheLast(s.journal);
    var m :| 0 <= m < |slots| && IsRetryable(slots[m], v, referenced) && slots[m].supersedes.value == x;
    assert slots[m] in slots;
    assert IsLast(s.journal, slots[m]);
    assert x !in Members(referenced);
  }

  /** What a step may change without disturbing a process that does not take it. */
  ghost predicate Gentle(s: World, t: World, p: Process) {
    && s.used <= t.used && s.minted <= t.minted
    && (forall x :: Retired(s, x) ==> Retired(t, x))
    && (forall x :: x in s.secrets && x !in s.used ==> x in t.secrets)
    && (p.Binding? && p.ref !in s.used ==> p.ref !in t.used)
  }

  lemma {:induction false} GentleKeeps(s: World, t: World, p: Process)
    requires ProcessOk(s, p) && Gentle(s, t, p)
    ensures ProcessOk(t, p)
  {
  }

  lemma {:induction false} StepIsGentle(s: World, w: nat, a: Action, t: World, o: nat)
    requires Inv(s) && Step(s, w, a, t) && o in s.processes && o != w
    ensures Gentle(s, t, s.processes[o])
  {
    hide Reconciled, Latest, EntryOk, Retired, FreshRefs;
    forall x | Retired(s, x) ensures Retired(t, x) {
      RetiredStays(s, t, x);
    }
    if !a.Mint? && !a.Recover? {
      assert ProcessOk(s, s.processes[w]);
      DeletesRetired(s, w, a, t);
      BindsOwnRef(s, w, a, t, o);
    }
  }

  lemma {:induction false} BindsOwnRef(s: World, w: nat, a: Action, t: World, o: nat)
    requires Inv(s) && Step(s, w, a, t) && w in s.processes && o in s.processes && o != w
    ensures s.processes[o].Binding? && s.processes[o].ref !in s.used ==> s.processes[o].ref !in t.used
  {
    hide Reconciled, Latest, EntryOk, ProcessOk;
  }

  /** No step deletes a secret other than one that has retired. */
  lemma {:induction false} DeletesRetired(s: World, w: nat, a: Action, t: World)
    requires Inv(s) && Step(s, w, a, t)
    ensures forall x :: x in s.secrets && x !in t.secrets ==> x in s.used && Retired(s, x)
  {
    hide Reconciled, Latest, EntryOk, FreshRefs;
    if w in s.processes {
      assert ProcessOk(s, s.processes[w]);
    }
  }

  /** The process that takes the step ends up in order as well. */
  lemma {:induction false} OwnStepKeeps(s: World, w: nat, a: Action, t: World)
    requires Inv(s) && Step(s, w, a, t) && w in t.processes
    ensures ProcessOk(t, t.processes[w])
  {
    hide Latest, EntryOk, FreshRefs, Retryable, Orphans, Dangling;
    if a.Recover? {
      var found := Retryable(Latest(s.journal), Vault(s.secrets, {}), a.referenced);
      forall k | 0 <= k < |found| ensures Retired(t, found[k]) {
        RecoveryIsSafe(s, a.referenced, k);
      }
    } else if !a.Mint? {
      assert ProcessOk(s, s.processes[w]);
      if a.CheckOld? {
        assert s.processes[w].supersedes.value in s.used;
      }
    }
  }

  lemma {:induction false} JournalKeeps(s: World, w: nat, a: Action, t: World)
    requires Inv(s) && Step(s, w, a, t)
    ensures forall k :: 0 <= k < |t.journal| ==> EntryOk(t, t.journal[k])
  {
    hide Reconciled, Latest, FreshRefs, Retired;
    if w in s.processes {
      assert ProcessOk(s, s.processes[w]);
    }
    forall k | 0 <= k < |t.journal| ensures EntryOk(t, t.journal[k]) {
      if k < |s.journal| {
        assert EntryOk(s, s.journal[k]);
        assert t.journal[k] == s.journal[k];
      }
    }
  }

  lemma {:induction false} FreshRefsKeep(s: World, w: nat, a: Action, t: World)
    requires Inv(s) && Step(s, w, a, t)
    ensures FreshRefs(t)
  {
    hide Reconciled, Latest, EntryOk, Retired;
    forall o | o in s.processes && s.processes[o].Binding? ensures s.processes[o].ref in s.minted {
      assert ProcessOk(s, s.processes[o]);
    }
  }

  lemma {:induction false} SetsKeep(s: World, w: nat, a: Action, t: World)
    requires Inv(s) && Step(s, w, a, t)
    ensures t.profiles.Values <= t.secrets && t.profiles.Values <= t.used && t.used <= t.minted
  {
    hide Reconciled, Latest, EntryOk, FreshRefs;
    if w in s.processes {
      assert ProcessOk(s, s.processes[w]);
      if a.BindProfile? {
        UpdatedValues(s.profiles, s.processes[w].profile, s.processes[w].ref);
      }
    }
  }

  lemma {:induction false} StepKeepsInv(s: World, w: nat, a: Action, t: World)
    requires Inv(s) && Step(s, w, a, t)
    ensures Inv(t)
  {
    SetsKeep(s, w, a, t);
    FreshRefsKeep(s, w, a, t);
    JournalKeeps(s, w, a, t);
    forall o | o in t.processes ensures ProcessOk(t, t.processes[o]) {
      if o == w {
        OwnStepKeeps(s, w, a, t);
      } else {
        Bystander(s, w, a, t, o);
        StepIsGentle(s, w, a, t, o);
        GentleKeeps(s, t, s.processes[o]);
      }
    }
    hide Step, ProcessOk, EntryOk, FreshRefs;
  }

  lemma {:induction false} Bystander(s: World, w: nat, a: Action, t: World, o: nat)
    requires Step(s, w, a, t) && o in t.processes && o != w
    ensures o in s.processes && t.processes[o] == s.processes[o]
  {
    hide Reconciled, Latest;
  }

  lemma {:induction false} HousekeepingKeepsInv(s: World, t: World)
    requires Inv(s) && Housekeeping(s, t)
    ensures Inv(t)
  {
    if p :| t == s.(profiles := s.profiles - {p}) {
      UpdatedValues(s.profiles, p, p);
    }
    forall o | o in t.processes ensures ProcessOk(t, t.processes[o]) {
      assert ProcessOk(s, s.processes[o]);
    }
    forall k | 0 <= k < |t.journal| ensures EntryOk(t, t.journal[k]) {
      assert EntryOk(s, s.journal[k]);
    }
  }

  // ---------------------------------------------------------------- whole runs

  ghost predicate IsRun(run: seq<World>) {
    run != [] && Init(run[0]) && forall i :: 0 < i < |run| ==> Next(run[i - 1], run[i])
  }

  lemma {:induction false} RunKeepsInv(run: seq<World>, i: nat)
    requires IsRun(run) && i < |run|
    ensures Inv(run[i])
    decreases i
  {
    if i > 0 {
      hide Inv, Step, Housekeeping;
      RunKeepsInv(run, i - 1);
      var s, t := run[i - 1], run[i];
      assert Next(s, t);
      if w, a :| Step(s, w, a, t) {
        StepKeepsInv(s, w, a, t);
      } else {
        HousekeepingKeepsInv(s, t);
      }
    }
  }

  /** At every moment of every run, every secret that a profile points at is in the store. */
  lemma {:induction false} ReferencedSecretsExist(run: seq<World>, i: nat, profile: Text)
    requires IsRun(run) && i < |run| && profile in run[i].profiles
    ensures run[i].profiles[profile] in run[i].secrets
  {
    hide IsRun, ProcessOk, EntryOk, FreshRefs;
    RunKeepsInv(run, i);
  }

  lemma {:induction false} RetiredForGood(run: seq<World>, i: nat, j: nat, ref: Text)
    requires IsRun(run) && i <= j < |run| && Retired(run[i], ref)
    ensures Retired(run[j], ref)
    decreases j - i
  {
    hide Retired, Next, Inv, Init;
    if i < j {
      RunKeepsInv(run, i);
      assert Next(run[i], run[i + 1]);
      RetiredStays(run[i], run[i + 1], ref);
      RetiredForGood(run, i + 1, j, ref);
    }
  }

  /** A secret that any step deletes was referenced by no profile then, and is referenced by none ever after. */
  lemma {:induction false} CleanupSparesReferenced(run: seq<World>, i: nat, j: nat, ref: Text)
    requires IsRun(run) && i + 1 < |run| && i <= j < |run|
    requires ref in run[i].secrets && ref !in run[i + 1].secrets
    ensures ref !in run[j].profiles.Values
  {
    hide Init, Inv, Retired, Step;
    RunKeepsInv(run, i);
    var s, t := run[i], run[i + 1];
    assert Next(s, t);
    if w, a :| Step(s, w, a, t) {
      DeletesRetired(s, w, a, t);
    }
    RetiredForGood(run, i, j, ref);
    RetiredIsUnreferenced(run[j], ref);
  }

  lemma {:induction false} RetiredIsUnreferenced(s: World, ref: Text)
    requires Retired(s, ref)
    ensures ref !in s.profiles.Values
  {
  }

  /** Whenever recovery starts, it finds no profile whose secret is missing. */
  lemma {:induction false} NothingDangles(run: seq<World>, i: nat, referenced: seq<Text>)
    requires IsRun(run) && i < |run| && Lists(referenced, run[i].profiles)
    ensures var found := Reconciled(Latest(run[i].journal), Vault(run[i].secrets, {}), referenced);
            found.Some? && found.value.dangling == []
  {
    hide IsRun, ProcessOk, EntryOk, FreshRefs, Latest, Orphans, Retryable, Dangling;
    RunKeepsInv(run, i);
    var slots, v := Latest(run[i].journal), Vault(run[i].secrets, {});
    forall k | 0 <= k < |slots| ensures !IsDangling(slots[k], v, referenced) {
      assert slots[k].ref in referenced ==> slots[k].ref in Members(referenced);
    }
    DanglingAre(slots, v, referenced);
  }
}
