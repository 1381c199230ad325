/** What reconciliation reports, and what a second one still finds after the cleanups of the first. */
module Reconciling {
  import opened Prelude
  import opened Utf8
  import opened Journal

  // ---------------------------------------------------------------- who is reported

  lemma {:induction false} OrphansAre(slots: seq<Entry>, v: Vault, referenced: seq<Text>, x: Text)
    ensures x in Orphans(slots, v, referenced)
       <==> exists k :: 0 <= k < |slots| && slots[k].ref == x && IsOrphan(slots[k], v, referenced)
  {
    hide IsOrphan;
    if slots != [] {
      OrphansAre(slots[1..], v, referenced, x);
      if k :| 0 <= k < |slots| && slots[k].ref == x && IsOrphan(slots[k], v, referenced) {
        assert k > 0 ==> slots[1..][k - 1] == slots[k];
      }
    }
  }

  lemma {:induction false} RetryableAre(slots: seq<Entry>, v: Vault, referenced: seq<Text>, x: Text)
    ensures x in Retryable(slots, v, referenced)
       <==> exists k :: 0 <= k < |slots| && IsRetryable(slots[k], v, referenced) && slots[k].supersedes.value == x
  {
    hide IsDangling, Lookup;
    if slots != [] {
      RetryableAre(slots[1..], v, referenced, x);
      if k :| 0 <= k < |slots| && IsRetryable(slots[k], v, referenced) && slots[k].supersedes.value == x {
        assert k > 0 ==> slots[1..][k - 1] == slots[k];
      }
    }
  }

  lemma {:induction false} DanglingAre(slots: seq<Entry>, v: Vault, referenced: seq<Text>)
    ensures Dangling(slots, v, referenced) == []
       <==> forall k :: 0 <= k < |slots| ==> !IsDangling(slots[k], v, referenced)
  {
    hide IsDangling;
    if slots != [] {
      DanglingAre(slots[1..], v, referenced);
      assert forall k :: 0 < k < |slots| ==> slots[1..][k - 1] == slots[k];
      assert forall k :: 0 <= k < |slots[1..]| ==> slots[1..][k] == slots[k + 1];
    }
  }

  /** The record speaks for the unreferenced secret `x`. */
  predicate Reports(e: Entry, v: Vault, referenced: seq<Text>, x: Text) {
    || (e.stage.Pending? && e.ref == x)
    || (e.stage.Committed? && e.supersedes == Some(x) && (e.ref in referenced ==> Lookup(v, e.ref).Found?))
  }

  /**
    Exactly which unreferenced secrets come up: those whose own binding stopped at pending, and those a
    committed binding supersedes. Anything else the store still holds is passed over in silence.
   */
  lemma {:induction false} ReportedExactly(slots: seq<Entry>, v: Vault, referenced: seq<Text>, x: Text)
    requires Lookup(v, x).Found? && x !in referenced
    ensures x in Orphans(slots, v, referenced) || x in Retryable(slots, v, referenced)
       <==> exists k :: 0 <= k < |slots| && Reports(slots[k], v, referenced, x)
  {
    hide Orphans, Retryable, Lookup;
    OrphansAre(slots, v, referenced, x);
    RetryableAre(slots, v, referenced, x);
  }

  // ---------------------------------------------------------------- after the cleanups

  function Marked(e: Entry): Entry {
    e.(stage := Cleaned, supersedes := None)
  }

  /** The cleaned records of `profile` for these references land on this binding. */
  predicate Hit(e: Entry, profile: Text, cleaned: set<Text>) {
    e.profile == profile && e.ref in cleaned
  }

  /** The slots are as before, except that the bindings that were hit say cleaned; new slots say cleaned as well. */
  predicate Extends(next: seq<Entry>, slots: seq<Entry>, profile: Text, cleaned: set<Text>) {
    && |slots| <= |next|
    && (forall k :: 0 <= k < |slots| ==> next[k] == if Hit(slots[k], profile, cleaned) then Marked(slots[k]) else slots[k])
    && (forall k :: |slots| <= k < |next| ==> next[k].stage.Cleaned? && Hit(next[k], profile, cleaned))
  }

  lemma {:induction false} CleanedSlots(entries: seq<Entry>, profile: Text, refs: seq<Text>)
    ensures Extends(Latest(entries + CleanedEntries(profile, refs)), Latest(entries), profile, Members(refs))
  {
    hide SamePair, Extends, Absorb, SlotOf;
    if refs == [] {
      SlotsExtend(Latest(entries), profile);
      assert entries + CleanedEntries(profile, refs) == entries;
      assert Members(refs) == {};
    } else {
      var n := |refs| - 1;
      CleanedSlots(entries, profile, refs[..n]);
      var all := entries + CleanedEntries(profile, refs);
      assert CleanedEntries(profile, refs)[..n] == CleanedEntries(profile, refs[..n]);
      assert all[..|all| - 1] == entries + CleanedEntries(profile, refs[..n]);
      LatestKeepsTheLast(all[..|all| - 1]);
      assert refs == refs[..n] + [refs[n]];
      assert Members(refs) == Members(refs[..n]) + {refs[n]};
      AbsorbCleaned(Latest(all[..|all| - 1]), Latest(entries), profile, Members(refs[..n]), refs[n]);
    }
  }

  lemma {:induction false} SlotsExtend(slots: seq<Entry>, profile: Text)
    ensures Extends(slots, slots, profile, {})
  {
  }

  lemma {:induction false} AbsorbCleaned(
      next: seq<Entry>, slots: seq<Entry>, profile: Text, cleaned: set<Text>, ref: Text)
    requires Extends(next, slots, profile, cleaned) && DistinctPairs(next)
    ensures Extends(Absorb(next, CleanedEntry(profile, ref)), slots, profile, cleaned + {ref})
  {
    var at := SlotOf(next, CleanedEntry(profile, ref));
    forall k | 0 <= k < |slots| && k != at ensures !(slots[k].profile == profile && slots[k].ref == ref) {
      assert next[k].profile == slots[k].profile && next[k].ref == slots[k].ref;
      assert k < at || at < |next|;
      assert at < |next| ==> SamePair(next[at], CleanedEntry(profile, ref));
      assert k < at ==> !SamePair(next[k], CleanedEntry(profile, ref));
      assert at < k ==> !SamePair(next[at], next[k]);
    }
  }

  /** The store after the secrets of `gone` were deleted. */
  function Without(v: Vault, gone: set<Text>): Vault {
    Vault(v.secrets - gone, v.broken)
  }

  /** `gone` are secrets that reconciliation found safe to delete. */
  predicate Safe(slots: seq<Entry>, v: Vault, referenced: seq<Text>, gone: set<Text>) {
    forall x :: x in gone ==> x in Retryable(slots, v, referenced)
  }

  lemma {:induction false} SafeIsUnreferenced(slots: seq<Entry>, v: Vault, referenced: seq<Text>, x: Text)
    requires x in Retryable(slots, v, referenced)
    ensures x !in referenced && Lookup(v, x).Found?
  {
    RetryableAre(slots, v, referenced, x);
  }

  lemma {:induction false} NoDangling(slots: seq<Entry>, v: Vault, referenced: seq<Text>)
    requires forall k :: 0 <= k < |slots| ==> slots[k].stage.Cleaned?
    ensures Dangling(slots, v, referenced) == [] && Orphans(slots, v, referenced) == []
  {
    if slots != [] {
      NoDangling(slots[1..], v, referenced);
    }
  }

  /** The dangling profiles do not change. */
  lemma {:induction false} SameDangling(
      next: seq<Entry>, slots: seq<Entry>, v: Vault, referenced: seq<Text>,
      profile: Text, cleaned: set<Text>, gone: set<Text>)
    requires Extends(next, slots, profile, cleaned) && forall x :: x in cleaned || x in gone ==> x !in referenced
    ensures Dangling(next, Without(v, gone), referenced) == Dangling(slots, v, referenced)
    decreases |slots|
  {
    if slots == [] {
      NoDangling(next, Without(v, gone), referenced);
    } else {
      SameDangling(next[1..], slots[1..], v, referenced, profile, cleaned, gone);
    }
  }

  function Remaining(refs: seq<Text>, gone: set<Text>): seq<Text> {
    if refs == [] then []
    else (if refs[0] in gone then [] else [refs[0]]) + Remaining(refs[1..], gone)
  }

  /** The orphans are those from before whose secret was not deleted. */
  lemma {:induction false} FewerOrphans(
      next: seq<Entry>, slots: seq<Entry>, v: Vault, referenced: seq<Text>,
      profile: Text, cleaned: set<Text>, gone: set<Text>)
    requires Extends(next, slots, profile, cleaned) && cleaned <= gone
    ensures Orphans(next, Without(v, gone), referenced) == Remaining(Orphans(slots, v, referenced), gone)
    decreases |slots|
  {
    if slots == [] {
      NoDangling(next, Without(v, gone), referenced);
    } else {
      FewerOrphans(next[1..], slots[1..], v, referenced, profile, cleaned, gone);
      var rest := Orphans(slots[1..], v, referenced);
      assert [] + rest == rest && ([slots[0].ref] + rest)[1..] == rest;
    }
  }

  /** Some committed record asks for `x` to be deleted and keeps saying so after the cleanup. */
  predicate StillAsked(slots: seq<Entry>, v: Vault, referenced: seq<Text>, profile: Text, cleaned: set<Text>, x: Text) {
    exists k :: 0 <= k < |slots| && IsRetryable(slots[k], v, referenced) && slots[k].supersedes.value == x
             && !Hit(slots[k], profile, cleaned)
  }

  /** Cleanups asked for again are those not done for which some record was not hit. */
  lemma {:induction false} RemainingRetryable(
      next: seq<Entry>, slots: seq<Entry>, v: Vault, referenced: seq<Text>,
      profile: Text, cleaned: set<Text>, gone: set<Text>, x: Text)
    requires Extends(next, slots, profile, cleaned) && forall y :: y in cleaned || y in gone ==> y !in referenced
    ensures x in Retryable(next, Without(v, gone), referenced)
       <==> x !in gone && StillAsked(slots, v, referenced, profile, cleaned, x)
  {
    hide Retryable;
    RetryableAre(next, Without(v, gone), referenced, x);
    if k :| 0 <= k < |next| && IsRetryable(next[k], Without(v, gone), referenced) && next[k].supersedes.value == x {
      assert next[k] == slots[k];
      assert IsRetryable(slots[k], v, referenced);
    }
    if StillAsked(slots, v, referenced, profile, cleaned, x) {
      var k :| 0 <= k < |slots| && IsRetryable(slots[k], v, referenced) && slots[k].supersedes.value == x
            && !Hit(slots[k], profile, cleaned);
      assert next[k] == slots[k];
      assert x !in gone ==> IsRetryable(next[k], Without(v, gone), referenced);
    }
  }

  lemma {:induction false} AskedFirst(slots: seq<Entry>, v: Vault, referenced: seq<Text>, profile: Text, cleaned: set<Text>, x: Text)
    ensures StillAsked(slots, v, referenced, profile, cleaned, x) ==> x in Retryable(slots, v, referenced)
  {
    RetryableAre(slots, v, referenced, x);
  }

  /**
    Convergence, for every journal, store and configuration. After a cleanup that deleted `gone` and
    journalled `done` (all it was given, or less if it was cut short anywhere), a second reconciliation
    reports the same dangling profiles, the old orphans that were not deleted, and of the cleanups that were
    not done exactly those that some record still asks for: a cleaned record can hit the very binding that
    asks for another deletion, which then is not asked for again. After a complete cleanup there are none.
   */
  lemma {:induction false} SecondReconciliation(
      entries: seq<Entry>, v: Vault, referenced: seq<Text>, profile: Text, done: seq<Text>, gone: set<Text>)
    requires Answers(Latest(entries), v)
    requires Members(done) <= gone && Safe(Latest(entries), v, referenced, gone)
    ensures var slots := Latest(entries);
            var first := Reconciled(slots, v, referenced).value;
            var second := Reconciled(Latest(entries + CleanedEntries(profile, done)), Without(v, gone), referenced);
            && second.Some?
            && second.value.dangling == first.dangling
            && second.value.orphans == Remaining(first.orphans, gone)
            && (forall x :: x in second.value.retryable
                  <==> x in first.retryable && x !in gone && StillAsked(slots, v, referenced, profile, Members(done), x))
            && (gone == Members(first.retryable) ==> second.value.retryable == [])
  {
    hide Latest, CleanedEntries, Retryable, Orphans, Dangling, Lookup, StillAsked;
    var slots, next := Latest(entries), Latest(entries + CleanedEntries(profile, done));
    CleanedSlots(entries, profile, done);
    forall x | x in gone ensures x !in referenced && x !in v.broken {
      SafeIsUnreferenced(slots, v, referenced, x);
      FoundAnswers(v, x);
    }
    SameDangling(next, slots, v, referenced, profile, Members(done), gone);
    FewerOrphans(next, slots, v, referenced, profile, Members(done), gone);
    var left := Retryable(next, Without(v, gone), referenced);
    forall x ensures x in left
                <==> x in Retryable(slots, v, referenced) && x !in gone && StillAsked(slots, v, referenced, profile, Members(done), x)
    {
      RemainingRetryable(next, slots, v, referenced, profile, Members(done), gone, x);
      AskedFirst(slots, v, referenced, profile, Members(done), x);
    }
    FirstIsMember(left);
  }

  lemma {:induction false} FirstIsMember(refs: seq<Text>)
    ensures refs != [] ==> refs[0] in refs
  {
  }

  lemma {:induction false} FoundAnswers(v: Vault, x: Text)
    requires Lookup(v, x).Found?
    ensures x !in v.broken && x in v.secrets
  {
  }
}
