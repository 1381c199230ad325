/** The journal's lines as they are written, and what a reconciliation lists, record by record. */
module JournalForms {
  import opened Prelude
  import opened Utf8
  import opened Journal

  // ---------------------------------------------------------------- lines

  /** The words of a line: letters, digits and hyphens behind `credential:`. */
  predicate IsReference(t: Text) {
    && |t| > 11 && t[..11] == Ascii("credential:")
    && forall k :: 11 <= k < |t| ==>
         '0' as int <= t[k] <= '9' as int || 'A' as int <= t[k] <= 'Z' as int || 'a' as int <= t[k] <= 'z' as int || t[k] == '-' as int
  }

  function StageWord(s: Stage): (word: string)
    ensures forall k :: 0 <= k < |word| ==> word[k] < 128 as char
  {
    match s
    case Pending => "pending"
    case Committed => "committed"
    case Cleaned => "cleaned"
  }

  /** Profile, reference, what it supersedes or a hyphen, and the stage, with tabs between them. */
  function Written(e: Entry): Text {
    var replaced := if e.supersedes.Some? then e.supersedes.value else Ascii("-");
    e.profile + Ascii("\t") + (e.ref + Ascii("\t") + (replaced + Ascii("\t") + Ascii(StageWord(e.stage))))
  }

  predicate IsRecord(e: Entry) {
    '\t' as int !in e.profile && IsReference(e.ref) && (e.supersedes.Some? ==> IsReference(e.supersedes.value))
  }

  lemma {:induction false} ReferenceIff(t: Text)
    ensures IsReference(t) <==> IsRef(t)
  {
    assert SCHEME == Ascii("credential:");
    if IsRef(t) {
      assert t[..11] == SCHEME;
    }
  }

  lemma {:induction false} StageIs(s: Stage)
    ensures StageText(s) == Ascii(StageWord(s))
  {
  }

  lemma {:induction false} MarksAre()
    ensures Ascii("\t") == [TAB] && Ascii("-") == [MINUS]
  {
  }

  lemma {:induction false} LineIsWritten(e: Entry)
    ensures Line(e) == Written(e)
  {
    hide Ascii, StageText, StageWord;
    StageIs(e.stage);
    MarksAre();
  }

  /** Fields joined by tabs. */
  function Tabbed(fields: seq<Text>): Text {
    if fields == [] then [] else if |fields| == 1 then fields[0] else fields[0] + [TAB] + Tabbed(fields[1..])
  }

  lemma {:induction false} TabbedEmpty(rest: seq<Text>)
    requires rest != []
    ensures Tabbed([[]] + rest) == [TAB] + Tabbed(rest)
  {
    assert ([[]] + rest)[1..] == rest;
    assert [] + [TAB] + Tabbed(rest) == [TAB] + Tabbed(rest);
  }

  lemma {:induction false} TabbedHead(c: Scalar, rest: seq<Text>)
    requires rest != []
    ensures Tabbed([[c] + rest[0]] + rest[1..]) == [c] + Tabbed(rest)
  {
    var fs := [[c] + rest[0]] + rest[1..];
    assert fs[1..] == rest[1..] && |fs| == |rest|;
    assert [c] + (rest[0] + [TAB] + Tabbed(rest[1..])) == [c] + rest[0] + [TAB] + Tabbed(rest[1..]);
  }

  lemma {:induction false} FieldsJoin(t: Text)
    ensures Tabbed(Fields(t)) == t
  {
    hide Tabbed;
    if t == [] {
      assert Tabbed([[]]) == [] by { OneField(); }
    } else {
      FieldsJoin(t[1..]);
      TabbedEmpty(Fields(t[1..]));
      TabbedHead(t[0], Fields(t[1..]));
      assert t == [t[0]] + t[1..];
    }
  }

  lemma {:induction false} OneField()
    ensures Tabbed([[]]) == []
  {
  }

  lemma {:induction false} FourFields(f: seq<Text>)
    requires |f| == 4
    ensures Tabbed(f) == f[0] + [TAB] + (f[1] + [TAB] + (f[2] + [TAB] + f[3]))
  {
    assert f[1..][1..] == f[2..] && f[2..][1..] == f[3..];
    assert Tabbed(f[3..]) == f[3];
    assert Tabbed(f[2..]) == f[2] + [TAB] + f[3];
    assert Tabbed(f[1..]) == f[1] + [TAB] + Tabbed(f[2..]);
  }

  lemma {:induction false} StageOfText(t: Text)
    requires ParseStage(t).Some?
    ensures StageText(ParseStage(t).value) == t
  {
  }

  /** A line is a record exactly when it is that record as it is written. */
  lemma {:induction false} ParsesExactly(t: Text, e: Entry)
    ensures ParseLine(t) == Some(e) <==> IsRecord(e) && t == Written(e)
  {
    hide Fields, IsRef, IsReference, ParseStage, StageText, Written;
    LineIsWritten(e);
    ReferenceIff(e.ref);
    if e.supersedes.Some? {
      ReferenceIff(e.supersedes.value);
    }
    if IsRecord(e) && t == Written(e) {
      RecordParses(e);
    }
    if ParseLine(t) == Some(e) {
      var f := Fields(t);
      FieldsJoin(t);
      FourFields(f);
      StageOfText(f[3]);
      RefIsNoHyphen();
      assert e.profile + [TAB] + (e.ref + [TAB] + (Supersedes(e) + [TAB] + StageText(e.stage))) == t;
    }
  }

  lemma {:induction false} RefIsNoHyphen()
    ensures !IsRef([MINUS])
  {
  }

  lemma {:induction false} RecordParses(e: Entry)
    requires IsRecord(e)
    ensures ParseLine(Line(e)) == Some(e)
  {
    hide Fields, IsReference, IsRef;
    ReferenceIff(e.ref);
    RefIsPlain(e.ref);
    if e.supersedes.Some? {
      ReferenceIff(e.supersedes.value);
      RefIsPlain(e.supersedes.value);
    }
    var stage := StageText(e.stage);
    var last := Supersedes(e) + [TAB] + stage;
    LastField(stage);
    FieldsOf(Supersedes(e), stage);
    FieldsOf(e.ref, last);
    FieldsOf(e.profile, e.ref + [TAB] + last);
    assert Fields(Line(e)) == [e.profile, e.ref, Supersedes(e), stage];
  }

  // ---------------------------------------------------------------- what is listed

  lemma {:induction false} DanglingHas(slots: seq<Entry>, v: Vault, referenced: seq<Text>, profile: Text)
    ensures profile in Dangling(slots, v, referenced)
       <==> exists e :: e in slots && IsDangling(e, v, referenced) && e.profile == profile
  {
    hide IsDangling;
    if slots != [] {
      DanglingHas(slots[1..], v, referenced, profile);
      assert slots == [slots[0]] + slots[1..];
    }
  }

  lemma {:induction false} OrphansHave(slots: seq<Entry>, v: Vault, referenced: seq<Text>, ref: Text)
    ensures ref in Orphans(slots, v, referenced) <==> exists e :: e in slots && IsOrphan(e, v, referenced) && e.ref == ref
  {
    hide IsOrphan;
    if slots != [] {
      OrphansHave(slots[1..], v, referenced, ref);
      assert slots == [slots[0]] + slots[1..];
    }
  }

  lemma {:induction false} RetryableHave(slots: seq<Entry>, v: Vault, referenced: seq<Text>, ref: Text)
    ensures ref in Retryable(slots, v, referenced)
       <==> exists e :: e in slots && IsRetryable(e, v, referenced) && e.supersedes == Some(ref)
  {
    hide IsDangling;
    if slots != [] {
      RetryableHave(slots[1..], v, referenced, ref);
      assert slots == [slots[0]] + slots[1..];
    }
  }

  /** Present and readable. */
  predicate InVault(v: Vault, ref: Text) {
    ref in v.secrets && ref !in v.broken
  }

  /** The profile of a last record, not cleaned, whose referenced secret is gone. */
  predicate DanglesFor(e: Entry, v: Vault, referenced: seq<Text>, profile: Text) {
    e.profile == profile && e.stage != Cleaned && e.ref in referenced && e.ref !in v.secrets
  }

  /** The secret of a last record that is pending, though nothing refers to it. */
  predicate OrphanFor(e: Entry, v: Vault, referenced: seq<Text>, ref: Text) {
    e.ref == ref && e.stage == Pending && ref in v.secrets && ref !in referenced
  }

  /** The secret a committed last record replaced, still there and no longer referred to. */
  predicate RetryFor(e: Entry, v: Vault, referenced: seq<Text>, ref: Text) {
    && e.supersedes == Some(ref) && e.stage == Committed && InVault(v, ref) && ref !in referenced
    && !(e.ref in referenced && e.ref !in v.secrets)
  }

  /**
    What a reconciliation lists, told from the last record of each binding: the profiles whose secret is gone, the
    secrets nothing refers to, and the replaced secrets whose deletion can be tried again.
   */
  lemma {:induction false} ListedExactly(entries: seq<Entry>, v: Vault, referenced: seq<Text>)
    ensures var r := Reconciled(Latest(entries), v, referenced);
            r.Some? ==>
              && (forall p :: p in r.value.dangling <==> exists e :: IsLast(entries, e) && DanglesFor(e, v, referenced, p))
              && (forall s :: s in r.value.orphans <==> exists e :: IsLast(entries, e) && OrphanFor(e, v, referenced, s))
              && (forall s :: s in r.value.retryable <==> exists e :: IsLast(entries, e) && RetryFor(e, v, referenced, s))
    ensures Reconciled(Latest(entries), v, referenced).None? <==> exists e :: IsLast(entries, e) && e.ref in v.broken
  {
    hide Latest, IsLast, Dangling, Orphans, Retryable;
    var slots := Latest(entries);
    LatestKeepsTheLast(entries);
    if Answers(slots, v) {
      forall p ensures p in Dangling(slots, v, referenced) <==> exists e :: IsLast(entries, e) && DanglesFor(e, v, referenced, p) {
        DanglingHas(slots, v, referenced, p);
        DanglesIff(entries, slots, v, referenced, p);
      }
      forall s ensures s in Orphans(slots, v, referenced) <==> exists e :: IsLast(entries, e) && OrphanFor(e, v, referenced, s) {
        OrphansHave(slots, v, referenced, s);
        OrphanIff(entries, slots, v, referenced, s);
      }
      forall s ensures s in Retryable(slots, v, referenced) <==> exists e :: IsLast(entries, e) && RetryFor(e, v, referenced, s) {
        RetryableHave(slots, v, referenced, s);
        RetryIff(entries, slots, v, referenced, s);
      }
    }
  }

  ghost predicate AreLast(entries: seq<Entry>, slots: seq<Entry>, v: Vault) {
    Answers(slots, v) && forall e :: e in slots <==> IsLast(entries, e)
  }

  lemma {:induction false} DanglesIff(entries: seq<Entry>, slots: seq<Entry>, v: Vault, referenced: seq<Text>, p: Text)
    requires AreLast(entries, slots, v)
    ensures (exists e :: e in slots && IsDangling(e, v, referenced) && e.profile == p)
       <==> exists e :: IsLast(entries, e) && DanglesFor(e, v, referenced, p)
  {
    hide IsLast;
    forall e | e in slots ensures IsDangling(e, v, referenced) && e.profile == p <==> DanglesFor(e, v, referenced, p) {
    }
  }

  lemma {:induction false} OrphanIff(entries: seq<Entry>, slots: seq<Entry>, v: Vault, referenced: seq<Text>, s: Text)
    requires AreLast(entries, slots, v)
    ensures (exists e :: e in slots && IsOrphan(e, v, referenced) && e.ref == s)
       <==> exists e :: IsLast(entries, e) && OrphanFor(e, v, referenced, s)
  {
    hide IsLast;
    forall e | e in slots ensures IsOrphan(e, v, referenced) && e.ref == s <==> OrphanFor(e, v, referenced, s) {
    }
  }

  lemma {:induction false} RetryIff(entries: seq<Entry>, slots: seq<Entry>, v: Vault, referenced: seq<Text>, s: Text)
    requires AreLast(entries, slots, v)
    ensures (exists e :: e in slots && IsRetryable(e, v, referenced) && e.supersedes == Some(s))
       <==> exists e :: IsLast(entries, e) && RetryFor(e, v, referenced, s)
  {
    hide IsLast;
    forall e | e in slots ensures IsRetryable(e, v, referenced) && e.supersedes == Some(s) <==> RetryFor(e, v, referenced, s) {
    }
  }
}
