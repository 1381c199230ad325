/**
  The credential journal: its lines, the last state of every binding, reconciliation against the secret
  store, and the cleanups that reconciliation found safe.
 */
module Journal {
  import opened Prelude
  import opened Utf8
  import opened VersionedText

  const TAB: Scalar := 0x09
  const RETURN: Scalar := 0x0D
  const MINUS: Scalar := 0x2D

  /** `credential:` */
  const SCHEME: Text := [0x63, 0x72, 0x65, 0x64, 0x65, 0x6E, 0x74, 0x69, 0x61, 0x6C, 0x3A]

  datatype Stage = Pending | Committed | Cleaned

  datatype Entry = Entry(profile: Text, ref: Text, supersedes: Option<Text>, stage: Stage)

  function StageText(s: Stage): (t: Text)
    ensures t != [] && TAB !in t && NEWLINE !in t && t[|t| - 1] != RETURN
  {
    match s
    case Pending => [0x70, 0x65, 0x6E, 0x64, 0x69, 0x6E, 0x67]
    case Committed => [0x63, 0x6F, 0x6D, 0x6D, 0x69, 0x74, 0x74, 0x65, 0x64]
    case Cleaned => [0x63, 0x6C, 0x65, 0x61, 0x6E, 0x65, 0x64]
  }

  function ParseStage(t: Text): Option<Stage> {
    if t == StageText(Pending) then Some(Pending)
    else if t == StageText(Committed) then Some(Committed)
    else if t == StageText(Cleaned) then Some(Cleaned)
    else None
  }

  predicate IsRefChar(c: Scalar) {
    0x30 <= c <= 0x39 || 0x41 <= c <= 0x5A || 0x61 <= c <= 0x7A || c == MINUS
  }

  /** What `SecretRef::parse` accepts. */
  predicate IsRef(t: Text) {
    SCHEME <= t && |t| > |SCHEME| && forall k :: |SCHEME| <= k < |t| ==> IsRefChar(t[k])
  }

  // ---------------------------------------------------------------- lines

  function Supersedes(e: Entry): Text {
    if e.supersedes.None? then [MINUS] else e.supersedes.value
  }

  function Line(e: Entry): Text {
    e.profile + [TAB] + (e.ref + [TAB] + (Supersedes(e) + [TAB] + StageText(e.stage)))
  }

  /** The file after these records were appended to an empty one. */
  function FileOf(entries: seq<Entry>): Text {
    if entries == [] then [] else Line(entries[0]) + [NEWLINE] + FileOf(entries[1..])
  }

  function StripReturn(t: Text): Text {
    if t != [] && t[|t| - 1] == RETURN then t[..|t| - 1] else t
  }

  /** The first line, without the carriage return that a line feed may have before it. */
  function FirstLine(t: Text): Text {
    var line := SplitLine(t).0;
    if |line| < |t| then StripReturn(line) else line
  }

  /** `str::lines`. */
  function Lines(t: Text): seq<Text>
    decreases |t|
  {
    if t == [] then [] else [FirstLine(t)] + Lines(SplitLine(t).1)
  }

  /** `split('\t')`. */
  function Fields(t: Text): (r: seq<Text>)
    ensures r != [] && forall k :: 0 <= k < |r| ==> TAB !in r[k]
  {
    if t == [] then [[]]
    else
      var rest := Fields(t[1..]);
      if t[0] == TAB then [[]] + rest else [[t[0]] + rest[0]] + rest[1..]
  }

  predicate IsBlank(t: Text) {
    forall k :: 0 <= k < |t| ==> IsSpace(t[k])
  }

  function ParseLine(line: Text): Option<Entry> {
    var f := Fields(line);
    if |f| != 4 || !IsRef(f[1]) || (f[2] != [MINUS] && !IsRef(f[2])) || ParseStage(f[3]).None? then None
    else Some(Entry(f[0], f[1], if f[2] == [MINUS] then None else Some(f[2]), ParseStage(f[3]).value))
  }

  /** The records of the lines from `i` on, or the number of the first line that is none. */
  function ParseLines(lines: seq<Text>, i: nat): Result<seq<Entry>, nat>
    requires i <= |lines|
    decreases |lines| - i
  {
    if i == |lines| then Ok([])
    else if IsBlank(lines[i]) then ParseLines(lines, i + 1)
    else
      match ParseLine(lines[i])
      case None => Err(i + 1)
      case Some(e) =>
        match ParseLines(lines, i + 1)
        case Err(n) => Err(n)
        case Ok(rest) => Ok([e] + rest)
  }

  function ReadFile(file: Option<Text>): Result<seq<Entry>, nat> {
    match file
    case None => Ok([])
    case Some(t) => ParseLines(Lines(t), 0)
  }

  /** What the journal can hold: references in their written form, a profile name without tab or newline. */
  predicate Writable(e: Entry) {
    TAB !in e.profile && NEWLINE !in e.profile && IsRef(e.ref) && (e.supersedes.Some? ==> IsRef(e.supersedes.value))
  }

  lemma {:induction false} FieldsOf(field: Text, rest: Text)
    requires TAB !in field
    ensures Fields(field + [TAB] + rest) == [field] + Fields(rest)
  {
    var t := field + [TAB] + rest;
    if field == [] {
      assert t[1..] == rest;
    } else {
      assert t[1..] == field[1..] + [TAB] + rest;
      FieldsOf(field[1..], rest);
      assert field == [field[0]] + field[1..];
    }
  }

  lemma {:induction false} LastField(field: Text)
    requires TAB !in field
    ensures Fields(field) == [field]
  {
    if field != [] {
      LastField(field[1..]);
      assert field == [field[0]] + field[1..];
    }
  }

  lemma {:induction false} RefIsPlain(t: Text)
    requires IsRef(t)
    ensures TAB !in t && NEWLINE !in t && t != [MINUS] && t != [] && !IsSpace(t[0])
  {
    forall k | 0 <= k < |t| ensures t[k] != TAB && t[k] != NEWLINE {
      if k < |SCHEME| {
        assert t[k] == SCHEME[k];
      }
    }
    assert t[0] == SCHEME[0];
  }

  lemma {:induction false} ParseLineOf(e: Entry)
    requires Writable(e)
    ensures ParseLine(Line(e)) == Some(e)
  {
    hide Fields, IsRef;
    RefIsPlain(e.ref);
    if e.supersedes.Some? {
      RefIsPlain(e.supersedes.value);
    }
    var stage := StageText(e.stage);
    var last := Supersedes(e) + [TAB] + stage;
    LastField(stage);
    FieldsOf(Supersedes(e), stage);
    FieldsOf(e.ref, last);
    FieldsOf(e.profile, e.ref + [TAB] + last);
    assert Fields(Line(e)) == [e.profile, e.ref, Supersedes(e), stage];
  }

  lemma {:induction false} LineIsOne(e: Entry)
    requires Writable(e)
    ensures NEWLINE !in Line(e) && StripReturn(Line(e)) == Line(e) && !IsBlank(Line(e))
  {
    hide IsRef;
    RefIsPlain(e.ref);
    if e.supersedes.Some? {
      RefIsPlain(e.supersedes.value);
    }
    var l, stage := Line(e), StageText(e.stage);
    assert l[|l| - 1] == stage[|stage| - 1];
    assert l[|e.profile| + 1] == e.ref[0];
  }

  lemma {:induction false} ParseLinesSkip(first: Text, lines: seq<Text>, i: nat)
    requires i <= |lines|
    ensures match ParseLines(lines, i)
            case Ok(es) => ParseLines([first] + lines, i + 1) == Ok(es)
            case Err(n) => ParseLines([first] + lines, i + 1) == Err(n + 1)
    decreases |lines| - i
  {
    hide ParseLine, IsBlank;
    if i < |lines| {
      ParseLinesSkip(first, lines, i + 1);
      assert ([first] + lines)[i + 1] == lines[i];
    }
  }

  /** Records that were appended, one after the other, are read back as they were. */
  lemma {:induction false} ReadBack(entries: seq<Entry>)
    requires forall k :: 0 <= k < |entries| ==> Writable(entries[k])
    ensures ReadFile(Some(FileOf(entries))) == Ok(entries)
    decreases |entries|
  {
    hide Writable, ParseLine, Line, StripReturn, IsBlank, SplitLine;
    if entries != [] {
      var e, rest := entries[0], FileOf(entries[1..]);
      ReadBack(entries[1..]);
      LineIsOne(e);
      SplitLineOf(Line(e), rest);
      ParseLineOf(e);
      assert Lines(FileOf(entries)) == [Line(e)] + Lines(rest);
      ParseLinesSkip(Line(e), Lines(rest), 0);
      assert [e] + entries[1..] == entries;
    } else {
      assert Lines([]) == [];
    }
  }

  lemma {:induction false} FieldsComeFromTheLine(t: Text, c: Scalar)
    requires c !in t
    ensures forall k :: 0 <= k < |Fields(t)| ==> c !in Fields(t)[k]
  {
    if t != [] {
      FieldsComeFromTheLine(t[1..], c);
    }
  }

  lemma {:induction false} LinesHaveNoNewline(t: Text)
    ensures forall k :: 0 <= k < |Lines(t)| ==> NEWLINE !in Lines(t)[k]
    decreases |t|
  {
    if t != [] {
      FirstLineHasNoNewline(t);
      LinesHaveNoNewline(SplitLine(t).1);
    }
  }

  lemma {:induction false} FirstLineHasNoNewline(t: Text)
    ensures NEWLINE !in SplitLine(t).0
  {
    if t != [] {
      FirstLineHasNoNewline(t[1..]);
    }
  }

  lemma {:induction false} ParsedIsWritable(lines: seq<Text>, i: nat)
    requires i <= |lines| && forall k :: 0 <= k < |lines| ==> NEWLINE !in lines[k]
    ensures ParseLines(lines, i).Ok? ==>
      forall k :: 0 <= k < |ParseLines(lines, i).value| ==> Writable(ParseLines(lines, i).value[k])
    decreases |lines| - i
  {
    hide Fields, IsRef, ParseStage, IsBlank;
    if i < |lines| {
      ParsedIsWritable(lines, i + 1);
      FieldsComeFromTheLine(lines[i], NEWLINE);
    }
  }

  /** Appended records are read back exactly when all of them are writable; nothing else can be read at all. */
  lemma {:induction false} ReadBackIffWritable(entries: seq<Entry>)
    ensures ReadFile(Some(FileOf(entries))) == Ok(entries) <==> forall k :: 0 <= k < |entries| ==> Writable(entries[k])
  {
    hide Writable, ParseLines, Lines, FileOf;
    if forall k :: 0 <= k < |entries| ==> Writable(entries[k]) {
      ReadBack(entries);
    } else {
      LinesHaveNoNewline(FileOf(entries));
      ParsedIsWritable(Lines(FileOf(entries)), 0);
    }
  }

  lemma {:induction false} FileOfMore(entries: seq<Entry>, more: seq<Entry>)
    ensures FileOf(entries + more) == FileOf(entries) + FileOf(more)
  {
    hide Line;
    if entries == [] {
      assert entries + more == more;
    } else {
      FileOfMore(entries[1..], more);
      assert (entries + more)[1..] == entries[1..] + more;
    }
  }

  // ---------------------------------------------------------------- latest states

  predicate SamePair(a: Entry, b: Entry) {
    a.profile == b.profile && a.ref == b.ref
  }

  /** The slot of the record's binding, or the number of slots. */
  function SlotOf(slots: seq<Entry>, e: Entry): (k: nat)
    ensures k <= |slots|
    ensures k < |slots| ==> SamePair(slots[k], e)
    ensures forall m :: 0 <= m < k ==> !SamePair(slots[m], e)
  {
    if slots == [] then 0 else if SamePair(slots[0], e) then 0 else 1 + SlotOf(slots[1..], e)
  }

  function Absorb(slots: seq<Entry>, e: Entry): seq<Entry> {
    var k := SlotOf(slots, e);
    if k < |slots| then slots[k := slots[k].(stage := e.stage, supersedes := e.supersedes)] else slots + [e]
  }

  function Latest(entries: seq<Entry>): seq<Entry> {
    if entries == [] then [] else Absorb(Latest(entries[..|entries| - 1]), entries[|entries| - 1])
  }

  predicate DistinctPairs(slots: seq<Entry>) {
    forall i, j :: 0 <= i < j < |slots| ==> !SamePair(slots[i], slots[j])
  }

  /** `e` is the last record of its binding in the journal. */
  predicate IsLast(entries: seq<Entry>, e: Entry) {
    exists i :: 0 <= i < |entries| && entries[i] == e && forall j :: i < j < |entries| ==> !SamePair(entries[j], e)
  }

  /** One slot for each binding, and in it the last record of that binding. */
  lemma {:induction false} LatestKeepsTheLast(entries: seq<Entry>)
    ensures DistinctPairs(Latest(entries))
    ensures forall e :: e in Latest(entries) <==> IsLast(entries, e)
  {
    hide SamePair;
    if entries != [] {
      var n := |entries| - 1;
      var before, last := entries[..n], entries[n];
      LatestKeepsTheLast(before);
      LastOfMore(before, last);
      assert before + [last] == entries;
      AbsorbSlots(Latest(before), last);
    }
  }

  lemma {:induction false} PairLaws()
    ensures forall a, b :: SamePair(a, b) ==> SamePair(b, a)
    ensures forall a, b, c :: SamePair(a, b) && SamePair(b, c) ==> SamePair(a, c)
    ensures forall a :: SamePair(a, a)
  {
  }

  lemma {:induction false} LastOfMore(before: seq<Entry>, last: Entry)
    ensures forall e :: IsLast(before + [last], e) <==> e == last || (IsLast(before, e) && !SamePair(last, e))
  {
    hide SamePair;
    var all := before + [last];
    PairLaws();
    forall e ensures IsLast(all, e) <==> e == last || (IsLast(before, e) && !SamePair(last, e)) {
      if IsLast(all, e) && e != last {
        var i :| 0 <= i < |all| && all[i] == e && forall j :: i < j < |all| ==> !SamePair(all[j], e);
        assert all[|before|] == last;
        assert forall j :: i < j < |before| ==> before[j] == all[j];
        assert before[i] == e;
      }
      if e == last {
        assert all[|before|] == e;
      } else if IsLast(before, e) && !SamePair(last, e) {
        var i :| 0 <= i < |before| && before[i] == e && forall j :: i < j < |before| ==> !SamePair(before[j], e);
        assert all[i] == e;
        assert forall j :: i < j < |before| ==> all[j] == before[j];
      }
    }
  }

  lemma {:induction false} AbsorbSlots(slots: seq<Entry>, e: Entry)
    requires DistinctPairs(slots)
    ensures DistinctPairs(Absorb(slots, e))
    ensures forall x :: x in Absorb(slots, e) <==> x == e || (x in slots && !SamePair(e, x))
  {
    var k, next := SlotOf(slots, e), Absorb(slots, e);
    assert next[k] == e;
    forall x ensures x in next <==> x == e || (x in slots && !SamePair(e, x)) {
      if x in slots && !SamePair(e, x) {
        var m :| 0 <= m < |slots| && slots[m] == x;
        assert next[m] == x;
      }
      if x in next && x != e {
        var m :| 0 <= m < |next| && next[m] == x;
        assert m < |slots| && slots[m] == x;
        assert !SamePair(e, x);
      }
    }
  }

  // ---------------------------------------------------------------- reconciliation

  /** The secret store: what it holds, and the references it cannot answer for at the moment. */
  datatype Vault = Vault(secrets: set<Text>, broken: set<Text>)

  datatype Answer = Found | NotFound | Unavailable

  function Lookup(v: Vault, ref: Text): Answer {
    if ref in v.broken then Unavailable else if ref in v.secrets then Found else NotFound
  }

  datatype Reconciliation = Reconciliation(orphans: seq<Text>, dangling: seq<Text>, retryable: seq<Text>)

  predicate IsOrphan(e: Entry, v: Vault, referenced: seq<Text>) {
    e.stage.Pending? && Lookup(v, e.ref).Found? && e.ref !in referenced
  }

  predicate IsDangling(e: Entry, v: Vault, referenced: seq<Text>) {
    !e.stage.Cleaned? && !Lookup(v, e.ref).Found? && e.ref in referenced
  }

  predicate IsRetryable(e: Entry, v: Vault, referenced: seq<Text>) {
    && e.stage.Committed? && !IsDangling(e, v, referenced)
    && e.supersedes.Some? && e.supersedes.value !in referenced && Lookup(v, e.supersedes.value).Found?
  }

  function Orphans(slots: seq<Entry>, v: Vault, referenced: seq<Text>): seq<Text> {
    if slots == [] then []
    else (if IsOrphan(slots[0], v, referenced) then [slots[0].ref] else []) + Orphans(slots[1..], v, referenced)
  }

  function Dangling(slots: seq<Entry>, v: Vault, referenced: seq<Text>): seq<Text> {
    if slots == [] then []
    else (if IsDangling(slots[0], v, referenced) then [slots[0].profile] else []) + Dangling(slots[1..], v, referenced)
  }

  function Retryable(slots: seq<Entry>, v: Vault, referenced: seq<Text>): seq<Text> {
    if slots == [] then []
    else
      (if IsRetryable(slots[0], v, referenced) then [slots[0].supersedes.value] else [])
      + Retryable(slots[1..], v, referenced)
  }

  lemma {:induction false} OneMoreSlot(slots: seq<Entry>, i: nat, v: Vault, referenced: seq<Text>)
    requires i < |slots|
    ensures Orphans(slots[i..], v, referenced)
         == (if IsOrphan(slots[i], v, referenced) then [slots[i].ref] else []) + Orphans(slots[i + 1..], v, referenced)
    ensures Dangling(slots[i..], v, referenced)
         == (if IsDangling(slots[i], v, referenced) then [slots[i].profile] else [])
            + Dangling(slots[i + 1..], v, referenced)
    ensures Retryable(slots[i..], v, referenced)
         == (if IsRetryable(slots[i], v, referenced) then [slots[i].supersedes.value] else [])
            + Retryable(slots[i + 1..], v, referenced)
  {
    assert slots[i..][1..] == slots[i + 1..];
  }

  lemma {:induction false} NoMoreSlots(slots: seq<Entry>, v: Vault, referenced: seq<Text>)
    ensures var none := slots[|slots|..];
            Orphans(none, v, referenced) == [] && Dangling(none, v, referenced) == [] && Retryable(none, v, referenced) == []
  {
  }

  predicate Answers(slots: seq<Entry>, v: Vault) {
    forall k :: 0 <= k < |slots| ==> slots[k].ref !in v.broken
  }

  /** What `reconcile` reports of the journal's latest states; it gives up when the store cannot answer. */
  function Reconciled(slots: seq<Entry>, v: Vault, referenced: seq<Text>): Option<Reconciliation> {
    if Answers(slots, v)
    then Some(Reconciliation(Orphans(slots, v, referenced), Dangling(slots, v, referenced), Retryable(slots, v, referenced)))
    else None
  }

  // ---------------------------------------------------------------- the journal at work

  class CredentialStore {
    var secrets: set<Text>
    var broken: set<Text>

    constructor (secrets: set<Text>, broken: set<Text>)
      ensures State() == Vault(secrets, broken)
    {
      this.secrets, this.broken := secrets, broken;
    }

    function State(): Vault
      reads this
    {
      Vault(secrets, broken)
    }

    method Get(ref: Text) returns (a: Answer)
      ensures a == Lookup(State(), ref)
    {
      a := if ref in broken then Unavailable else if ref in secrets then Found else NotFound;
    }

    /** Deleting something that is absent is a success. */
    method Delete(ref: Text) returns (ok: bool)
      modifies this
      ensures ok == (ref !in old(broken)) && broken == old(broken)
      ensures secrets == if ok then old(secrets) - {ref} else old(secrets)
    {
      ok := ref !in broken;
      if ok {
        secrets := secrets - {ref};
      }
    }
  }

  function CleanedEntry(profile: Text, ref: Text): Entry {
    Entry(profile, ref, None, Cleaned)
  }

  function CleanedEntries(profile: Text, refs: seq<Text>): (es: seq<Entry>)
    ensures |es| == |refs| && forall k :: 0 <= k < |refs| ==> es[k] == CleanedEntry(profile, refs[k])
  {
    if refs == [] then [] else CleanedEntries(profile, refs[..|refs| - 1]) + [CleanedEntry(profile, refs[|refs| - 1])]
  }

  class Journal {
    var file: Option<Text>

    constructor (file: Option<Text>)
      ensures this.file == file
    {
      this.file := file;
    }

    method Append(e: Entry)
      modifies this
      ensures file == Some((if old(file).None? then [] else old(file).value) + FileOf([e]))
    {
      var line := Line(e) + [NEWLINE];
      assert FileOf([e]) == line;
      file := Some((if file.None? then [] else file.value) + line);
    }

    method Read() returns (r: Result<seq<Entry>, nat>)
      ensures r == ReadFile(file)
    {
      hide ParseLine, IsBlank, Lines;
      if file.None? {
        return Ok([]);
      }
      var lines := Lines(file.value);
      var out: seq<Entry> := [];
      assert ParseLines(lines, 0).Ok? ==> out + ParseLines(lines, 0).value == ParseLines(lines, 0).value;
      for i := 0 to |lines|
        invariant match ParseLines(lines, i)
                  case Ok(rest) => ReadFile(file) == Ok(out + rest)
                  case Err(n) => ReadFile(file) == Err(n)
      {
        if !IsBlank(lines[i]) {
          var e := ParseLine(lines[i]);
          if e.None? {
            return Err(i + 1);
          }
          assert ParseLines(lines, i).Ok? ==>
            out + ParseLines(lines, i).value == out + [e.value] + ParseLines(lines, i + 1).value;
          out := out + [e.value];
        }
      }
      assert out + [] == out;
      r := Ok(out);
    }

    /** The slots of `latest`, updated in place as the records are read. */
    method LatestStates() returns (r: Result<seq<Entry>, nat>)
      ensures match ReadFile(file)
              case Err(n) => r == Err(n)
              case Ok(all) => r == Ok(Latest(all))
    {
      hide ReadFile;
      var all := Read();
      if all.Err? {
        return Err(all.error);
      }
      var out: seq<Entry> := [];
      for i := 0 to |all.value|
        invariant out == Latest(all.value[..i])
      {
        var e := all.value[i];
        var k := 0;
        assert out[0..] == out;
        while k < |out| && !SamePair(out[k], e)
          invariant k <= |out| && SlotOf(out, e) == k + SlotOf(out[k..], e)
        {
          k := k + 1;
        }
        assert all.value[..i + 1][..i] == all.value[..i];
        if k < |out| {
          out := out[k := out[k].(stage := e.stage, supersedes := e.supersedes)];
        } else {
          out := out + [e];
        }
      }
      assert all.value[..|all.value|] == all.value;
      r := Ok(out);
    }

    /** Nothing is deleted here; `None` stands for a journal or a store that cannot be read. */
    method Reconcile(store: CredentialStore, referenced: seq<Text>) returns (r: Option<Reconciliation>)
      ensures match ReadFile(file)
              case Err(_) => r == None
              case Ok(all) => r == Reconciled(Latest(all), store.State(), referenced)
    {
      hide ReadFile, Latest, Orphans, Dangling, Retryable;
      var slots := LatestStates();
      if slots.Err? {
        return None;
      }
      var es, v := slots.value, store.State();
      var orphans, dangling, retryable := [], [], [];
      assert es[0..] == es;
      for i := 0 to |es|
        invariant forall k :: 0 <= k < i ==> es[k].ref !in v.broken
        invariant orphans + Orphans(es[i..], v, referenced) == Orphans(es, v, referenced)
        invariant dangling + Dangling(es[i..], v, referenced) == Dangling(es, v, referenced)
        invariant retryable + Retryable(es[i..], v, referenced) == Retryable(es, v, referenced)
      {
        var e := es[i];
        OneMoreSlot(es, i, v, referenced);
        var got := store.Get(e.ref);
        if got.Unavailable? {
          return None;
        }
        var isReferenced := e.ref in referenced;
        if e.stage.Pending? && got.Found? && !isReferenced {
          orphans := orphans + [e.ref];
        } else if !e.stage.Cleaned? && !got.Found? && isReferenced {
          dangling := dangling + [e.profile];
        } else if e.stage.Committed? {
          if e.supersedes.Some? && e.supersedes.value !in referenced {
            var older := store.Get(e.supersedes.value);
            if older.Found? {
              retryable := retryable + [e.supersedes.value];
            }
          }
        }
      }
      NoMoreSlots(es, v, referenced);
      assert orphans + [] == orphans && dangling + [] == dangling && retryable + [] == retryable;
      r := Some(Reconciliation(orphans, dangling, retryable));
    }

    /** Deletes and journals one superseded secret after the other; stops where the store refuses. */
    method FinishCleanups(store: CredentialStore, r: Reconciliation, profile: Text) returns (n: Option<nat>)
      modifies this, store
      ensures n.Some? ==> n.value == |r.retryable|
      ensures n.Some? <==> forall k :: 0 <= k < |r.retryable| ==> r.retryable[k] !in old(store.broken)
      ensures store.broken == old(store.broken)
      ensures exists done: nat | done <= |r.retryable| ::
        && (n.Some? ==> done == |r.retryable|)
        && (n.None? ==> done < |r.retryable| && r.retryable[done] in old(store.broken))
        && store.secrets == old(store.secrets) - Members(r.retryable[..done])
        && file == Appended(old(file), CleanedEntries(profile, r.retryable[..done]))
    {
      hide FileOf;
      var i := 0;
      var refs := r.retryable;
      while i < |refs|
        invariant i <= |refs|
        invariant store.broken == old(store.broken)
        invariant forall k :: 0 <= k < i ==> refs[k] !in store.broken
        invariant store.secrets == old(store.secrets) - Members(refs[..i])
        invariant file == Appended(old(file), CleanedEntries(profile, refs[..i]))
      {
        var ok := store.Delete(refs[i]);
        if !ok {
          return None;
        }
        Append(CleanedEntry(profile, refs[i]));
        assert refs[..i + 1][..i] == refs[..i];
        AppendedOneMore(old(file), CleanedEntries(profile, refs[..i]), CleanedEntry(profile, refs[i]));
        i := i + 1;
      }
      assert refs[..i] == refs;
      n := Some(i);
    }
  }

  function Members(refs: seq<Text>): set<Text> {
    set r | r in refs
  }

  /** A journal file after further records. */
  function Appended(file: Option<Text>, entries: seq<Entry>): Option<Text> {
    if entries == [] then file else Some((if file.None? then [] else file.value) + FileOf(entries))
  }

  lemma {:induction false} AppendedOneMore(file: Option<Text>, entries: seq<Entry>, e: Entry)
    ensures var now := Appended(file, entries);
            Appended(file, entries + [e]) == Some((if now.None? then [] else now.value) + FileOf([e]))
  {
    hide FileOf;
    var text := if file.None? then [] else file.value;
    if entries == [] {
      assert entries + [e] == [e];
    } else {
      FileOfMore(entries, [e]);
      assert text + FileOf(entries) + FileOf([e]) == text + (FileOf(entries) + FileOf([e]));
    }
  }
}
