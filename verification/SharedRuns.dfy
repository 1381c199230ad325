/**
  Any number of processes at one versioned file, interleaved step by step. Any of them may stop at any
  step, by a crash or an I/O error, and the power may fail for all of them at once. The disk has inodes,
  so that a reader that opened the file keeps what it opened.
 */
module SharedRuns {
  import opened Prelude
  import opened Utf8
  import opened VersionedText
  import opened SharedFile

  // ---------------------------------------------------------------- state

  /** The contents of one inode; what is not synced can be cut short by a power failure. */
  datatype Blob = Blob(text: Text, synced: bool)

  datatype Disk = Disk(
    inodes: map<nat, Blob>, main: Option<nat>, temps: map<nat, nat>, conflicts: map<ConflictName, Blob>)

  /** `update` with its edit, or `write_if_unchanged`. */
  datatype Job = Update(edit: Text -> Text) | WriteIfUnchanged(expected: U64, body: Text)

  /** What a call reports; a save remembers which commit it was. */
  datatype Report = Wrote(version: U64, at: nat) | Refused(name: ConflictName) | Unversioned

  datatype Phase =
    | Waiting
    | Locked
    | HasRead(before: Versioned)
    | HasEdited(before: Versioned, body: Text)
    | Replacing(before: Versioned, body: Text, written: Option<nat>)
    | Synced(before: Versioned, body: Text)
    | Refusing(expected: U64, body: Text, found: U64, written: Option<nat>)
    | Leaving(report: Report)
    | Returned(report: Report)

  /** One call in one process; the lock is held from `Locked` to `Leaving`. */
  datatype Call = Call(pid: nat, job: Job, phase: Phase)

  datatype Commit = Commit(caller: nat, job: Job, before: Versioned, after: Versioned)

  datatype State = State(disk: Disk, lock: Option<nat>, calls: map<nat, Call>, log: seq<Commit>)

  // ---------------------------------------------------------------- reading the disk

  ghost function Contents(d: Disk): Option<Text> {
    if d.main.Some? && d.main.value in d.inodes then Some(d.inodes[d.main.value].text) else None
  }

  ghost function Current(d: Disk): Option<Versioned> {
    ReadText(Contents(d))
  }

  ghost function Result(job: Job, body: Text): Text {
    match job
    case Update(edit) => edit(body)
    case WriteIfUnchanged(_, b) => b
  }

  ghost function NewText(before: Versioned, body: Text): Text {
    Print(Succ(before.version), body)
  }

  // ---------------------------------------------------------------- steps

  datatype Action =
    | Acquire
    | Load
    | Edit
    | Recheck
    | CreateTemp(inode: nat)
    | WriteTemp(n: nat)
    | SyncTemp
    | Rename
    | CreateConflict
    | WriteConflict(n: nat)
    | SyncConflict
    | Leave

  /** After the first read: `update` goes on to edit, `write_if_unchanged` decides at once. */
  ghost function AfterLoad(job: Job, read: Option<Versioned>): Phase {
    match read
    case None => Leaving(Unversioned)
    case Some(before) =>
      match job
      case Update(_) => HasRead(before)
      case WriteIfUnchanged(expected, body) =>
        if before.version != expected then Refusing(expected, body, before.version, None)
        else Replacing(before, body, None)
  }

  /** After the second read of `update`. */
  ghost function AfterRecheck(before: Versioned, body: Text, read: Option<Versioned>): Phase {
    match read
    case None => Leaving(Unversioned)
    case Some(after) =>
      if after.version != before.version then Refusing(before.version, body, after.version, None)
      else Replacing(before, body, None)
  }

  ghost predicate Moves(s: State, w: nat, phase: Phase, disk: Disk, t: State) {
    w in s.calls && t == s.(disk := disk, calls := s.calls[w := s.calls[w].(phase := phase)])
  }

  /** The temporary file of this process is created, or emptied when an earlier crash left it. */
  ghost predicate Creates(d: Disk, pid: nat, inode: nat, e: Disk) {
    if pid in d.temps then
      e == d.(inodes := d.inodes[d.temps[pid] := Blob([], false)])
    else
      inode !in d.inodes && e == d.(inodes := d.inodes[inode := Blob([], false)], temps := d.temps[pid := inode])
  }

  ghost predicate Step(s: State, w: nat, a: Action, t: State) {
    && w in s.calls
    && var call := s.calls[w];
       match (a, call.phase)
       case (Acquire, Waiting) =>
         s.lock.None? && t == s.(lock := Some(w), calls := s.calls[w := call.(phase := Locked)])
       case (Load, Locked) => Moves(s, w, AfterLoad(call.job, Current(s.disk)), s.disk, t)
       case (Edit, HasRead(before)) =>
         call.job.Update? && Moves(s, w, HasEdited(before, call.job.edit(before.body)), s.disk, t)
       case (Recheck, HasEdited(before, body)) =>
         Moves(s, w, AfterRecheck(before, body, Current(s.disk)), s.disk, t)
       case (CreateTemp(inode), Replacing(before, body, None)) =>
         Creates(s.disk, call.pid, inode, t.disk) && Moves(s, w, Replacing(before, body, Some(0)), t.disk, t)
       case (WriteTemp(n), Replacing(before, body, Some(k))) =>
         && k < n <= |NewText(before, body)| && call.pid in s.disk.temps
         && Moves(s, w, Replacing(before, body, Some(n)),
                  Filled(s.disk, call.pid, Blob(NewText(before, body)[..n], false)), t)
       case (SyncTemp, Replacing(before, body, Some(k))) =>
         && k == |NewText(before, body)| && call.pid in s.disk.temps
         && Moves(s, w, Synced(before, body), Filled(s.disk, call.pid, Blob(NewText(before, body), true)), t)
       case (Rename, Synced(before, body)) =>
         && call.pid in s.disk.temps
         && Moves(s.(log := s.log + [Commit(w, call.job, before, Versioned(Succ(before.version), body))]), w,
                  Leaving(Wrote(Succ(before.version), |s.log|)), Renamed(s.disk, call.pid), t)
       case (CreateConflict, Refusing(expected, body, found, None)) =>
         Moves(s, w, Refusing(expected, body, found, Some(0)),
               Noted(s.disk, ConflictName(expected, found, call.pid), Blob([], false)), t)
       case (WriteConflict(n), Refusing(expected, body, found, Some(k))) =>
         && k < n <= |Print(expected, body)|
         && Moves(s, w, Refusing(expected, body, found, Some(n)),
                  Noted(s.disk, ConflictName(expected, found, call.pid), Blob(Print(expected, body)[..n], false)), t)
       case (SyncConflict, Refusing(expected, body, found, Some(k))) =>
         && k == |Print(expected, body)|
         && Moves(s, w, Leaving(Refused(ConflictName(expected, found, call.pid))),
                  Noted(s.disk, ConflictName(expected, found, call.pid), Blob(Print(expected, body), true)), t)
       case (Leave, Leaving(report)) =>
         t == s.(lock := None, calls := s.calls[w := call.(phase := Returned(report))])
       case _ => false
  }

  ghost function Filled(d: Disk, pid: nat, blob: Blob): Disk
    requires pid in d.temps
  {
    d.(inodes := d.inodes[d.temps[pid] := blob])
  }

  ghost function Renamed(d: Disk, pid: nat): Disk
    requires pid in d.temps
  {
    d.(main := Some(d.temps[pid]), temps := d.temps - {pid})
  }

  ghost function Noted(d: Disk, name: ConflictName, blob: Blob): Disk {
    d.(conflicts := d.conflicts[name := blob])
  }

  /** A process takes up a new call. */
  ghost predicate Begins(s: State, w: nat, pid: nat, job: Job, t: State) {
    (w in s.calls ==> s.calls[w].phase.Returned?) && t == s.(calls := s.calls[w := Call(pid, job, Waiting)])
  }

  /** A crash, or an I/O error that ends the call: the operating system drops the lock, the disk stays as it is. */
  ghost predicate Stops(s: State, w: nat, t: State) {
    && w in s.calls && !s.calls[w].phase.Returned?
    && t == s.(lock := if s.lock == Some(w) then None else s.lock, calls := s.calls - {w})
  }

  ghost predicate Torn(a: Blob, b: Blob) {
    a == b || (!a.synced && !b.synced && b.text <= a.text)
  }

  /** The power fails: no process survives, and what was not synced may have lost its end. */
  ghost predicate PowerFails(s: State, t: State) {
    && t.lock.None? && t.calls == map[] && t.log == s.log
    && t.disk.main == s.disk.main && t.disk.temps == s.disk.temps
    && t.disk.inodes.Keys == s.disk.inodes.Keys && t.disk.conflicts.Keys == s.disk.conflicts.Keys
    && (forall i :: i in s.disk.inodes ==> Torn(s.disk.inodes[i], t.disk.inodes[i]))
    && (forall n :: n in s.disk.conflicts ==> Torn(s.disk.conflicts[n], t.disk.conflicts[n]))
  }

  ghost predicate Next(s: State, t: State) {
    || (exists w, a :: Step(s, w, a, t))
    || (exists w, pid, job :: Begins(s, w, pid, job, t))
    || (exists w :: Stops(s, w, t))
    || PowerFails(s, t)
  }

  // ---------------------------------------------------------------- invariant

  /** An inode that no temporary name leads to any more. */
  ghost predicate Settled(d: Disk, i: nat) {
    i in d.inodes && d.inodes[i].synced && forall p :: p in d.temps ==> d.temps[p] != i
  }

  ghost predicate DiskOk(d: Disk) {
    && (d.main.Some? ==> Settled(d, d.main.value))
    && (forall p :: p in d.temps ==> d.temps[p] in d.inodes)
    && (forall p, q :: p in d.temps && q in d.temps && d.temps[p] == d.temps[q] ==> p == q)
  }

  /** The version and body after the commits of `log`, starting from `base`. */
  ghost function Latest(log: seq<Commit>, base: Versioned): Versioned {
    if log == [] then base else log[|log| - 1].after
  }

  /** Every commit applies its edit to exactly what the commit before it left. */
  ghost predicate Chained(log: seq<Commit>, base: Versioned) {
    forall i :: 0 <= i < |log| ==>
      && log[i].before == Latest(log[..i], base)
      && log[i].after == Versioned(Succ(log[i].before.version), Result(log[i].job, log[i].before.body))
      && (log[i].job.WriteIfUnchanged? ==> log[i].before.version == log[i].job.expected)
  }

  ghost predicate LogOk(s: State, base: Option<Versioned>) {
    match base
    case None => s.log == [] && Current(s.disk).None?
    case Some(b) => Chained(s.log, b) && Current(s.disk) == Some(Latest(s.log, b))
  }

  /** The edit of a call that reported a save is the commit it names. */
  ghost predicate Recorded(log: seq<Commit>, w: nat, job: Job, version: U64, at: nat) {
    at < |log| && log[at].caller == w && log[at].job == job && log[at].after.version == version
  }

  ghost predicate Critical(p: Phase) {
    !p.Waiting? && !p.Returned?
  }

  ghost predicate CallOk(s: State, w: nat, call: Call) {
    var d := s.disk;
    match call.phase
    case HasRead(before) => call.job.Update? && Current(d) == Some(before)
    case HasEdited(before, body) =>
      call.job.Update? && Current(d) == Some(before) && body == Result(call.job, before.body)
    case Replacing(before, body, written) =>
      && Ready(d, call.job, before, body)
      && (written.Some? ==> written.value <= |NewText(before, body)| && call.pid in d.temps
                            && d.temps[call.pid] in d.inodes
                            && d.inodes[d.temps[call.pid]] == Blob(NewText(before, body)[..written.value], false))
    case Synced(before, body) =>
      && Ready(d, call.job, before, body)
      && call.pid in d.temps && d.temps[call.pid] in d.inodes
      && d.inodes[d.temps[call.pid]] == Blob(NewText(before, body), true)
    case Refusing(expected, body, found, written) =>
      && call.job == WriteIfUnchanged(expected, body) && found != expected
      && Current(d).Some? && Current(d).value.version == found
      && (written.Some? ==> written.value <= |Print(expected, body)|)
    case Leaving(Refused(name)) =>
      && call.job.WriteIfUnchanged?
      && name in d.conflicts && d.conflicts[name] == Blob(Print(call.job.expected, call.job.body), true)
      && Current(d).Some? && name == ConflictName(call.job.expected, Current(d).value.version, call.pid)
      && name.found != name.expected
    case Leaving(Unversioned) => Current(d).None?
    case Leaving(Wrote(version, at)) => Recorded(s.log, w, call.job, version, at)
    case Returned(Wrote(version, at)) => Recorded(s.log, w, call.job, version, at)
    case _ => true
  }

  ghost predicate Ready(d: Disk, job: Job, before: Versioned, body: Text) {
    && Current(d) == Some(before) && body == Result(job, before.body)
    && (job.WriteIfUnchanged? ==> before.version == job.expected)
  }

  /** At most one call is between taking the lock and giving it back. */
  ghost predicate LockOk(s: State) {
    && (forall w :: w in s.calls && Critical(s.calls[w].phase) ==> s.lock == Some(w))
    && (s.lock.Some? ==> s.lock.value in s.calls && Critical(s.calls[s.lock.value].phase))
  }

  ghost predicate Inv(s: State, base: Option<Versioned>) {
    DiskOk(s.disk) && LogOk(s, base) && LockOk(s) && forall w :: w in s.calls ==> CallOk(s, w, s.calls[w])
  }

  /** Before the first call: some file or none, perhaps with the leftovers of earlier crashes. */
  ghost predicate Init(s: State) {
    DiskOk(s.disk) && s.lock.None? && s.calls == map[] && s.log == []
  }

  lemma {:induction false} InitHasInv(s: State)
    requires Init(s)
    ensures Inv(s, Current(s.disk))
  {
  }

  /** A step of the lock holder cannot disturb a call that does not hold the lock. */
  lemma {:induction false} OthersKeep(s: State, t: State, w: nat, base: Option<Versioned>, o: nat)
    requires Inv(s, base) && w in s.calls && Critical(s.calls[w].phase)
    requires o in s.calls && o != w && o in t.calls && t.calls[o] == s.calls[o]
    requires s.log <= t.log
    ensures CallOk(t, o, t.calls[o])
  {
  }

  // ---------------------------------------------------------------- the invariant is kept

  /** What is left to show for a step of the lock holder: the disk, the log, and its own phase. */
  lemma {:induction false} HolderKeeps(s: State, w: nat, t: State, base: Option<Versioned>)
    requires Inv(s, base) && w in s.calls && Critical(s.calls[w].phase)
    requires t.calls.Keys == s.calls.Keys && forall o :: o in s.calls && o != w ==> t.calls[o] == s.calls[o]
    requires DiskOk(t.disk) && LogOk(t, base) && s.log <= t.log && CallOk(t, w, t.calls[w])
    requires if Critical(t.calls[w].phase) then t.lock == s.lock else t.lock.None?
    ensures Inv(t, base)
  {
    hide CallOk, DiskOk, LogOk;
    forall o | o in t.calls ensures CallOk(t, o, t.calls[o]) {
      if o != w {
        OthersKeep(s, t, w, base, o);
      }
    }
  }

  lemma {:induction false} AcquireKeeps(s: State, w: nat, t: State, base: Option<Versioned>)
    requires Inv(s, base) && Step(s, w, Acquire, t)
    ensures Inv(t, base)
  {
    hide DiskOk, Current, Chained;
    forall o | o in t.calls ensures CallOk(t, o, t.calls[o]) {
      assert CallOk(s, o, s.calls[o]);
    }
  }

  /** Reading and editing leave the disk alone. */
  lemma {:induction false} ReadingKeeps(s: State, w: nat, a: Action, t: State, base: Option<Versioned>)
    requires Inv(s, base) && Step(s, w, a, t) && (a.Load? || a.Edit? || a.Recheck? || a.Leave?)
    ensures Inv(t, base)
  {
    hide DiskOk, Current, Chained, Latest, Print;
    assert CallOk(s, w, s.calls[w]);
    assert s.log == t.log && LogOk(t, base);
    HolderKeeps(s, w, t, base);
  }

  lemma {:induction false} TempKeeps(s: State, w: nat, a: Action, t: State, base: Option<Versioned>)
    requires Inv(s, base) && Step(s, w, a, t) && (a.CreateTemp? || a.WriteTemp? || a.SyncTemp?)
    ensures Inv(t, base)
  {
    hide ReadText, Chained, Latest, Print;
    assert CallOk(s, w, s.calls[w]);
    assert Contents(t.disk) == Contents(s.disk);
    assert s.log == t.log && LogOk(t, base);
    HolderKeeps(s, w, t, base);
  }

  lemma {:induction false} ConflictKeeps(s: State, w: nat, a: Action, t: State, base: Option<Versioned>)
    requires Inv(s, base) && Step(s, w, a, t) && (a.CreateConflict? || a.WriteConflict? || a.SyncConflict?)
    ensures Inv(t, base)
  {
    hide ReadText, Chained, Latest, Print;
    assert CallOk(s, w, s.calls[w]);
    assert Contents(t.disk) == Contents(s.disk);
    assert s.log == t.log && LogOk(t, base);
    HolderKeeps(s, w, t, base);
  }

  /** The rename is the commit. */
  /** After the rename the main name leads to the new text, synced, and no temporary name does. */
  lemma {:induction false} RenamedDisk(d: Disk, pid: nat, text: Text)
    requires DiskOk(d) && pid in d.temps && d.inodes[d.temps[pid]] == Blob(text, true)
    ensures DiskOk(Renamed(d, pid)) && Contents(Renamed(d, pid)) == Some(text)
  {
  }

  lemma {:induction false} RenameStep(s: State, w: nat, t: State, base: Option<Versioned>)
    requires Inv(s, base) && Step(s, w, Action.Rename, t)
    ensures w in s.calls && s.calls[w].phase.Synced? && Critical(s.calls[w].phase) && CallOk(s, w, s.calls[w])
    ensures var call := s.calls[w]; var before, body := call.phase.before, call.phase.body;
            && call.pid in s.disk.temps && t.disk == Renamed(s.disk, call.pid)
            && t.log == s.log + [Commit(w, call.job, before, Versioned(Succ(before.version), body))]
            && t.calls == s.calls[w := call.(phase := Leaving(Wrote(Succ(before.version), |s.log|)))] && t.lock == s.lock
  {
    hide CallOk, DiskOk, LogOk, Renamed;
  }

  lemma {:induction false} RenameKeeps(s: State, w: nat, t: State, base: Option<Versioned>)
    requires Inv(s, base) && Step(s, w, Action.Rename, t)
    ensures Inv(t, base)
  {
    hide Print, Parse, DiskOk, Chained, Step, Renamed, Contents, Result;
    RenameStep(s, w, t, base);
    var call := s.calls[w];
    var before, body := call.phase.before, call.phase.body;
    ParseInvertsPrint(Succ(before.version), body);
    RenamedDisk(s.disk, call.pid, NewText(before, body));
    CommitExtends(s.log, t.log[|s.log|], base.value);
    HolderKeeps(s, w, t, base);
  }

  lemma {:induction false} CommitExtends(log: seq<Commit>, c: Commit, base: Versioned)
    requires Chained(log, base) && c.before == Latest(log, base)
    requires c.after == Versioned(Succ(c.before.version), Result(c.job, c.before.body))
    requires c.job.WriteIfUnchanged? ==> c.before.version == c.job.expected
    ensures Chained(log + [c], base) && Latest(log + [c], base) == c.after
  {
    var more := log + [c];
    forall i | 0 <= i < |more| ensures
      && more[i].before == Latest(more[..i], base)
      && more[i].after == Versioned(Succ(more[i].before.version), Result(more[i].job, more[i].before.body))
      && (more[i].job.WriteIfUnchanged? ==> more[i].before.version == more[i].job.expected)
    {
      assert more[..i] == log[..i];
      if i == |log| {
        assert log[..i] == log;
      }
    }
  }

  lemma {:induction false} BeginsKeeps(s: State, w: nat, pid: nat, job: Job, t: State, base: Option<Versioned>)
    requires Inv(s, base) && Begins(s, w, pid, job, t)
    ensures Inv(t, base)
  {
    hide DiskOk, Current, Chained;
    forall o | o in t.calls ensures CallOk(t, o, t.calls[o]) {
      if o != w {
        assert CallOk(s, o, s.calls[o]);
      }
    }
  }

  lemma {:induction false} StopsKeeps(s: State, w: nat, t: State, base: Option<Versioned>)
    requires Inv(s, base) && Stops(s, w, t)
    ensures Inv(t, base)
  {
    hide DiskOk, Current, Chained;
    forall o | o in t.calls ensures CallOk(t, o, t.calls[o]) {
      assert CallOk(s, o, s.calls[o]);
    }
  }

  lemma {:induction false} PowerFailureKeeps(s: State, t: State, base: Option<Versioned>)
    requires Inv(s, base) && PowerFails(s, t)
    ensures Inv(t, base)
  {
    hide ReadText, Chained, Latest, Print;
    assert Contents(t.disk) == Contents(s.disk);
  }

  lemma {:induction false} StepKeepsInv(s: State, w: nat, a: Action, t: State, base: Option<Versioned>)
    requires Inv(s, base) && Step(s, w, a, t)
    ensures Inv(t, base)
  {
    hide Inv, Step;
    match a
    case Acquire => AcquireKeeps(s, w, t, base);
    case Rename => RenameKeeps(s, w, t, base);
    case CreateTemp(_) => TempKeeps(s, w, a, t, base);
    case WriteTemp(_) => TempKeeps(s, w, a, t, base);
    case SyncTemp => TempKeeps(s, w, a, t, base);
    case CreateConflict => ConflictKeeps(s, w, a, t, base);
    case WriteConflict(_) => ConflictKeeps(s, w, a, t, base);
    case SyncConflict => ConflictKeeps(s, w, a, t, base);
    case _ => ReadingKeeps(s, w, a, t, base);
  }

  lemma {:induction false} NextKeepsInv(s: State, t: State, base: Option<Versioned>)
    requires Inv(s, base) && Next(s, t)
    ensures Inv(t, base)
  {
    hide Inv, Step, Begins, Stops, PowerFails;
    if w, a :| Step(s, w, a, t) {
      StepKeepsInv(s, w, a, t, base);
    } else if w, pid, job :| Begins(s, w, pid, job, t) {
      BeginsKeeps(s, w, pid, job, t, base);
    } else if w :| Stops(s, w, t) {
      StopsKeeps(s, w, t, base);
    } else {
      PowerFailureKeeps(s, t, base);
    }
  }

  // ---------------------------------------------------------------- whole runs

  ghost predicate IsRun(run: seq<State>) {
    run != [] && Init(run[0]) && forall i :: 0 < i < |run| ==> Next(run[i - 1], run[i])
  }

  lemma {:induction false} RunKeepsInv(run: seq<State>, i: nat)
    requires IsRun(run) && i < |run|
    ensures Inv(run[i], Current(run[0].disk))
    decreases i
  {
    hide Inv, Init, Next;
    if i == 0 {
      InitHasInv(run[0]);
    } else {
      RunKeepsInv(run, i - 1);
      assert Next(run[i - 1], run[i]);
      NextKeepsInv(run[i - 1], run[i], Current(run[0].disk));
    }
  }

  /** The body after the edits of `log`, one on top of the other. */
  ghost function Folded(log: seq<Commit>, body: Text): Text {
    if log == [] then body else Result(log[|log| - 1].job, Folded(log[..|log| - 1], body))
  }

  lemma {:induction false} ChainedPrefix(log: seq<Commit>, base: Versioned, n: nat)
    requires Chained(log, base) && n <= |log|
    ensures Chained(log[..n], base)
  {
    hide Result, Succ;
    forall i | 0 <= i < n ensures log[..n][i].before == Latest(log[..n][..i], base) {
      assert log[..n][..i] == log[..i];
    }
  }

  lemma {:induction false} SmallRemainder(v: U64)
    ensures v % U64_LIMIT == v
  {
  }

  lemma {:induction false} SuccCounts(n: int, v: U64)
    requires v == n % U64_LIMIT
    ensures Succ(v) == (n + 1) % U64_LIMIT
  {
  }

  lemma {:induction false} LatestIsFolded(log: seq<Commit>, base: Versioned)
    requires Chained(log, base)
    ensures Latest(log, base) == Versioned((base.version + |log|) % U64_LIMIT, Folded(log, base.body))
    decreases |log|
  {
    hide Succ, Result;
    if log == [] {
      SmallRemainder(base.version);
    } else {
      var n := |log| - 1;
      ChainedPrefix(log, base, n);
      LatestIsFolded(log[..n], base);
      assert log[n].before == Latest(log[..n], base);
      SuccCounts(base.version + n, log[n].before.version);
    }
  }

  /**
    No lost update. At every moment of every run the file holds the starting text with the edits of all
    commits so far applied, each to the result of the one before, and its version counts them; a file
    without a version line is never touched.
   */
  lemma {:induction false} NoLostUpdate(run: seq<State>, i: nat)
    requires IsRun(run) && i < |run|
    ensures var s := run[i];
            match Current(run[0].disk)
            case None => s.log == [] && Current(s.disk).None?
            case Some(base) =>
              Current(s.disk)
              == Some(Versioned((base.version + |s.log|) % U64_LIMIT, Folded(s.log, base.body)))
  {
    RunKeepsInv(run, i);
    if Current(run[0].disk).Some? {
      LatestIsFolded(run[i].log, Current(run[0].disk).value);
    }
  }

  /** The version a commit produced counts the commits up to it. */
  lemma {:induction false} CommitVersion(log: seq<Commit>, base: Versioned, i: nat)
    requires Chained(log, base) && i < |log|
    ensures log[i].after.version == (base.version + i + 1) % U64_LIMIT
  {
    hide Chained, Folded;
    ChainedPrefix(log, base, i + 1);
    LatestIsFolded(log[..i + 1], base);
    assert log[..i + 1][i] == log[i];
  }

  /** Each version is produced once: two commits of a run have different versions until the counter wraps. */
  lemma {:induction false} VersionsAreProducedOnce(run: seq<State>, n: nat, i: nat, j: nat)
    requires IsRun(run) && n < |run| && i < j < |run[n].log| && j - i < U64_LIMIT
    ensures run[n].log[i].after.version != run[n].log[j].after.version
  {
    hide Init, Next, DiskOk, LockOk, CallOk, Chained, IsRun, Current;
    RunKeepsInv(run, n);
    var log, base := run[n].log, Current(run[0].disk).value;
    CommitVersion(log, base, i);
    CommitVersion(log, base, j);
    DifferentRemainders(base.version + i + 1, j - i);
  }

  lemma {:induction false} DifferentRemainders(a: int, d: int)
    requires 0 < d < U64_LIMIT
    ensures a % U64_LIMIT != (a + d) % U64_LIMIT
  {
  }

  /**
    A call that reported a save finds its own edit in the history under the version it was told, and a
    compare-and-swap was applied to the version it named.
   */
  lemma {:induction false} SavedEditsAreInTheHistory(run: seq<State>, n: nat, w: nat)
    requires IsRun(run) && n < |run|
    requires w in run[n].calls && run[n].calls[w].phase.Returned? && run[n].calls[w].phase.report.Wrote?
    ensures var s := run[n];
            var call, saved := s.calls[w], s.calls[w].phase.report;
            && saved.at < |s.log| && Current(run[0].disk).Some?
            && var c := s.log[saved.at];
               && c.caller == w && c.job == call.job && c.after.version == saved.version
               && c.after.body == Result(call.job, c.before.body)
               && (call.job.WriteIfUnchanged? ==> c.before.version == call.job.expected)
  {
    hide Init;
    RunKeepsInv(run, n);
    assert CallOk(run[n], w, run[n].calls[w]);
  }

  /** `update` never meets a conflict while every writer takes the lock. */
  lemma {:induction false} UpdateNeverConflicts(run: seq<State>, n: nat, w: nat)
    requires IsRun(run) && n < |run| && w in run[n].calls && run[n].calls[w].job.Update?
    ensures var phase := run[n].calls[w].phase;
            !phase.Refusing? && !(phase.Leaving? && phase.report.Refused?)
  {
    hide Init, Next, DiskOk, LogOk;
    RunKeepsInv(run, n);
    assert CallOk(run[n], w, run[n].calls[w]);
  }

  /**
    A refused edit is in its conflict file, complete and on stable storage, when the call returns, and
    the version really was not the expected one.
   */
  lemma {:induction false} RefusedEditIsKept(run: seq<State>, n: nat, w: nat)
    requires IsRun(run) && n + 1 < |run| && Step(run[n], w, Action.Leave, run[n + 1])
    requires run[n].calls[w].phase.report.Refused?
    ensures var t, call := run[n + 1], run[n].calls[w];
            var name := call.phase.report.name;
            && call.job.WriteIfUnchanged? && t.calls[w].phase == Returned(Refused(name))
            && name == ConflictName(call.job.expected, name.found, call.pid) && name.found != name.expected
            && Current(t.disk).Some? && Current(t.disk).value.version == name.found
            && name in t.disk.conflicts && t.disk.conflicts[name].synced
            && Parse(t.disk.conflicts[name].text) == Some(Versioned(call.job.expected, call.job.body))
  {
    hide Init, Next, DiskOk, LogOk, Parse, Print;
    RunKeepsInv(run, n);
    var call := run[n].calls[w];
    assert CallOk(run[n], w, call);
    ParseInvertsPrint(call.job.expected, call.job.body);
  }

  // ---------------------------------------------------------------- readers

  lemma {:induction false} HandleKeeps(s: State, t: State, i: nat)
    requires DiskOk(s.disk) && Next(s, t) && Settled(s.disk, i)
    ensures Settled(t.disk, i) && t.disk.inodes[i] == s.disk.inodes[i]
  {
    hide Step, ReadText, Print;
    if w, a :| Step(s, w, a, t) {
      HandleKeptByStep(s, w, a, t, i);
    }
  }

  lemma {:induction false} HandleKeptByStep(s: State, w: nat, a: Action, t: State, i: nat)
    requires DiskOk(s.disk) && Step(s, w, a, t) && Settled(s.disk, i)
    ensures Settled(t.disk, i) && t.disk.inodes[i] == s.disk.inodes[i]
  {
    hide ReadText, Print, Succ, NewText;
  }

  /** A reader that opened the file at one moment sees the same text through its handle ever after. */
  lemma {:induction false} OpenHandleNeverChanges(run: seq<State>, n: nat, m: nat)
    requires IsRun(run) && n <= m < |run| && run[n].disk.main.Some?
    ensures var i := run[n].disk.main.value;
            i in run[n].disk.inodes && Settled(run[m].disk, i)
            && run[m].disk.inodes[i] == run[n].disk.inodes[i]
    decreases m - n
  {
    hide Init, Next, LogOk, LockOk;
    RunKeepsInv(run, n);
    if m > n {
      OpenHandleNeverChanges(run, n, m - 1);
      RunKeepsInv(run, m - 1);
      assert Next(run[m - 1], run[m]);
      HandleKeeps(run[m - 1], run[m], run[n].disk.main.value);
    }
  }

  /** No step but the rename touches what the file's name leads to. */
  lemma {:induction false} OnlyRenameChanges(s: State, w: nat, a: Action, t: State)
    requires DiskOk(s.disk) && Step(s, w, a, t) && a != Action.Rename
    ensures Contents(t.disk) == Contents(s.disk)
  {
    hide ReadText, Print, Succ;
  }

  /** Between two steps the file is the same, or a complete new version of what it was. */
  lemma {:induction false} OldOrNew(run: seq<State>, n: nat)
    requires IsRun(run) && n + 1 < |run|
    ensures var s, t := run[n], run[n + 1];
            || Contents(t.disk) == Contents(s.disk)
            || (exists w, body ::
                  && Current(s.disk).Some? && w in s.calls
                  && body == Result(s.calls[w].job, Current(s.disk).value.body)
                  && Contents(t.disk) == Some(Print(Succ(Current(s.disk).value.version), body)))
  {
    hide Init, Print, Parse, LogOk, Step, Begins, Stops, DiskOk, LockOk;
    RunKeepsInv(run, n);
    var s, t := run[n], run[n + 1];
    assert Next(s, t);
    if w, a :| Step(s, w, a, t) {
      if a == Action.Rename {
        RenameIsNew(s, w, t, Current(run[0].disk));
      } else {
        OnlyRenameChanges(s, w, a, t);
      }
    } else {
      SameDisk(s, t);
    }
  }

  /** A file that something else wrote, without the header, is never changed and nothing is saved over it. */
  lemma {:induction false} ForeignIsNeverTouched(run: seq<State>, n: nat)
    requires IsRun(run) && n < |run| && Foreign(Contents(run[0].disk))
    ensures Contents(run[n].disk) == Contents(run[0].disk) && run[n].log == []
  {
    hide IsRun, Contents, Foreign, ReadText, Folded;
    ForeignIsUnread(Contents(run[0].disk));
    NoLostUpdate(run, n);
    if n > 0 {
      ForeignIsNeverTouched(run, n - 1);
      OldOrNew(run, n - 1);
    }
  }

  lemma {:induction false} RenameIsNew(s: State, w: nat, t: State, base: Option<Versioned>)
    requires Inv(s, base) && Step(s, w, Action.Rename, t)
    ensures w in s.calls && s.calls[w].phase.Synced?
    ensures var body := s.calls[w].phase.body;
            && Current(s.disk).Some? && body == Result(s.calls[w].job, Current(s.disk).value.body)
            && Contents(t.disk) == Some(Print(Succ(Current(s.disk).value.version), body))
  {
    hide Print, Parse, LogOk, LockOk;
    assert CallOk(s, w, s.calls[w]);
  }

  lemma {:induction false} SameDisk(s: State, t: State)
    requires DiskOk(s.disk) && Next(s, t) && !(exists w, a :: Step(s, w, a, t))
    ensures Contents(t.disk) == Contents(s.disk)
  {
    hide Step, ReadText, Print;
  }
}
