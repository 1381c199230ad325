/**
  One process at a versioned file: what each operation leaves on the disk. The lock is the caller's
  here; SharedRuns interleaves the same operations step by step.
 */
module SharedFile {
  import opened Prelude
  import opened Utf8
  import opened VersionedText

  /** The name of a conflict file is made of these three numbers. */
  datatype ConflictName = ConflictName(expected: U64, found: U64, pid: nat)

  datatype Outcome =
    | Saved(version: U64)
    | Conflict(name: ConflictName)
    | NoVersion

  /** A missing file reads as version 0 with an empty body. */
  function ReadText(text: Option<Text>): Option<Versioned> {
    match text
    case None => Some(Versioned(0, []))
    case Some(t) => Parse(t)
  }

  /** Something else wrote the file: it does not begin with `# penguin-version: `. */
  predicate Foreign(text: Option<Text>) {
    text.Some? && !(Ascii("# penguin-version: ") <= text.value)
  }

  lemma {:induction false} ForeignIsUnread(text: Option<Text>)
    ensures Foreign(text) ==> ReadText(text) == None
  {
    hide Parse;
    if Foreign(text) {
      NoHeaderNoVersion(text.value);
    }
  }

  class SharedFile {
    var main: Option<Text>
    var temps: map<nat, Text>
    var conflicts: map<ConflictName, Text>

    constructor (initial: Option<Text>)
      ensures main == initial && temps == map[] && conflicts == map[]
    {
      main, temps, conflicts := initial, map[], map[];
    }

    method Read() returns (r: Option<Versioned>)
      ensures r == ReadText(main)
      ensures main.None? ==> r == Some(Versioned(0, []))
      ensures Foreign(main) ==> r == None
    {
      ForeignIsUnread(main);
      if main.None? {
        return Some(Versioned(0, []));
      }
      r := Parse(main.value);
    }

    /** Through a temporary file of this process, and never in place. */
    method WriteAtomically(pid: nat, version: U64, body: Text)
      modifies this
      ensures main == Some(Print(version, body))
      ensures temps == old(temps) - {pid}
      ensures conflicts == old(conflicts)
    {
      temps := temps[pid := []];
      temps := temps[pid := Print(version, body)];
      main, temps := Some(temps[pid]), temps - {pid};
    }

    method WriteConflict(pid: nat, body: Text, expected: U64, found: U64) returns (name: ConflictName)
      modifies this
      ensures name == ConflictName(expected, found, pid)
      ensures conflicts == old(conflicts)[name := Print(expected, body)]
      ensures main == old(main) && temps == old(temps)
    {
      name := ConflictName(expected, found, pid);
      conflicts := conflicts[name := Print(expected, body)];
    }

    /** A process that does not take the lock replaces the file. */
    method Interfere(text: Option<Text>)
      modifies this
      ensures main == text && temps == old(temps) && conflicts == old(conflicts)
    {
      main := text;
    }

    /**
      Read, edit, look again, write. `outside` is what the file holds after the edit: what was read,
      unless something that does not take the lock wrote to it meanwhile.
     */
    method Update(pid: nat, edit: Text -> Text, outside: Option<Text>) returns (r: Outcome)
      modifies this
      ensures old(main).None? && outside.None? ==> r == Saved(1) && ReadText(main) == Some(Versioned(1, edit([])))
      ensures r.Saved? ==> ReadText(old(main)).Some? && r.version == (ReadText(old(main)).value.version + 1) % 0x1_0000_0000_0000_0000
      ensures Foreign(old(main)) ==> r == NoVersion && main == old(main)
      ensures ReadText(old(main)).Some? && Foreign(outside) ==> r == NoVersion && main == outside
      ensures ReadText(old(main)).None? ==> r == NoVersion && main == old(main)
      ensures ReadText(old(main)).Some? && ReadText(outside).None? ==> r == NoVersion && main == outside
      ensures r.NoVersion? ==> conflicts == old(conflicts) && temps == old(temps)
      ensures ReadText(old(main)).Some? && ReadText(outside).Some? ==>
        var before, after := ReadText(old(main)).value, ReadText(outside).value;
        if before.version == after.version then
          r == Saved(Succ(before.version)) && conflicts == old(conflicts)
          && ReadText(main) == Some(Versioned(Succ(before.version), edit(before.body)))
        else
          r == Conflict(ConflictName(before.version, after.version, pid)) && main == outside
          && r.name in conflicts && Parse(conflicts[r.name]) == Some(Versioned(before.version, edit(before.body)))
          && conflicts - {r.name} == old(conflicts) - {r.name}
    {
      hide Parse, Print, Foreign;
      ForeignIsUnread(main);
      ForeignIsUnread(outside);
      var first := Read();
      if first.None? {
        return NoVersion;
      }
      var body := edit(first.value.body);
      Interfere(outside);
      var second := Read();
      if second.None? {
        return NoVersion;
      }
      if second.value.version != first.value.version {
        var name := WriteConflict(pid, body, first.value.version, second.value.version);
        ParseInvertsPrint(first.value.version, body);
        return Conflict(name);
      }
      var next := Succ(first.value.version);
      WriteAtomically(pid, next, body);
      ParseInvertsPrint(next, body);
      return Saved(next);
    }

    /** Write against a version that was read earlier: compare and swap. */
    method WriteIfUnchanged(pid: nat, expected: U64, body: Text) returns (r: Outcome)
      modifies this
      ensures old(main).None? && expected == 0 ==> r == Saved(1) && ReadText(main) == Some(Versioned(1, body))
      ensures r.Saved? ==> r.version == (expected + 1) % 0x1_0000_0000_0000_0000
      ensures Foreign(old(main)) ==> r == NoVersion && main == old(main)
      ensures r.NoVersion? <==> ReadText(old(main)).None?
      ensures r.Saved? <==> ReadText(old(main)).Some? && ReadText(old(main)).value.version == expected
      ensures !r.Saved? ==> main == old(main) && temps == old(temps)
      ensures !r.Conflict? ==> conflicts == old(conflicts)
      ensures r.Saved? ==> r.version == Succ(expected) && ReadText(main) == Some(Versioned(Succ(expected), body))
      ensures r.Conflict? ==>
        && r.name == ConflictName(expected, ReadText(old(main)).value.version, pid)
        && r.name in conflicts && Parse(conflicts[r.name]) == Some(Versioned(expected, body))
        && conflicts - {r.name} == old(conflicts) - {r.name}
    {
      hide Parse, Print, Foreign;
      ForeignIsUnread(main);
      var current := Read();
      if current.None? {
        return NoVersion;
      }
      if current.value.version != expected {
        var name := WriteConflict(pid, body, expected, current.value.version);
        ParseInvertsPrint(expected, body);
        return Conflict(name);
      }
      var next := Succ(expected);
      WriteAtomically(pid, next, body);
      ParseInvertsPrint(next, body);
      return Saved(next);
    }
  }
}
