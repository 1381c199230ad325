/**
  Task supervision: handles are kept for every unfinished task, pruned now and then, and aborted at the
  end. A task's end is one step here: its guard drops as its handle reports it finished. An abort is a
  request; the task ends some time after it.
 */
module TaskScope {
  const FLOOR: nat := 64

  /**
    `running` are the scope's unfinished tasks, `aborted` those that were asked to stop while they ran;
    `scanned` counts the handles that prune passes looked at.
   */
  datatype Scope = Scope(
    aborts: seq<nat>, running: set<nat>, cancelled: bool, aborted: set<nat>, spawns: nat, scanned: nat)

  const NEW := Scope([], {}, false, {}, 0, 0)

  function Live(s: Scope): nat {
    |s.running|
  }

  function Ended(s: Scope, done: set<nat>): Scope {
    s.(running := s.running - done)
  }

  /** The handles of unfinished tasks. */
  function Unfinished(aborts: seq<nat>, running: set<nat>): seq<nat> {
    if aborts == [] then []
    else
      var rest := Unfinished(aborts[..|aborts| - 1], running);
      if aborts[|aborts| - 1] in running then rest + [aborts[|aborts| - 1]] else rest
  }

  predicate Prunes(s: Scope) {
    |s.aborts| >= FLOOR && |s.aborts| > 2 * Live(s)
  }

  /** `prune_finished`; the tasks of `late` end between reading the counter and asking the handles. */
  function Pruned(s: Scope, late: set<nat>): Scope {
    var now := Ended(s, late);
    if Prunes(s) then now.(aborts := Unfinished(s.aborts, now.running), scanned := s.scanned + |s.aborts|) else now
  }

  function Started(s: Scope, id: nat): Scope {
    s.(running := s.running + {id}, aborts := s.aborts + [id], spawns := s.spawns + 1)
  }

  /** `spawn`; the tasks of `early`, the new one perhaps among them, end before the counter is read. */
  function Spawned(s: Scope, id: nat, early: set<nat>, late: set<nat>): Scope {
    Pruned(Ended(Started(s, id), early), late)
  }

  /**
    `shutdown`: the tasks of `leaving` end within the bounded wait. If any is left all handles are aborted,
    before which the tasks of `late` end.
   */
  function ShutDown(s: Scope, leaving: set<nat>, late: set<nat>): Scope {
    var waited := Ended(s.(cancelled := true), leaving);
    var stopped := if waited.running == {} then waited else Aborted(Ended(waited, late));
    stopped.(aborts := [])
  }

  /** The handles that an abort finds unfinished. */
  function Hits(aborts: seq<nat>, running: set<nat>): set<nat> {
    if aborts == [] then {}
    else
      var rest := Hits(aborts[..|aborts| - 1], running);
      if aborts[|aborts| - 1] in running then rest + {aborts[|aborts| - 1]} else rest
  }

  function Aborted(s: Scope): Scope {
    s.(aborted := s.aborted + Hits(s.aborts, s.running))
  }

  /** `Drop`. */
  function Dropped(s: Scope): Scope {
    Aborted(s.(cancelled := true))
  }

  // ---------------------------------------------------------------- the scope as an object

  class TaskScope {
    var aborts: seq<nat>
    var live: nat
    var cancelled: bool
    /** What the runtime knows of this scope's tasks, and what the model counts. */
    var running: set<nat>
    var aborted: set<nat>
    var spawns: nat
    var scanned: nat

    constructor ()
      ensures State() == NEW && Valid()
    {
      aborts, live, cancelled, running, aborted, spawns, scanned := [], 0, false, {}, {}, 0, 0;
    }

    function State(): Scope
      reads this
    {
      Scope(aborts, running, cancelled, aborted, spawns, scanned)
    }

    /** The counter is the number of unfinished tasks. */
    predicate Valid()
      reads this
    {
      live == |running|
    }

    /** Tasks end by themselves: their guards count down. */
    method TasksEnd(done: set<nat>)
      requires Valid()
      modifies this`running, this`live
      ensures Valid() && State() == Ended(old(State()), done)
    {
      running := running - done;
      live := |running|;
    }

    method Spawn(id: nat, early: set<nat>, late: set<nat>)
      requires Valid() && id !in running
      modifies this
      ensures Valid() && State() == Spawned(old(State()), id, early, late)
    {
      live := live + 1;
      running := running + {id};
      aborts := aborts + [id];
      spawns := spawns + 1;
      TasksEnd(early);
      PruneFinished(late);
    }

    method PruneFinished(late: set<nat>)
      requires Valid()
      modifies this
      ensures Valid() && State() == Pruned(old(State()), late)
    {
      var counted := live;
      TasksEnd(late);
      if |aborts| >= FLOOR && |aborts| > 2 * counted {
        scanned := scanned + |aborts|;
        var kept: seq<nat> := [];
        for k := 0 to |aborts|
          invariant kept == Unfinished(aborts[..k], running)
        {
          assert aborts[..k + 1][..k] == aborts[..k];
          if aborts[k] in running {
            kept := kept + [aborts[k]];
          }
        }
        assert aborts[..|aborts|] == aborts;
        aborts := kept;
      }
    }

    method AbortAll()
      requires Valid()
      modifies this`aborted
      ensures Valid() && State() == Aborted(old(State()))
    {
      var handles, unfinished := aborts, running;
      var hit: set<nat> := {};
      for k := 0 to |handles|
        invariant hit == Hits(handles[..k], unfinished)
      {
        assert handles[..k + 1][..k] == handles[..k];
        if handles[k] in unfinished {
          hit := hit + {handles[k]};
        }
      }
      assert handles[..|handles|] == handles;
      aborted := aborted + hit;
    }

    method Shutdown(leaving: set<nat>, late: set<nat>) returns (drained: bool)
      requires Valid()
      modifies this
      ensures Valid() && State() == ShutDown(old(State()), leaving, late)
      ensures drained <==> old(running) <= leaving
    {
      cancelled := true;
      TasksEnd(leaving);
      assert running == {} ==> old(running) <= leaving by {
        forall t | t in old(running) && t !in leaving ensures t in running {
        }
      }
      assert |running| == 0 <==> running == {};
      drained := live == 0;
      if !drained {
        TasksEnd(late);
        AbortAll();
      }
      aborts := [];
    }

    method Drop()
      requires Valid()
      modifies this
      ensures Valid() && State() == Dropped(old(State()))
    {
      cancelled := true;
      AbortAll();
    }
  }

  // ---------------------------------------------------------------- runs

  datatype Event =
    | Spawn(id: nat, early: set<nat>, late: set<nat>)
    | End(done: set<nat>)
    | Shutdown(leaving: set<nat>, late: set<nat>)

  predicate Distinct(s: seq<nat>) {
    forall i, j :: 0 <= i < j < |s| ==> s[i] != s[j]
  }

  /** Task identities are never used twice. */
  predicate Allowed(s: Scope, e: Event) {
    e.Spawn? ==> e.id !in s.aborts && e.id !in s.running && e.id !in s.aborted
  }

  function Apply(s: Scope, e: Event): Scope {
    match e
    case Spawn(id, early, late) => Spawned(s, id, early, late)
    case End(done) => Ended(s, done)
    case Shutdown(leaving, late) => ShutDown(s, leaving, late)
  }

  function After(events: seq<Event>): Scope {
    if events == [] then NEW else Apply(After(events[..|events| - 1]), events[|events| - 1])
  }

  predicate IsRun(events: seq<Event>) {
    forall k :: 0 <= k < |events| ==> Allowed(After(events[..k]), events[k])
  }

  /**
    Every unfinished task is tracked, once, or was asked to stop; and the prune passes were paid for by
    handles removed.
   */
  predicate Inv(s: Scope) {
    && Distinct(s.aborts)
    && (forall t :: t in s.running ==> t in s.aborts || t in s.aborted)
    && |s.aborts| <= s.spawns
    && s.scanned <= 2 * (s.spawns - |s.aborts|)
  }

  lemma {:induction false} UnfinishedAre(aborts: seq<nat>, running: set<nat>)
    requires Distinct(aborts)
    ensures Distinct(Unfinished(aborts, running)) && |Unfinished(aborts, running)| <= |aborts|
    ensures forall t :: t in Unfinished(aborts, running) <==> t in aborts && t in running
    decreases |aborts|
  {
    if aborts != [] {
      UnfinishedAre(aborts[..|aborts| - 1], running);
      assert aborts == aborts[..|aborts| - 1] + [aborts[|aborts| - 1]];
    }
  }

  lemma {:induction false} DistinctFitIn(s: seq<nat>, t: set<nat>)
    requires Distinct(s) && forall x :: x in s ==> x in t
    ensures |s| <= |t|
    decreases |s|
  {
    if s != [] {
      var n := |s| - 1;
      assert s == s[..n] + [s[n]];
      forall x | x in s[..n] ensures x in t - {s[n]} {
        var k :| 0 <= k < n && s[..n][k] == x;
        assert s[k] == x;
      }
      DistinctFitIn(s[..n], t - {s[n]});
    }
  }

  /** A pass that fires keeps fewer than half of the handles it looks at. */
  lemma {:induction false} PrunedKeepsInv(s: Scope, late: set<nat>)
    requires Inv(s)
    ensures Inv(Pruned(s, late))
    ensures |Pruned(s, late).aborts| <= (if Prunes(s) then Live(s) else |s.aborts|)
  {
    var now := Ended(s, late);
    UnfinishedAre(s.aborts, now.running);
    DistinctFitIn(Unfinished(s.aborts, now.running), s.running);
  }

  lemma {:induction false} SpawnedKeepsInv(s: Scope, id: nat, early: set<nat>, late: set<nat>)
    requires Inv(s) && id !in s.aborts && id !in s.running
    ensures Inv(Spawned(s, id, early, late))
  {
    hide Pruned;
    var begun := Started(s, id);
    assert Distinct(begun.aborts);
    forall t | t in begun.running ensures t in begun.aborts || t in begun.aborted {
      if t != id {
        assert t in s.aborts || t in s.aborted;
      } else {
        assert begun.aborts[|s.aborts|] == id;
      }
    }
    PrunedKeepsInv(Ended(begun, early), late);
  }

  lemma {:induction false} RunKeepsInv(events: seq<Event>)
    requires IsRun(events)
    ensures Inv(After(events))
    decreases |events|
  {
    hide Inv, Spawned;
    if events == [] {
      NewHasInv();
    } else {
      var n := |events| - 1;
      assert IsRun(events[..n]) by {
        forall k | 0 <= k < n ensures Allowed(After(events[..n][..k]), events[..n][k]) {
          assert events[..n][..k] == events[..k];
        }
      }
      RunKeepsInv(events[..n]);
      ApplyKeepsInv(After(events[..n]), events[n]);
    }
  }

  lemma {:induction false} NewHasInv()
    ensures Inv(NEW)
  {
  }

  lemma {:induction false} ApplyKeepsInv(s: Scope, e: Event)
    requires Inv(s) && Allowed(s, e)
    ensures Inv(Apply(s, e))
  {
    hide Spawned;
    match e
    case Spawn(id, early, late) => SpawnedKeepsInv(s, id, early, late);
    case End(done) =>
    case Shutdown(leaving, late) => HitsAre(s.aborts, s.running - leaving - late);
  }

  /** At every moment, each unfinished task can still be aborted, or has been. */
  lemma {:induction false} UnfinishedIsTracked(events: seq<Event>, task: nat)
    requires IsRun(events) && task in After(events).running
    ensures task in After(events).aborts || task in After(events).aborted
  {
    hide After, IsRun;
    RunKeepsInv(events);
  }

  /** After each spawn, at most the floor or twice the counter of live tasks is tracked. */
  lemma {:induction false} TrackedIsBounded(events: seq<Event>, id: nat, early: set<nat>, late: set<nat>)
    requires IsRun(events) && Allowed(After(events), Spawn(id, early, late))
    ensures var counted := Live(Ended(Started(After(events), id), early));
            var tracked := |Spawned(After(events), id, early, late).aborts|;
            tracked <= 63 || tracked <= 2 * counted
  {
    hide After, IsRun, Pruned;
    RunKeepsInv(events);
    var s := After(events);
    SpawnedKeepsInv(s, id, {}, {});
    StartedKeepsInv(s, id);
    PrunedKeepsInv(Ended(Started(s, id), early), late);
  }

  lemma {:induction false} StartedKeepsInv(s: Scope, id: nat)
    requires Inv(s) && id !in s.aborts && id !in s.running
    ensures Inv(Started(s, id))
  {
    var begun := Started(s, id);
    forall t | t in begun.running ensures t in begun.aborts || t in begun.aborted {
      if t != id {
        assert t in s.aborts || t in s.aborted;
      } else {
        assert begun.aborts[|s.aborts|] == id;
      }
    }
  }

  /** Pruning is amortised: over any run, the passes look at no more than two handles for each spawn. */
  lemma {:induction false} PruningIsAmortised(events: seq<Event>)
    requires IsRun(events)
    ensures After(events).scanned <= 2 * After(events).spawns
  {
    hide After, IsRun;
    RunKeepsInv(events);
  }

  /**
    Shutdown leaves nothing running but tasks that were asked to stop, and nothing once these have ended. It
    reports a drain exactly when every task left by itself within the wait, and then asks nothing of any
    task. Otherwise it asks those that are still there, which are none if the last of them leave just then.
   */
  lemma {:induction false} ShutdownStopsEverything(events: seq<Event>, leaving: set<nat>, late: set<nat>)
    requires IsRun(events)
    ensures var s := After(events);
            var t := ShutDown(s, leaving, late);
            && t.aborts == [] && t.cancelled && t.running <= t.aborted && Ended(t, t.aborted).running == {}
            && (s.running <= leaving ==> t.running == {} && t.aborted == s.aborted)
            && (!(s.running <= leaving) ==> t.running == s.running - leaving - late && t.aborted == s.aborted + t.running)
  {
    hide After, IsRun;
    RunKeepsInv(events);
    var s := After(events);
    HitsAre(s.aborts, s.running - leaving - late);
    var t := ShutDown(s, leaving, late);
    if s.running <= leaving {
      assert s.running - leaving == {};
    } else {
      var stays :| stays in s.running && stays !in leaving;
      assert stays in s.running - leaving;
      assert t.aborted == s.aborted + (s.running - leaving - late);
    }
  }

  lemma {:induction false} HitsAre(aborts: seq<nat>, running: set<nat>)
    ensures forall t :: t in Hits(aborts, running) <==> t in aborts && t in running
    decreases |aborts|
  {
    if aborts != [] {
      HitsAre(aborts[..|aborts| - 1], running);
      assert aborts == aborts[..|aborts| - 1] + [aborts[|aborts| - 1]];
    }
  }

  /** Whatever still runs when a scope is dropped has been asked to stop, and nothing survives that. */
  lemma {:induction false} NothingSurvivesDrop(events: seq<Event>)
    requires IsRun(events)
    ensures var t := Dropped(After(events));
            && t.running == After(events).running && t.running <= t.aborted
            && Ended(t, t.aborted).running == {}
  {
    hide After, IsRun;
    RunKeepsInv(events);
    HitsAre(After(events).aborts, After(events).running);
  }
}
