/** What a change detected at the wrong moment does to the write-back, and exactly when. */
module SchedulerTheorems {
  import opened Collections
  import opened SchedulerModel
  import opened SchedulerRuns

  /** A schedule that is loaded with one run count and stored with another. */
  ghost predicate Loaded(s: Beat, n: Id, inMem: nat, inDb: nat) {
    && n in s.mem && s.mem[n].enabled && s.mem[n].count == inMem
    && n in s.db && s.db[n].enabled && s.db[n].count == inDb
  }

  /** Both copies agree on whether the schedule is enabled and how often it has run. */
  predicate SameCount(t: Task, t': Task) {
    t.enabled == t'.enabled && t.count == t'.count
  }

  /** A schedule that is not dirty keeps its row; in memory it stays up to date, and a reload makes it so. */
  ghost predicate Framed(s: Beat, s': Beat, n: Id, reloaded: bool)
    requires n in s.db
  {
    && n !in s'.dirty && n in s'.db && s'.db[n] == s.db[n]
    && ((n in s.mem && SameCount(s.mem[n], s.db[n])) || reloaded ==> n in s'.mem && SameCount(s'.mem[n], s.db[n]))
  }

  lemma {:induction false} SyncFrame(s: Beat, failed: seq<Id>, changes: seq<bool>, n: Id)
    requires n !in s.dirty && n !in failed && n in s.db && s.db[n].enabled
    ensures Framed(s, SyncLoop(s, failed, changes).0, n, false)
    decreases |changes|, |s.dirty|, 1
  {
    if s.dirty != [] {
      hide ReadSchedule;
      var m, s1 := s.dirty[0], s.(dirty := s.dirty[1..]);
      var (s2, rest) := ReadSchedule(s1, changes);
      ReadFrame(s1, changes, n);
      if m in s2.mem {
        SyncFrame(Save(s2, m), failed, rest, n);
      } else {
        SyncFrame(s2, With(failed, m), rest, n);
      }
    }
  }

  lemma {:induction false} ReadFrame(s: Beat, changes: seq<bool>, n: Id)
    requires n !in s.dirty && n in s.db && s.db[n].enabled
    ensures Framed(s, ReadSchedule(s, changes).0, n, changes != [] && changes[0])
    decreases |changes|, |s.dirty|, 0
  {
    if changes != [] && changes[0] {
      hide SyncLoop;
      SyncFrame(s, [], changes[1..], n);
    }
  }

  /** Writing back a dirty schedule stores the run count in memory, unless a change is detected at its own reading:
      then the stored count comes back to memory. */
  lemma {:induction false} WriteBack(s: Beat, failed: seq<Id>, changes: seq<bool>, n: Id, inMem: nat, inDb: nat)
    requires NoRepeats(s.dirty) && n in s.dirty && n !in failed && Loaded(s, n, inMem, inDb)
    ensures var (s', count) := (SyncLoop(s, failed, changes).0, if Lost(s.dirty, n, changes) then inDb else inMem);
      n !in s'.dirty && Loaded(s', n, count, count)
    decreases |changes|, |s.dirty|, 1
  {
    hide ReadSchedule, Lost;
    var m, s1 := s.dirty[0], s.(dirty := s.dirty[1..]);
    var (s2, rest) := ReadSchedule(s1, changes);
    var (s3, failed') := if m in s2.mem then (Save(s2, m), failed) else (s2, With(failed, m));
    LostShifts(s.dirty, n, changes);
    if m == n {
      NotLost(s1.dirty, n, Rest(changes));
      ReadFrame(s1, changes, n);
      if changes == [] || !changes[0] { ReadUnchanged(s1, changes); }
      SyncFrame(Save(s2, m), failed, rest, n);
    } else if changes != [] && changes[0] {
      ReadBack(s1, changes, n, inMem, inDb);
      SyncFrame(s3, failed', rest, n);
    } else {
      NotLost(s1.dirty, n, []);
      ReadUnchanged(s1, changes);
      WriteBack(s3, failed', rest, n, inMem, inDb);
    }
  }

  lemma {:induction false} ReadBack(s: Beat, changes: seq<bool>, n: Id, inMem: nat, inDb: nat)
    requires NoRepeats(s.dirty) && n in s.dirty && Loaded(s, n, inMem, inDb) && changes != [] && changes[0]
    ensures var (s', count) := (ReadSchedule(s, changes).0, if Lost(s.dirty, n, changes[1..]) then inDb else inMem);
      n !in s'.dirty && Loaded(s', n, count, count)
    decreases |changes|, |s.dirty|, 0
  {
    hide SyncLoop, Lost;
    WriteBack(s, [], changes[1..], n, inMem, inDb);
  }

  lemma {:induction false} FailedStays(s: Beat, failed: seq<Id>, changes: seq<bool>, n: Id)
    requires forall i :: 0 <= i < |changes| ==> !changes[i]
    ensures var s' := SyncLoop(s, failed, changes).0;
      n in s'.dirty <==> n in failed || (n in s.dirty && n !in s.mem)
    decreases |s.dirty|
  {
    if s.dirty != [] {
      var m, s1 := s.dirty[0], s.(dirty := s.dirty[1..]);
      ReadUnchanged(s1, changes);
      hide ReadSchedule;
      if m in s1.mem {
        FailedStays(Save(s1, m), failed, Rest(changes), n);
      } else {
        FailedStays(s1, With(failed, m), Rest(changes), n);
      }
    }
  }

  /** Without a detected change, the names that stay dirty after a write-back, to be tried again, are those whose
      schedules are not loaded. */
  lemma UnloadedStaysDirty(s: Beat, changes: seq<bool>, n: Id)
    requires forall i :: 0 <= i < |changes| ==> !changes[i]
    ensures n in Sync(s, changes).dirty <==> n in s.dirty && n !in s.mem
  {
    FailedStays(s, [], changes, n);
  }

  lemma {:induction false} SyncKeepsFired(s: Beat, failed: seq<Id>, changes: seq<bool>)
    requires NoRepeats(s.dirty) && NoRepeats(failed)
    ensures var s' := SyncLoop(s, failed, changes).0; s'.fired == s.fired && NoRepeats(s'.dirty)
    decreases |changes|, |s.dirty|, 1
  {
    if s.dirty != [] {
      hide ReadSchedule;
      var m, s1 := s.dirty[0], s.(dirty := s.dirty[1..]);
      var (s2, rest) := ReadSchedule(s1, changes);
      ReadKeepsFired(s1, changes);
      if m in s2.mem {
        SyncKeepsFired(Save(s2, m), failed, rest);
      } else {
        SyncKeepsFired(s2, With(failed, m), rest);
      }
    }
  }

  lemma {:induction false} ReadKeepsFired(s: Beat, changes: seq<bool>)
    requires NoRepeats(s.dirty)
    ensures var s' := ReadSchedule(s, changes).0; s'.fired == s.fired && NoRepeats(s'.dirty)
    decreases |changes|, |s.dirty|, 0
  {
    if changes != [] && changes[0] {
      hide SyncLoop;
      SyncKeepsFired(s, [], changes[1..]);
    }
  }

  /** The dirty set of every run holds each name once. */
  lemma {:induction false} DirtyDistinct(steps: seq<Step>)
    ensures NoRepeats(Exec(Fresh(), steps).dirty)
    decreases |steps|
  {
    if steps != [] {
      hide SyncLoop, ReadSchedule, NoRepeats;
      var s, step := Exec(Fresh(), steps[..|steps| - 1]), steps[|steps| - 1];
      DirtyDistinct(steps[..|steps| - 1]);
      NoneDistinct([]);
      match step
      case DoReorder(order) => if multiset(order) == multiset(s.dirty) { ReorderedNoRepeats(s.dirty, order); }
      case DoRead(changes) => ReadKeepsFired(s, changes);
      case DoSync(changes) => SyncKeepsFired(s, [], changes);
      case DoTick(n, _, _) => WithDistinct(s.dirty, n);
      case _ =>
    } else {
      assert Fresh().dirty == [];
    }
  }

  lemma NoneDistinct(none: seq<Id>)
    requires none == []
    ensures NoRepeats(none)
  {
  }

  lemma WithDistinct(dirty: seq<Id>, n: Id)
    requires NoRepeats(dirty)
    ensures NoRepeats(With(dirty, n))
  {
  }

  /** A one-off schedule that has just fired, its run count not yet written back. */
  ghost predicate JustFired(s: Beat, n: Id) {
    && n in s.dirty && Loaded(s, n, 1, 0) && AlwaysOnce(s, n)
    && n in s.fired && s.fired[n] == 1
  }

  /** A reading or write-back of a schedule that has just fired makes it fire again when next due, exactly when it
      loses the run count, whatever else is dirty and whichever changes are detected. */
  lemma FiresAgainIff(s: Beat, step: Step, n: Id)
    requires NoRepeats(s.dirty) && JustFired(s, n) && (step.DoRead? || step.DoSync?)
    ensures var s' := Tick(Apply(s, step), n, true, true);
      n in s'.fired && s'.fired[n] == if Harmless(s, step, n) then 1 else 2
  {
    hide Lost, SyncLoop, ReadSchedule, NoRepeats;
    NoneDistinct([]);
    match step
    case DoSync(changes) =>
      SyncKeepsFired(s, [], changes);
      SyncKeepsOnce(s, [], changes, n);
      WriteBack(s, [], changes, n, 1, 0);
    case DoRead(changes) =>
      ReadKeepsFired(s, changes);
      ReadKeepsOnce(s, changes, n);
      if changes != [] && changes[0] { ReadBack(s, changes, n, 1, 0); } else { ReadUnchanged(s, changes); }
    case _ =>
  }

  /** A run in which a one-off schedule fires twice without being enabled again: it fires, the write-back takes its
      name, detects an edit, reloads the old count, and it fires once more. */
  lemma OneOffFiresTwice()
    ensures
      var steps := [DoCreate(1, true), DoRead([true]), DoTick(1, true, true), DoSync([true]), DoTick(1, true, true)];
      var s := Exec(Fresh(), steps);
      AlwaysOnce(s, 1) && 1 in s.fired && s.fired[1] == 2
  {
    var (a, b, c, d, e) := (DoCreate(1, true), DoRead([true]), DoTick(1, true, true), DoSync([true]),
        DoTick(1, true, true));
    var steps := [a, b, c, d, e];
    var s1 := Beat(map[1 := Task(true, 0, true)], map[], [], map[1 := 0]);
    var s2 := s1.(mem := map[1 := Task(true, 0, true)]);
    var s3 := s2.(mem := map[1 := Task(true, 1, true)], dirty := [1], fired := map[1 := 1]);
    hide Exec, Apply, AlwaysOnce, JustFired;
    FirstSteps(s1, s2, s3);
    LastSteps(s3);
    var t1 := [a];
    var t2 := t1 + [b];
    var t3 := t2 + [c];
    var t4 := t3 + [d];
    ExecOne(a);
    ExecSnoc(t1, b);
    ExecSnoc(t2, c);
    ExecSnoc(t3, d);
    ExecSnoc(t4, e);
    StaysOnce(t4 + [e], 1);
    assert t4 + [e] == steps;
  }

  lemma LastSteps(s: Beat)
    requires JustFired(s, 1) && s.dirty == [1]
    ensures var s' := Apply(Apply(s, DoSync([true])), DoTick(1, true, true)); 1 in s'.fired && s'.fired[1] == 2
  {
    hide Sync, ReadSchedule, Tick;
    assert s.dirty[0] == 1 && [true][0];
    FiresAgainIff(s, DoSync([true]), 1);
  }

  lemma ExecOne(step: Step)
    ensures Exec(Fresh(), [step]) == Apply(Fresh(), step)
  {
    hide Apply;
    assert [step][..0] == [];
  }

  lemma ExecSnoc(steps: seq<Step>, step: Step)
    ensures Exec(Fresh(), steps + [step]) == Apply(Exec(Fresh(), steps), step)
  {
    hide Apply;
    assert (steps + [step])[..|steps|] == steps;
  }

  lemma FirstSteps(s1: Beat, s2: Beat, s3: Beat)
    requires s1 == Beat(map[1 := Task(true, 0, true)], map[], [], map[1 := 0])
    requires s2 == s1.(mem := map[1 := Task(true, 0, true)])
    requires s3 == s2.(mem := map[1 := Task(true, 1, true)], dirty := [1], fired := map[1 := 1])
    ensures Apply(Fresh(), DoCreate(1, true)) == s1
    ensures Apply(s1, DoRead([true])) == s2
    ensures Apply(s2, DoTick(1, true, true)) == s3
    ensures JustFired(s3, 1)
  {
    assert SyncLoop(s1, [], []) == (s1, []);
    assert [true][1..] == [];
    assert Load(s1.db) == map[1 := Task(true, 0, true)];
    assert [] + [1] == [1];
  }
}
