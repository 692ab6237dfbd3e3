/** When a one-off schedule runs once over a whole run. */
module SchedulerRuns {
  import opened SchedulerModel

  /** What change detection answers after the next reading. */
  function Rest(changes: seq<bool>): seq<bool> {
    if changes == [] then [] else changes[1..]
  }

  /** The run count of `n` is lost: a change is detected at the reading that is to save it.  Names are read in the
      order of the dirty set, one answer of change detection each. */
  predicate Lost(dirty: seq<Id>, n: Id, changes: seq<bool>) {
    exists i :: 0 <= i < |dirty| && dirty[i] == n && i < |changes| && changes[i]
  }

  /** The step loses no run count of `n`.  A reading that detects no change writes nothing back. */
  predicate Harmless(s: Beat, step: Step, n: Id) {
    match step
    case DoRead(changes) => changes != [] && changes[0] ==> !Lost(s.dirty, n, changes[1..])
    case DoSync(changes) => !Lost(s.dirty, n, changes)
    case _ => true
  }

  lemma LostShifts(dirty: seq<Id>, n: Id, changes: seq<bool>)
    requires dirty != []
    ensures Lost(dirty, n, changes) <==>
      changes != [] && ((dirty[0] == n && changes[0]) || Lost(dirty[1..], n, Rest(changes)))
  {
    if changes != [] {
      if Lost(dirty[1..], n, changes[1..]) {
        var i :| 0 <= i < |dirty[1..]| && dirty[1..][i] == n && i < |changes[1..]| && changes[1..][i];
        assert dirty[i + 1] == n && changes[i + 1];
      }
      if Lost(dirty, n, changes) {
        var i :| 0 <= i < |dirty| && dirty[i] == n && i < |changes| && changes[i];
        assert i > 0 ==> dirty[1..][i - 1] == n && changes[1..][i - 1];
      }
    }
  }

  lemma NotLost(dirty: seq<Id>, n: Id, changes: seq<bool>)
    requires n !in dirty || changes == []
    ensures !Lost(dirty, n, changes)
  {
  }

  lemma ReadUnchanged(s: Beat, changes: seq<bool>)
    requires changes != [] ==> !changes[0]
    ensures ReadSchedule(s, changes) == (s, Rest(changes))
  {
  }

  lemma ReadChanged(s: Beat, changes: seq<bool>)
    requires changes != [] && changes[0]
    ensures var (s', rest) := SyncLoop(s, [], changes[1..]); ReadSchedule(s, changes) == (s'.(mem := Load(s'.db)), rest)
  {
  }

  // ---------------------------------------------------------------- one look at a schedule

  /** The schedule is loaded, enabled, and its start time has come. */
  predicate Looked(s: Beat, n: Id, started: bool) {
    n in s.mem && s.mem[n].enabled && started
  }

  /** A one-off schedule that has run. */
  predicate HasRun(s: Beat, n: Id)
    requires n in s.mem
  {
    s.mem[n].once && s.mem[n].count > 0
  }

  /** Every other schedule is as before, as stored and as loaded. */
  ghost predicate OthersSame(s: Beat, s': Beat, n: Id) {
    && (forall m :: m != n ==> (m in s'.mem <==> m in s.mem) && (m in s.mem ==> m in s'.mem && s'.mem[m] == s.mem[m]))
    && (forall m :: m != n ==> (m in s'.db <==> m in s.db) && (m in s.db ==> m in s'.db && s'.db[m] == s.db[m]))
    && (forall m :: m != n ==> (m in s'.dirty <==> m in s.dirty))
  }

  /** A due schedule fires, counting in memory alone; a one-off one that has run is disabled with count zero, in
      memory and in its row; otherwise a look changes nothing. */
  ghost predicate Looks(s: Beat, s': Beat, n: Id, started: bool, due: bool) {
    && (Looked(s, n, started) && !HasRun(s, n) && due ==>
          && n in s'.mem && s'.mem[n] == Task(true, s.mem[n].count + 1, s.mem[n].once)
          && n in s'.dirty && s'.db == s.db && OthersSame(s, s', n))
    && (Looked(s, n, started) && HasRun(s, n) ==>
          && n in s'.mem && s'.mem[n] == Task(false, 0, true)
          && (n in s'.db <==> n in s.db) && (n in s.db ==> s'.db[n] == Task(false, 0, s.db[n].once))
          && s'.dirty == s.dirty && OthersSame(s, s', n))
    && (!Looked(s, n, started) || (!HasRun(s, n) && !due) ==> s' == s)
  }

  lemma TickCases(s: Beat, n: Id, started: bool, due: bool)
    ensures Looks(s, Tick(s, n, started, due), n, started, due)
  {
  }

  /** A reload loads exactly the enabled rows as they are then stored. */
  lemma ReloadsEnabledRows(s: Beat, changes: seq<bool>, n: Id)
    requires changes != [] && changes[0]
    ensures var s' := ReadSchedule(s, changes).0;
      && (n in s'.mem <==> n in s'.db && s'.db[n].enabled)
      && (n in s'.mem ==> s'.mem[n] == s'.db[n])
  {
    hide SyncLoop;
  }

  /** A new schedule is enabled and has not run; switching and editing write one field of one row, deletion removes it;
      memory follows only at a reload.  The dirty set can come in any order. */
  lemma EditCases(s: Beat, n: Id, flag: bool, order: seq<Id>)
    ensures var s' := Create(s, n, flag);
      if n in s.fired then s' == s
      else s' == s.(db := s'.db, fired := s'.fired) && OthersSame(s, s', n)
           && n in s'.db && s'.db[n] == Task(true, 0, flag) && n in s'.fired && s'.fired[n] == 0
    ensures var s' := SetStatus(s, n, flag);
      if n !in s.db then s' == s
      else s' == s.(db := s'.db, fired := s'.fired) && OthersSame(s, s', n)
           && n in s'.db && s'.db[n] == Task(flag, s.db[n].count, s.db[n].once)
           && (flag ==> n in s'.fired && s'.fired[n] == 0) && (!flag ==> s'.fired == s.fired)
    ensures var s' := SetOnce(s, n, flag);
      if n !in s.db then s' == s
      else s' == s.(db := s'.db) && OthersSame(s, s', n)
           && n in s'.db && s'.db[n] == Task(s.db[n].enabled, s.db[n].count, flag)
    ensures var s' := Delete(s, n); s' == s.(db := s'.db) && OthersSame(s, s', n) && n !in s'.db
    ensures multiset(order) == multiset(s.dirty) ==> Reorder(s, order) == s.(dirty := order)
  {
  }

  // ---------------------------------------------------------------- one schedule over a run

  /** A schedule that has fired as a one-off one is armed nowhere: neither in memory, nor in a row that is up to
      date. */
  ghost predicate Spent(s: Beat, n: Id) {
    && (n in s.fired ==> s.fired[n] <= 1)
    && (n in s.mem && s.mem[n].enabled && s.mem[n].count == 0 ==> Unfired(s, n))
    && (n in s.db && s.db[n].enabled && s.db[n].count == 0 && n !in s.dirty ==> Unfired(s, n))
    && (n in s.mem && !s.mem[n].enabled && n in s.db && s.db[n].enabled ==> Unfired(s, n))
  }

  ghost predicate Unfired(s: Beat, n: Id) {
    n in s.fired ==> s.fired[n] == 0
  }

  /** What a run keeps for each schedule whose run count it does not lose. */
  ghost predicate Inv(s: Beat, n: Id) {
    && (n in s.dirty ==> n in s.mem)
    && (n in s.mem || n in s.db ==> n in s.fired)
    && Spent(s, n)
  }

  lemma LoadKeepsInv(s: Beat, n: Id)
    requires Inv(s, n) && n !in s.dirty
    ensures Inv(s.(mem := Load(s.db)), n)
  {
  }

  /** Taking a name and saving its schedule, or another one. */
  lemma SaveKeepsInv(s: Beat, m: Id, n: Id)
    requires m in s.mem
    requires m == n ==> Inv(s.(dirty := [n] + s.dirty), n)
    requires m != n ==> Inv(s, n)
    ensures Inv(Save(s, m), n) && Save(s, m).dirty == s.dirty
  {
    assert m == n ==> n in ([n] + s.dirty);
  }

  lemma PopKeepsInv(s: Beat, n: Id)
    requires Inv(s, n) && s.dirty != []
    ensures s.dirty[0] == n ==> n in s.mem && s == s.(dirty := [n] + s.dirty[1..])
    ensures s.dirty[0] != n ==> Inv(s.(dirty := s.dirty[1..]), n)
  {
    assert s.dirty[0] in s.dirty;
    assert s.dirty[0] == n || n !in s.dirty || n in s.dirty[1..];
  }

  lemma FailedKeepsInv(s: Beat, failed: seq<Id>, n: Id)
    requires Inv(s, n) && s.dirty == [] && n !in failed
    ensures Inv(s.(dirty := failed), n)
  {
  }

  /** Whatever happens to the other names, a schedule whose count is not lost is written back. */
  lemma {:induction false} SyncKeepsInv(s: Beat, failed: seq<Id>, changes: seq<bool>, n: Id)
    requires Inv(s, n) && n !in failed && !Lost(s.dirty, n, changes)
    ensures var s' := SyncLoop(s, failed, changes).0; Inv(s', n) && n !in s'.dirty
    decreases |changes|, |s.dirty|, 1
  {
    if s.dirty == [] {
      FailedKeepsInv(s, failed, n);
    } else {
      hide Inv, ReadSchedule, Save, Lost;
      var m, s1 := s.dirty[0], s.(dirty := s.dirty[1..]);
      var (s2, rest) := ReadSchedule(s1, changes);
      LostShifts(s.dirty, n, changes);
      NotLost(s1.dirty, n, []);
      PopKeepsInv(s, n);
      if m == n {
        ReadUnchanged(s1, changes);
      } else {
        ReadKeepsInv(s1, changes, n);
      }
      if m in s2.mem {
        SaveKeepsInv(s2, m, n);
        SyncKeepsInv(Save(s2, m), failed, rest, n);
      } else {
        SyncKeepsInv(s2, With(failed, m), rest, n);
      }
    }
  }

  lemma {:induction false} ReadKeepsInv(s: Beat, changes: seq<bool>, n: Id)
    requires Inv(s, n) && !Lost(s.dirty, n, Rest(changes))
    ensures var (s', rest) := ReadSchedule(s, changes); Inv(s', n) && !Lost(s'.dirty, n, rest)
    decreases |changes|, |s.dirty|, 0
  {
    hide Inv, SyncLoop, ReadSchedule, Lost;
    if changes != [] && changes[0] {
      ReadChanged(s, changes);
      SyncKeepsInv(s, [], changes[1..], n);
      var (s', rest) := SyncLoop(s, [], changes[1..]);
      LoadKeepsInv(s', n);
      NotLost(s'.dirty, n, rest);
    } else {
      ReadUnchanged(s, changes);
    }
  }

  lemma TickKeepsInv(s: Beat, m: Id, started: bool, due: bool, n: Id)
    requires Inv(s, n)
    ensures Inv(Tick(s, m, started, due), n)
  {
  }

  lemma ReorderKeepsInv(s: Beat, order: seq<Id>, n: Id)
    requires Inv(s, n)
    ensures Inv(Reorder(s, order), n)
  {
    assert n in order <==> n in multiset(order);
    assert n in s.dirty <==> n in multiset(s.dirty);
  }

  lemma EditsKeepInv(s: Beat, m: Id, flag: bool, n: Id)
    requires Inv(s, n)
    ensures Inv(Create(s, m, flag), n) && Inv(SetStatus(s, m, flag), n) && Inv(SetOnce(s, m, flag), n)
      && Inv(Delete(s, m), n)
  {
  }

  lemma StepKeepsInv(s: Beat, step: Step, n: Id)
    requires Inv(s, n) && Harmless(s, step, n)
    ensures Inv(Apply(s, step), n)
  {
    hide Inv, Lost, SyncLoop, ReadSchedule;
    match step
    case DoReorder(order) => ReorderKeepsInv(s, order, n);
    case DoRead(changes) =>
      if changes != [] && changes[0] { ReadKeepsInv(s, changes, n); } else { ReadUnchanged(s, changes); }
    case DoSync(changes) => SyncKeepsInv(s, [], changes, n);
    case DoTick(m, started, due) => TickKeepsInv(s, m, started, due, n);
    case DoCreate(m, once) => EditsKeepInv(s, m, once, n);
    case DoSetStatus(m, on) => EditsKeepInv(s, m, on, n);
    case DoSetOnce(m, once) => EditsKeepInv(s, m, once, n);
    case DoDelete(m) => EditsKeepInv(s, m, false, n);
  }

  lemma {:induction false} RunKeepsInv(s: Beat, steps: seq<Step>, n: Id)
    requires Inv(s, n) && forall k :: 0 <= k < |steps| ==> Harmless(Exec(s, steps[..k]), steps[k], n)
    ensures Inv(Exec(s, steps), n)
    decreases |steps|
  {
    hide Inv, Apply, Harmless;
    if steps != [] {
      var init := steps[..|steps| - 1];
      forall k | 0 <= k < |init| ensures Harmless(Exec(s, init[..k]), init[k], n) {
        assert init[..k] == steps[..k];
      }
      RunKeepsInv(s, init, n);
      StepKeepsInv(Exec(s, init), steps[|steps| - 1], n);
    }
  }

  /** Over every run that loses no run count of `n`, whatever the schedules say, whenever reloads and edits happen
      and whatever befalls other schedules, a schedule fires at most once as a one-off one between enablings. */
  lemma {:induction false} OneOffFiresOnce(steps: seq<Step>, n: Id)
    requires forall k :: 0 <= k < |steps| ==> Harmless(Exec(Fresh(), steps[..k]), steps[k], n)
    ensures var s := Exec(Fresh(), steps);
      (n in s.fired ==> s.fired[n] <= 1) && (n in s.mem || n in s.db ==> n in s.fired)
  {
    assert Inv(Fresh(), n);
    RunKeepsInv(Fresh(), steps, n);
    hide Exec, Harmless;
  }

  // ---------------------------------------------------------------- a schedule that stays a one-off one

  /** No copy of the schedule runs more than once. */
  predicate AlwaysOnce(s: Beat, n: Id) {
    (n in s.db ==> s.db[n].once) && (n in s.mem ==> s.mem[n].once)
  }

  predicate MakesRepeating(step: Step, n: Id) {
    step == DoSetOnce(n, false) || step == DoCreate(n, false)
  }

  lemma {:induction false} SyncKeepsOnce(s: Beat, failed: seq<Id>, changes: seq<bool>, n: Id)
    requires AlwaysOnce(s, n)
    ensures AlwaysOnce(SyncLoop(s, failed, changes).0, n)
    decreases |changes|, |s.dirty|, 1
  {
    if s.dirty != [] {
      hide ReadSchedule;
      var m, s1 := s.dirty[0], s.(dirty := s.dirty[1..]);
      var (s2, rest) := ReadSchedule(s1, changes);
      ReadKeepsOnce(s1, changes, n);
      SyncKeepsOnce(if m in s2.mem then Save(s2, m) else s2, if m in s2.mem then failed else With(failed, m), rest, n);
    }
  }

  lemma {:induction false} ReadKeepsOnce(s: Beat, changes: seq<bool>, n: Id)
    requires AlwaysOnce(s, n)
    ensures AlwaysOnce(ReadSchedule(s, changes).0, n)
    decreases |changes|, |s.dirty|, 0
  {
    if changes != [] && changes[0] {
      hide SyncLoop;
      SyncKeepsOnce(s, [], changes[1..], n);
    }
  }

  /** A schedule that no step makes a repeating one is a one-off one wherever it is stored or loaded, so that every
      firing of it counts. */
  lemma {:induction false} StaysOnce(steps: seq<Step>, n: Id)
    requires forall k :: 0 <= k < |steps| ==> !MakesRepeating(steps[k], n)
    ensures AlwaysOnce(Exec(Fresh(), steps), n)
    decreases |steps|
  {
    if steps != [] {
      hide SyncLoop, ReadSchedule;
      var s, step := Exec(Fresh(), steps[..|steps| - 1]), steps[|steps| - 1];
      StaysOnce(steps[..|steps| - 1], n);
      assert !MakesRepeating(step, n);
      match step
      case DoRead(changes) => ReadKeepsOnce(s, changes, n);
      case DoSync(changes) => SyncKeepsOnce(s, [], changes, n);
      case _ =>
    }
  }
}
