/** The scheduler as it runs: reading the schedule may write back, and writing back reads the schedule. */
module SchedulerService {
  import opened SchedulerModel
  import opened SchedulerRuns

  class DatabaseScheduler {
    var db: map<Id, Task>
    var tasks: map<Id, Task>
    var dirty: seq<Id>
    ghost var fired: map<Id, nat>
    /** What change detection will answer, reading by reading. */
    var changes: seq<bool>

    constructor (changes: seq<bool>)
      ensures State() == Fresh() && this.changes == changes
    {
      db, tasks, dirty, fired, this.changes := map[], map[], [], map[], changes;
    }

    ghost function State(): Beat
      reads this
    {
      Beat(db, tasks, dirty, fired)
    }

    method ScheduleChanged() returns (changed: bool)
      modifies this`changes
      ensures old(changes) == [] ==> !changed && changes == []
      ensures old(changes) != [] ==> changed == old(changes)[0] && changes == old(changes)[1..]
    {
      changed := false;
      if changes != [] { changed, changes := changes[0], changes[1..]; }
    }

    /** The `schedule` property. */
    method Schedule()
      modifies this
      ensures (State(), changes) == ReadSchedule(old(State()), old(changes))
      ensures forall n :: old(Inv(State(), n)) && !Lost(old(dirty), n, Rest(old(changes))) ==> Inv(State(), n)
      decreases |changes|, |dirty|, 0
    {
      ReadKeepsAll(State(), changes);
      hide SyncLoop, Inv, Lost;
      var update := ScheduleChanged();
      if update {
        Sync();
        tasks := Load(db);
      }
    }

    method SaveTask(n: Id)
      requires n in tasks
      modifies this`db
      ensures State() == Save(old(State()), n)
    {
      if n in db { db := db[n := db[n].(count := tasks[n].count)]; }
    }

    method Sync()
      modifies this
      ensures (State(), changes) == SyncLoop(old(State()), [], old(changes))
      ensures forall n :: old(Inv(State(), n)) && !Lost(old(dirty), n, old(changes)) ==> Inv(State(), n) && n !in dirty
      decreases |changes|, |dirty|, 1
    {
      SyncKeepsAll(State(), changes);
      hide Inv, Lost;
      ghost var whole := SyncLoop(State(), [], changes);
      var failed := [];
      hide ReadSchedule, Save;
      while dirty != []
        invariant SyncLoop(State(), failed, changes) == whole
        invariant |changes| < |old(changes)| || (|changes| == |old(changes)| && |dirty| <= |old(dirty)|)
        decreases |changes|, |dirty|
      {
        var n := dirty[0];
        dirty := dirty[1..];
        Schedule();
        if n in tasks {
          SaveTask(n);
        } else {
          failed := With(failed, n);
        }
      }
      dirty := failed;
    }

    /** `is_due`, and `reserve` when it is.  It fires an enabled schedule that has started and is due, once, and a
        one-off schedule only when its loaded run count is zero. */
    method Tick(n: Id, started: bool, due: bool)
      modifies this
      ensures forall m :: old(Inv(State(), m)) ==> Inv(State(), m)
      ensures fired != old(fired) ==> started && due && n in dirty && n in tasks && tasks[n] == Task(true, 1, true)
      ensures State() == SchedulerModel.Tick(old(State()), n, started, due) && changes == old(changes)
      ensures Looks(old(State()), State(), n, started, due)
    {
      TickKeepsAll(State(), n, started, due);
      TickCases(State(), n, started, due);
      hide Inv, Looks;
      if n !in tasks || !tasks[n].enabled || !started { return; }
      if tasks[n].once && tasks[n].count > 0 {
        tasks := tasks[n := tasks[n].(enabled := false, count := 0)];
        if n in db { db := db[n := db[n].(enabled := false, count := 0)]; }
        return;
      }
      if !due { return; }
      tasks := tasks[n := tasks[n].(count := tasks[n].count + 1)];
      dirty := With(dirty, n);
      if tasks[n].once { fired := fired[n := (if n in fired then fired[n] else 0) + 1]; }
    }
  }

  lemma ReadKeepsAll(s: Beat, changes: seq<bool>)
    ensures forall n :: Inv(s, n) && !Lost(s.dirty, n, Rest(changes)) ==> Inv(ReadSchedule(s, changes).0, n)
  {
    hide Inv, Lost, ReadSchedule;
    forall n | Inv(s, n) && !Lost(s.dirty, n, Rest(changes)) ensures Inv(ReadSchedule(s, changes).0, n) {
      ReadKeepsInv(s, changes, n);
    }
  }

  lemma SyncKeepsAll(s: Beat, changes: seq<bool>)
    ensures forall n :: Inv(s, n) && !Lost(s.dirty, n, changes) ==>
      Inv(SyncLoop(s, [], changes).0, n) && n !in SyncLoop(s, [], changes).0.dirty
  {
    hide Inv, Lost, SyncLoop;
    forall n | Inv(s, n) && !Lost(s.dirty, n, changes)
      ensures Inv(SyncLoop(s, [], changes).0, n) && n !in SyncLoop(s, [], changes).0.dirty
    {
      SyncKeepsInv(s, [], changes, n);
    }
  }

  lemma TickKeepsAll(s: Beat, n: Id, started: bool, due: bool)
    ensures forall m :: Inv(s, m) ==> Inv(SchedulerModel.Tick(s, n, started, due), m)
  {
    hide Inv, Tick;
    forall m | Inv(s, m) ensures Inv(SchedulerModel.Tick(s, n, started, due), m) {
      TickKeepsInv(s, n, started, due, m);
    }
  }
}
