/** The database-backed task scheduler: run counts in memory, written back from a dirty set, reloaded on change. */
module SchedulerModel {
  /** A schedule: enabled, how often it has run, and whether it is to run only once. */
  datatype Task = Task(enabled: bool, count: nat, once: bool)

  type Id = int

  /** Schedules by id, as stored and as loaded.  `fired`: how often a schedule has fired as a one-off schedule since
      it was last enabled. */
  datatype Beat = Beat(
    db: map<Id, Task>,
    mem: map<Id, Task>,
    dirty: seq<Id>,
    fired: map<Id, nat>)

  /** The enabled rows. */
  function Load(db: map<Id, Task>): map<Id, Task> {
    map n | n in db && db[n].enabled :: db[n]
  }

  /** Writes the run count of a loaded schedule back, if its row still exists. */
  function Save(s: Beat, n: Id): Beat
    requires n in s.mem
  {
    if n in s.db then s.(db := s.db[n := s.db[n].(count := s.mem[n].count)]) else s
  }

  function With(names: seq<Id>, n: Id): seq<Id> {
    if n in names then names else names + [n]
  }

  /** The write-back loop.  A name leaves the dirty set before the schedule is read; `changes` says, for each
      reading of the schedule, whether a change is detected then. */
  function SyncLoop(s: Beat, failed: seq<Id>, changes: seq<bool>): (r: (Beat, seq<bool>))
    ensures |r.1| <= |changes|
    decreases |changes|, |s.dirty|
  {
    if s.dirty == [] then (s.(dirty := failed), changes)
    else
      var n := s.dirty[0];
      var (s', rest) := ReadSchedule(s.(dirty := s.dirty[1..]), changes);
      if n in s'.mem then SyncLoop(Save(s', n), failed, rest) else SyncLoop(s', With(failed, n), rest)
  }

  /** Reading the schedule writes back and reloads when a change is detected. */
  function ReadSchedule(s: Beat, changes: seq<bool>): (r: (Beat, seq<bool>))
    ensures |r.1| <= |changes| && (|r.1| == |changes| ==> r.0 == s)
    decreases |changes|, |s.dirty|
  {
    if changes == [] then (s, [])
    else if !changes[0] then (s, changes[1..])
    else
      var (s', rest) := SyncLoop(s, [], changes[1..]);
      (s'.(mem := Load(s'.db)), rest)
  }

  function Sync(s: Beat, changes: seq<bool>): Beat {
    SyncLoop(s, [], changes).0
  }

  /** One look at a loaded schedule: `started` says whether its start time has come, `due` what its schedule says. */
  function Tick(s: Beat, n: Id, started: bool, due: bool): Beat {
    if n !in s.mem || !s.mem[n].enabled || !started then s
    else if s.mem[n].once && s.mem[n].count > 0 then
      s.(mem := s.mem[n := s.mem[n].(enabled := false, count := 0)],
         db := if n in s.db then s.db[n := s.db[n].(enabled := false, count := 0)] else s.db)
    else if !due then s
    else
      s.(mem := s.mem[n := s.mem[n].(count := s.mem[n].count + 1)],
         dirty := With(s.dirty, n),
         fired := if s.mem[n].once then s.fired[n := (if n in s.fired then s.fired[n] else 0) + 1] else s.fired)
  }

  /** A new row, under an id never used before. */
  function Create(s: Beat, n: Id, once: bool): Beat {
    if n in s.fired then s
    else s.(db := s.db[n := Task(true, 0, once)], fired := s.fired[n := 0])
  }

  /** Enabling starts a new count of firings. */
  function SetStatus(s: Beat, n: Id, on: bool): Beat {
    if n !in s.db then s
    else s.(db := s.db[n := s.db[n].(enabled := on)], fired := if on then s.fired[n := 0] else s.fired)
  }

  /** Editing a row can make its schedule a one-off one, or no longer one; memory follows at the next reload. */
  function SetOnce(s: Beat, n: Id, once: bool): Beat {
    if n !in s.db then s else s.(db := s.db[n := s.db[n].(once := once)])
  }

  function Delete(s: Beat, n: Id): Beat {
    s.(db := s.db - {n})
  }

  /** The dirty set yields its names in any order. */
  function Reorder(s: Beat, order: seq<Id>): Beat {
    if multiset(order) == multiset(s.dirty) then s.(dirty := order) else s
  }

  datatype Step =
    | DoReorder(order: seq<Id>)
    | DoRead(changes: seq<bool>)
    | DoSync(changes: seq<bool>)
    | DoTick(n: Id, started: bool, due: bool)
    | DoCreate(n: Id, once: bool)
    | DoSetStatus(n: Id, on: bool)
    | DoSetOnce(n: Id, once: bool)
    | DoDelete(n: Id)

  function Apply(s: Beat, step: Step): Beat {
    match step
    case DoReorder(order) => Reorder(s, order)
    case DoRead(changes) => ReadSchedule(s, changes).0
    case DoSync(changes) => Sync(s, changes)
    case DoTick(n, started, due) => Tick(s, n, started, due)
    case DoCreate(n, once) => Create(s, n, once)
    case DoSetStatus(n, on) => SetStatus(s, n, on)
    case DoSetOnce(n, once) => SetOnce(s, n, once)
    case DoDelete(n) => Delete(s, n)
  }

  function Exec(s: Beat, steps: seq<Step>): Beat {
    if steps == [] then s else Apply(Exec(s, steps[..|steps| - 1]), steps[|steps| - 1])
  }

  function Fresh(): Beat {
    Beat(map[], map[], [], map[])
  }
}
