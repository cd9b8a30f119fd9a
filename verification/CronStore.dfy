/** The scheduler store (internal/cron/cron.go:116-306). */
module CronStore {
  import opened Wrappers
  import opened Text
  import opened Sequences
  import opened Sorting
  import opened Decimal
  import opened CronField
  import opened CronNext

  // Tasks live in memory, the durable ones mirrored in a file, and a tick fires
  // what is due.  Instants and minutes are those of CronNext.  The file holds
  // typed tasks; the JSON around them and write failures are not part of this
  // model.

  const MAX_JOBS := 50
  const MAX_AGE := 30 * 24 * 60 * MINUTE
  const ID_PREFIX := "cron_"

  /** nextRun is the minute of the next fire; None stands for Go's zero time. */
  datatype Task = Task(id: string, cron: string, prompt: string, recurring: bool, durable: bool,
                       created: int, nextRun: Option<int>)

  /** A store between two operations: tasks, the id counter and the file. */
  datatype State = State(tasks: map<string, Task>, nextID: nat, file: map<string, Task>)

  function TaskId(n: nat): string { ID_PREFIX + Itoa(n) }

  /** The number an id ends in, sign included, and 0 when it has none.  Atoi clamps
      a number outside int64, which moves the counter only if it thereby overflows. */
  function IdNumber(id: string): int
  {
    var n := Signed(if ID_PREFIX <= id then id[|ID_PREFIX|..] else id);
    if n.Some? then n.value else 0
  }

  lemma IdNumberOfTaskId(n: nat)
    ensures IdNumber(TaskId(n)) == n
  {
    assert TaskId(n)[|ID_PREFIX|..] == Itoa(n);
    assert IsDigit(Itoa(n)[0]);
    ValueOfItoa(n);
  }

  function Durables(tasks: map<string, Task>): map<string, Task>
  {
    map id | id in tasks && tasks[id].durable :: tasks[id]
  }

  // ------------------------------------------------------------- schedules

  /** All the store needs to know of cron expressions: which strings are valid,
      the next fire minute after an instant, and the minutes matched. */
  datatype Schedule = Schedule(parses: string -> bool, next: (string, int) -> Option<int>, matches: (string, int) -> bool)

  ghost predicate Sound(c: Schedule)
  {
    forall cron: string, from: int :: c.next(cron, from).Some? ==>
      c.next(cron, from).value * MINUTE > from && c.matches(cron, c.next(cron, from).value)
  }

  /** The schedules of Parse and Next, in a given zone. */
  function CronSchedule(zone: int): Schedule
  {
    Schedule(
      (cron: string) => ParseExpr(cron).Some?,
      (cron: string, from: int) => if ParseExpr(cron).Some? then NextFire(ParseExpr(cron).value, zone, from) else None,
      (cron: string, m: int) => ParseExpr(cron).Some? && Fires(ParseExpr(cron).value, zone, m))
  }

  lemma CronScheduleIsSound(zone: int)
    ensures Sound(CronSchedule(zone))
  {
    var c := CronSchedule(zone);
    forall cron: string, from: int | c.next(cron, from).Some?
      ensures c.next(cron, from).value * MINUTE > from && c.matches(cron, c.next(cron, from).value)
    {
      NextIsLeast(ParseExpr(cron).value, zone, from);
    }
  }

  /** Parse and Next together, as Add and fireDue use them. */
  method NextRun(zone: int, cron: string, from: int, ghost c: Schedule) returns (ok: bool, next: Option<int>)
    requires c == CronSchedule(zone)
    ensures ok == c.parses(cron) && (ok ==> next == c.next(cron, from))
  {
    var e := Parse(cron);
    if e.None? {
      return false, None;
    }
    next := Next(e.value, zone, from);
    ok := true;
  }

  // ----------------------------------------------------------- operations

  predicate Accepts(c: Schedule, s: State, cron: string, asked: int)
  {
    && c.parses(cron)
    && c.next(cron, asked).Some?
    && |s.tasks| < MAX_JOBS
  }

  function NewTask(c: Schedule, id: string, cron: string, prompt: string, recurring: bool, durable: bool,
                   asked: int, created: int): Task
  {
    Task(id, cron, prompt, recurring, durable, created, c.next(cron, asked))
  }

  function AddStep(c: Schedule, s: State, cron: string, prompt: string, recurring: bool, durable: bool,
                   asked: int, created: int): State
  {
    if !Accepts(c, s, cron, asked) then s
    else
      var id := TaskId(s.nextID);
      var tasks := s.tasks[id := NewTask(c, id, cron, prompt, recurring, durable, asked, created)];
      State(tasks, s.nextID + 1, if durable then Durables(tasks) else s.file)
  }

  function DeleteStep(s: State, id: string): State
  {
    if id !in s.tasks then s
    else var tasks := s.tasks - {id}; State(tasks, s.nextID, Durables(tasks))
  }

  /** Every task, one-shots included, is dropped at the age of 30 days. */
  predicate Expired(t: Task, now: int) { now - t.created > MAX_AGE }

  predicate Due(t: Task, now: int)
  {
    !Expired(t, now) && t.nextRun.Some? && t.nextRun.value * MINUTE <= now
  }

  function Reschedule(c: Schedule, t: Task, now: int): Task
  {
    if c.parses(t.cron) then t.(nextRun := c.next(t.cron, now)) else t
  }

  predicate Survives(t: Task, now: int) { !Expired(t, now) && (Due(t, now) ==> t.recurring) }

  function TaskAfterTick(c: Schedule, t: Task, now: int): Task
  {
    if Due(t, now) then Reschedule(c, t, now) else t
  }

  function TasksAfterTick(c: Schedule, tasks: map<string, Task>, now: int): map<string, Task>
  {
    map id | id in tasks && Survives(tasks[id], now) :: TaskAfterTick(c, tasks[id], now)
  }

  /** The tasks whose prompts a tick hands to the runner. */
  function Fired(tasks: map<string, Task>, now: int): map<string, Task>
  {
    map id | id in tasks && Due(tasks[id], now) :: tasks[id]
  }

  predicate Changes(tasks: map<string, Task>, now: int)
  {
    exists id :: id in tasks && (Expired(tasks[id], now) || Due(tasks[id], now))
  }

  function TickStep(c: Schedule, s: State, now: int): State
  {
    var tasks := TasksAfterTick(c, s.tasks, now);
    State(tasks, s.nextID, if Changes(s.tasks, now) then Durables(tasks) else s.file)
  }

  /** One more than the largest number among the ids. */
  ghost predicate IsNextID(n: nat, ids: set<string>)
  {
    && n >= 1
    && (forall id :: id in ids ==> IdNumber(id) < n)
    && (n == 1 || exists id :: id in ids && IdNumber(id) == n - 1)
  }

  ghost function NextID(ids: set<string>): (n: nat)
    ensures IsNextID(n, ids)
  {
    if ids == {} then 1
    else
      var id :| id in ids;
      var rest := NextID(ids - {id});
      if IdNumber(id) >= rest then IdNumber(id) + 1 else rest
  }

  lemma NextIDUnique(m: nat, n: nat, ids: set<string>)
    requires IsNextID(m, ids) && IsNextID(n, ids)
    ensures m == n
  {
  }

  lemma NextIDOneMore(n: nat, ids: set<string>, id: string)
    requires IsNextID(n, ids)
    ensures IsNextID(if IdNumber(id) >= n then IdNumber(id) + 1 else n, ids + {id})
  {
    assert id in ids + {id};
  }

  /** A new process on the same directory: only the file is left. */
  ghost function ReloadStep(s: State): State { State(s.file, NextID(s.file.Keys), s.file) }

  datatype Action =
    | Add(cron: string, prompt: string, recurring: bool, durable: bool, asked: int, created: int)
    | Delete(id: string)
    | Tick(now: int)
    | Reload

  ghost function Step(c: Schedule, s: State, a: Action): State
  {
    match a
    case Add(cron, prompt, recurring, durable, asked, created) =>
      AddStep(c, s, cron, prompt, recurring, durable, asked, created)
    case Delete(id) => DeleteStep(s, id)
    case Tick(now) => TickStep(c, s, now)
    case Reload => ReloadStep(s)
  }

  /** Any run: any actions, in any order, with any clock readings. */
  ghost predicate Run(c: Schedule, states: seq<State>, actions: seq<Action>)
  {
    && |states| == |actions| + 1
    && forall k :: 0 <= k < |actions| ==> states[k + 1] == Step(c, states[k], actions[k])
  }

  function FiredBy(s: State, a: Action): map<string, Task>
  {
    if a.Tick? then Fired(s.tasks, a.now) else map[]
  }

  /** The action registers a new task under `id`. */
  predicate Issues(c: Schedule, s: State, a: Action, id: string)
  {
    a.Add? && Accepts(c, s, a.cron, a.asked) && id == TaskId(s.nextID)
  }

  // ------------------------------------------------------------ invariant

  predicate GoodTask(c: Schedule, id: string, t: Task, nextID: nat)
  {
    && t.id == id && IdNumber(id) < nextID
    && c.parses(t.cron)
    && (t.nextRun.Some? ==> c.matches(t.cron, t.nextRun.value))
  }

  ghost predicate AllGood(c: Schedule, tasks: map<string, Task>, nextID: nat)
  {
    forall id :: id in tasks ==> GoodTask(c, id, tasks[id], nextID)
  }

  ghost predicate Inv(c: Schedule, s: State)
  {
    && s.file == Durables(s.tasks)
    && |s.tasks| <= MAX_JOBS
    && AllGood(c, s.tasks, s.nextID)
  }

  lemma EmptyStoreIsGood(c: Schedule)
    ensures Inv(c, State(map[], 1, map[]))
  {
  }

  lemma SubmapSize<K, V>(small: map<K, V>, big: map<K, V>)
    requires small.Keys <= big.Keys
    ensures |small| <= |big|
  {
    assert |small| == |small.Keys| && |big| == |big.Keys|;
    assert big.Keys == small.Keys + (big.Keys - small.Keys);
  }

  lemma AddKeepsInv(c: Schedule, s: State, a: Action)
    requires Sound(c) && Inv(c, s) && a.Add?
    ensures Inv(c, Step(c, s, a))
  {
    if Accepts(c, s, a.cron, a.asked) {
      var id := TaskId(s.nextID);
      IdNumberOfTaskId(s.nextID);
      var t := NewTask(c, id, a.cron, a.prompt, a.recurring, a.durable, a.asked, a.created);
      assert GoodTask(c, id, t, s.nextID + 1);
      RegisterKeepsInv(c, s, id, t);
    }
  }

  lemma RegisterKeepsInv(c: Schedule, s: State, id: string, t: Task)
    requires Inv(c, s) && |s.tasks| < MAX_JOBS
    requires IdNumber(id) == s.nextID && GoodTask(c, id, t, s.nextID + 1)
    ensures Inv(c, State(s.tasks[id := t], s.nextID + 1, if t.durable then Durables(s.tasks[id := t]) else s.file))
  {
    NotLive(c, s, id);
    NewDurables(s.tasks, id, t);
    RegisteredAreGood(c, s, id, t);
    OneMoreEntry(s.tasks, id, t);
  }

  lemma KeysOneMore<K, V>(m: map<K, V>, k: K, v: V)
    ensures m[k := v].Keys == m.Keys + {k}
  {
  }

  lemma OneMoreEntry<K, V>(m: map<K, V>, k: K, v: V)
    ensures |m[k := v]| <= |m| + 1
  {
    KeysOneMore(m, k, v);
  }

  lemma RegisteredAreGood(c: Schedule, s: State, id: string, t: Task)
    requires Inv(c, s) && GoodTask(c, id, t, s.nextID + 1)
    ensures AllGood(c, s.tasks[id := t], s.nextID + 1)
  {
    var tasks := s.tasks[id := t];
    forall k | k in tasks ensures GoodTask(c, k, tasks[k], s.nextID + 1) {
      if k != id {
        GoodTaskLater(c, k, tasks[k], s.nextID);
      }
    }
  }

  lemma NotLive(c: Schedule, s: State, id: string)
    requires Inv(c, s) && IdNumber(id) == s.nextID
    ensures id !in s.tasks
  {
  }

  lemma GoodTaskLater(c: Schedule, id: string, t: Task, n: nat)
    requires GoodTask(c, id, t, n)
    ensures GoodTask(c, id, t, n + 1)
  {
  }

  lemma NewDurables(tasks: map<string, Task>, id: string, t: Task)
    requires id !in tasks
    ensures !t.durable ==> Durables(tasks[id := t]) == Durables(tasks)
  {
  }

  lemma TickKeepsInv(c: Schedule, s: State, a: Action)
    requires Sound(c) && Inv(c, s) && a.Tick?
    ensures Inv(c, Step(c, s, a))
  {
    var t := Step(c, s, a);
    SubmapSize(t.tasks, s.tasks);
    if !Changes(s.tasks, a.now) {
      assert t.tasks == s.tasks;
    }
  }

  lemma StepKeepsInv(c: Schedule, s: State, a: Action)
    requires Sound(c) && Inv(c, s)
    ensures Inv(c, Step(c, s, a))
  {
    match a
    case Add(_, _, _, _, _, _) => AddKeepsInv(c, s, a);
    case Delete(id) => SubmapSize(DeleteStep(s, id).tasks, s.tasks);
    case Tick(_) => TickKeepsInv(c, s, a);
    case Reload =>
      SubmapSize(s.file, s.tasks);
      assert Durables(s.file) == s.file;
  }

  /** In every state of every run the file holds exactly the durable tasks. */
  lemma RunKeepsInv(c: Schedule, states: seq<State>, actions: seq<Action>, k: nat)
    requires Sound(c) && Run(c, states, actions) && Inv(c, states[0]) && k < |states|
    ensures Inv(c, states[k]) && states[k].file == Durables(states[k].tasks)
    ensures forall id :: id in states[k].file <==> id in states[k].tasks && states[k].tasks[id].durable
    ensures forall id :: id in states[k].file ==> states[k].file[id] == states[k].tasks[id]
  {
    forall i | 0 <= i < k && Inv(c, states[i]) ensures Inv(c, states[i + 1]) {
      StepKeepsInv(c, states[i], actions[i]);
    }
    Persists(states, 0, k, (s: State) => Inv(c, s));
  }

  /** The id a new task gets is not that of a live or stored one. */
  lemma LiveIdsAreNotReused(c: Schedule, states: seq<State>, actions: seq<Action>, k: nat, id: string)
    requires Sound(c) && Run(c, states, actions) && Inv(c, states[0]) && k < |actions|
    requires Issues(c, states[k], actions[k], id)
    ensures id !in states[k].tasks && id !in states[k].file
  {
    RunKeepsInv(c, states, actions, k);
    IdNumberOfTaskId(states[k].nextID);
  }

  // ------------------------------------------------- what a run may fire

  ghost predicate NotIssued(c: Schedule, states: seq<State>, actions: seq<Action>, i: nat, j: nat, id: string)
    requires |states| == |actions| + 1
  {
    forall k :: i <= k < j && k < |actions| ==> !Issues(c, states[k], actions[k], id)
  }

  /** The task under `id`, if it is there, only runs after minute `m`. */
  predicate RunsAfter(s: State, id: string, m: int)
  {
    id in s.tasks && s.tasks[id].nextRun.Some? ==> s.tasks[id].nextRun.value > m
  }

  lemma StepKeepsGone(c: Schedule, s: State, a: Action, id: string)
    requires Sound(c) && Inv(c, s) && id !in s.tasks && !Issues(c, s, a, id)
    ensures id !in Step(c, s, a).tasks
  {
  }

  lemma StepKeepsRunsAfter(c: Schedule, s: State, a: Action, id: string, m: int)
    requires Sound(c) && Inv(c, s) && RunsAfter(s, id, m) && !Issues(c, s, a, id)
    ensures RunsAfter(Step(c, s, a), id, m)
  {
  }

  /** A step of a run, from a good state. */
  lemma RunStep(c: Schedule, states: seq<State>, actions: seq<Action>, k: nat)
    requires Sound(c) && Run(c, states, actions) && Inv(c, states[0]) && k < |actions|
    ensures Inv(c, states[k]) && states[k + 1] == Step(c, states[k], actions[k])
  {
    RunKeepsInv(c, states, actions, k);
  }

  lemma StaysGone(c: Schedule, states: seq<State>, actions: seq<Action>, i: nat, j: nat, id: string)
    requires Sound(c) && Run(c, states, actions) && Inv(c, states[0]) && i <= j < |states|
    requires id !in states[i].tasks && NotIssued(c, states, actions, i, j, id)
    ensures id !in states[j].tasks
  {
    forall k | i <= k < j && id !in states[k].tasks ensures id !in states[k + 1].tasks {
      RunStep(c, states, actions, k);
      StepKeepsGone(c, states[k], actions[k], id);
    }
    Persists(states, i, j, (s: State) => id !in s.tasks);
  }

  lemma StaysAfter(c: Schedule, states: seq<State>, actions: seq<Action>, i: nat, j: nat, id: string, m: int)
    requires Sound(c) && Run(c, states, actions) && Inv(c, states[0]) && i <= j < |states|
    requires RunsAfter(states[i], id, m) && NotIssued(c, states, actions, i, j, id)
    ensures RunsAfter(states[j], id, m)
  {
    forall k | i <= k < j && RunsAfter(states[k], id, m) ensures RunsAfter(states[k + 1], id, m) {
      RunStep(c, states, actions, k);
      StepKeepsRunsAfter(c, states[k], actions[k], id, m);
    }
    Persists(states, i, j, (s: State) => RunsAfter(s, id, m));
  }

  /** A one-shot that has fired never fires again: a later firing under its id is
      that of a task registered since. */
  lemma OneShotsFireOnce(c: Schedule, states: seq<State>, actions: seq<Action>, i: nat, j: nat, id: string)
    requires Sound(c) && Run(c, states, actions) && Inv(c, states[0]) && i < j < |actions|
    requires id in FiredBy(states[i], actions[i]) && id in FiredBy(states[j], actions[j])
    requires !FiredBy(states[i], actions[i])[id].recurring
    ensures exists k :: i < k < j && Issues(c, states[k], actions[k], id)
  {
    RunKeepsInv(c, states, actions, i);
    assert states[i + 1] == Step(c, states[i], actions[i]);
    assert id !in states[i + 1].tasks;
    if NotIssued(c, states, actions, i + 1, j, id) {
      StaysGone(c, states, actions, i + 1, j, id);
    }
  }

  /** Successive firings of one recurring task consume strictly later minutes, each
      one a minute its schedule matches, each at least that late, and none over 30
      days after creation. */
  lemma FiringsAdvance(c: Schedule, states: seq<State>, actions: seq<Action>, i: nat, j: nat, id: string)
    requires Sound(c) && Run(c, states, actions) && Inv(c, states[0]) && i < j < |actions|
    requires id in FiredBy(states[i], actions[i]) && id in FiredBy(states[j], actions[j])
    requires NotIssued(c, states, actions, i + 1, j, id)
    ensures FiredBy(states[i], actions[i])[id].nextRun.value < FiredBy(states[j], actions[j])[id].nextRun.value
  {
    RunKeepsInv(c, states, actions, i);
    assert states[i + 1] == Step(c, states[i], actions[i]);
    var t := states[i].tasks[id];
    assert GoodTask(c, id, t, states[i].nextID);
    StaysAfter(c, states, actions, i + 1, j, id, t.nextRun.value);
  }

  lemma FiringsAreTimely(c: Schedule, states: seq<State>, actions: seq<Action>, i: nat, id: string)
    requires Sound(c) && Run(c, states, actions) && Inv(c, states[0]) && i < |actions|
    requires id in FiredBy(states[i], actions[i])
    ensures var t := FiredBy(states[i], actions[i])[id];
            && t.nextRun.Some? && c.matches(t.cron, t.nextRun.value)
            && t.nextRun.value * MINUTE <= actions[i].now <= t.created + MAX_AGE
  {
    RunKeepsInv(c, states, actions, i);
    assert GoodTask(c, id, states[i].tasks[id], states[i].nextID);
  }

  // --------------------------------------------- what can never be fired

  /** The next run is more than 30 days after the creation. */
  predicate TooLate(t: Task) { t.nextRun.Some? && t.nextRun.value * MINUTE > t.created + MAX_AGE }

  /** The task is still there as it was, or gone. */
  predicate WaitsOrGone(s: State, id: string, t: Task) { id in s.tasks ==> s.tasks[id] == t }

  lemma StepKeepsWaiting(c: Schedule, s: State, a: Action, id: string, t: Task)
    requires Inv(c, s) && WaitsOrGone(s, id, t) && TooLate(t) && !Issues(c, s, a, id)
    ensures WaitsOrGone(Step(c, s, a), id, t)
  {
  }

  lemma KeepsWaiting(c: Schedule, states: seq<State>, actions: seq<Action>, i: nat, j: nat, id: string, t: Task)
    requires Sound(c) && Run(c, states, actions) && Inv(c, states[0]) && i <= j < |states|
    requires WaitsOrGone(states[i], id, t) && TooLate(t) && NotIssued(c, states, actions, i, j, id)
    ensures WaitsOrGone(states[j], id, t)
  {
    forall k | i <= k < j && WaitsOrGone(states[k], id, t) ensures WaitsOrGone(states[k + 1], id, t) {
      RunStep(c, states, actions, k);
      StepKeepsWaiting(c, states[k], actions[k], id, t);
    }
    Persists(states, i, j, (s: State) => WaitsOrGone(s, id, t));
  }

  /** The task an Add registers. */
  function Registered(c: Schedule, s: State, a: Action): Task
    requires a.Add?
  {
    NewTask(c, TaskId(s.nextID), a.cron, a.prompt, a.recurring, a.durable, a.asked, a.created)
  }

  /** In no run is a task fired whose first run lies too far ahead, */
  lemma TooLateNeverFires(c: Schedule, states: seq<State>, actions: seq<Action>, i: nat, j: nat, id: string)
    requires Sound(c) && Run(c, states, actions) && Inv(c, states[0]) && i < j < |actions|
    requires Issues(c, states[i], actions[i], id) && TooLate(Registered(c, states[i], actions[i]))
    requires NotIssued(c, states, actions, i + 1, j, id)
    ensures id !in FiredBy(states[j], actions[j])
  {
    assert states[i + 1] == Step(c, states[i], actions[i]);
    KeepsWaiting(c, states, actions, i + 1, j, id, Registered(c, states[i], actions[i]));
  }

  /** Some run from here fires the task that the Add registers. */
  ghost predicate CanFire(c: Schedule, s: State, a: Action, id: string)
  {
    exists states: seq<State>, actions: seq<Action> ::
      && |actions| > 1 && Run(c, states, actions) && states[0] == s && actions[0] == a
      && NotIssued(c, states, actions, 1, |actions| - 1, id)
      && id in FiredBy(states[|actions| - 1], actions[|actions| - 1])
  }

  lemma TickOfAgeFires(c: Schedule, s: State, a: Action, id: string)
    requires Issues(c, s, a, id) && !TooLate(Registered(c, s, a))
    ensures CanFire(c, s, a, id)
  {
    var t := Step(c, s, a);
    var tick := Tick(a.created + MAX_AGE);
    var states, actions := [s, t, Step(c, t, tick)], [a, tick];
    assert Run(c, states, actions) && id in FiredBy(states[1], actions[1]);
  }

  /** and any other can be: the documentation expires recurring tasks only, but the
      code expires every task at the age of 30 days. */
  lemma CanFireIffWithinAge(c: Schedule, s: State, a: Action, id: string)
    requires Sound(c) && Inv(c, s) && Issues(c, s, a, id)
    ensures CanFire(c, s, a, id) <==> c.next(a.cron, a.asked).value * MINUTE <= a.created + MAX_AGE
  {
    if TooLate(Registered(c, s, a)) {
      if states: seq<State>, actions: seq<Action> :|
        && |actions| > 1 && Run(c, states, actions) && states[0] == s && actions[0] == a
        && NotIssued(c, states, actions, 1, |actions| - 1, id)
        && id in FiredBy(states[|actions| - 1], actions[|actions| - 1])
      {
        TooLateNeverFires(c, states, actions, 0, |actions| - 1, id);
        assert false;
      }
    } else {
      TickOfAgeFires(c, s, a, id);
    }
  }

  /** The prompts are those of the given tasks, each task once. */
  ghost predicate FiredOnce(prompts: seq<string>, ids: seq<string>, fired: map<string, Task>)
  {
    && |prompts| == |ids|
    && (forall id :: id in ids <==> id in fired)
    && (forall i, j :: 0 <= i < j < |ids| ==> ids[i] != ids[j])
    && (forall i :: 0 <= i < |ids| ==> ids[i] in fired && prompts[i] == fired[ids[i]].prompt)
  }

  // ----------------------------------------------- one tick, task by task

  /** At most 30 days old, and its next run has come. */
  predicate RunsNow(t: Task, now: int)
  {
    now - t.created <= 30 * 24 * 60 * MINUTE && t.nextRun.Some? && t.nextRun.value * MINUTE <= now
  }

  /** What becomes of a task. */
  ghost predicate Becomes(c: Schedule, t: Task, now: int, id: string, after: map<string, Task>)
  {
    if now - t.created > 30 * 24 * 60 * MINUTE then id !in after
    else if !RunsNow(t, now) then id in after && after[id] == t
    else if !t.recurring then id !in after
    else id in after && after[id] == if c.parses(t.cron) then t.(nextRun := c.next(t.cron, now)) else t
  }

  /** The prompts run are those of the tasks whose time has come, each once; every
      task becomes what it should, and there are no others. */
  ghost predicate Ticked(c: Schedule, tasks: map<string, Task>, now: int,
                         prompts: seq<string>, ids: seq<string>, after: map<string, Task>)
  {
    && |prompts| == |ids|
    && (forall i, j :: 0 <= i < j < |ids| ==> ids[i] != ids[j])
    && (forall i :: 0 <= i < |ids| ==> ids[i] in tasks && prompts[i] == tasks[ids[i]].prompt)
    && (forall id :: id in ids <==> id in tasks && RunsNow(tasks[id], now))
    && (forall id :: id in tasks ==> Becomes(c, tasks[id], now, id, after))
    && (forall id :: id in after ==> id in tasks)
  }

  lemma TickIsTicked(c: Schedule, tasks: map<string, Task>, now: int, prompts: seq<string>, ids: seq<string>)
    requires FiredOnce(prompts, ids, Fired(tasks, now))
    ensures Ticked(c, tasks, now, prompts, ids, TasksAfterTick(c, tasks, now))
  {
    forall id | id in tasks ensures Becomes(c, tasks[id], now, id, TasksAfterTick(c, tasks, now)) {
      assert Due(tasks[id], now) <==> RunsNow(tasks[id], now);
    }
  }

  // ------------------------------------------------------------ the store

  predicate IdLeq(s: Task, t: Task) { StrLeq(s.id, t.id) }

  predicate IdsDiffer(s: Task, t: Task) { s.id != t.id }

  /** What loadDurable makes of the stored list. */
  function LoadedTasks(list: seq<Task>): map<string, Task>
  {
    if |list| == 0 then map[] else LoadedTasks(list[..|list| - 1])[list[|list| - 1].id := list[|list| - 1]]
  }

  lemma {:induction false} LoadedIsMap(list: seq<Task>, m: map<string, Task>)
    requires forall t :: t in list ==> t.id in m && m[t.id] == t
    ensures forall id :: id in LoadedTasks(list) ==> id in m && LoadedTasks(list)[id] == m[id]
    ensures forall t :: t in list ==> t.id in LoadedTasks(list)
  {
    if |list| > 0 {
      LoadedIsMap(list[..|list| - 1], m);
      assert list == list[..|list| - 1] + [list[|list| - 1]];
    }
  }

  /** The tasks and the counter after the first `i` of the stored list. */
  ghost predicate LoadedUpTo(list: seq<Task>, i: nat, tasks: map<string, Task>, n: nat)
    requires i <= |list|
  {
    tasks == LoadedTasks(list[..i]) && IsNextID(n, tasks.Keys)
  }

  lemma LoadedOneMore(list: seq<Task>, i: nat)
    requires i < |list|
    ensures LoadedTasks(list[..i + 1]) == LoadedTasks(list[..i])[list[i].id := list[i]]
  {
    assert list[..i + 1][..i] == list[..i];
  }

  lemma LoadOneMore(list: seq<Task>, i: nat, tasks: map<string, Task>, n: nat)
    requires i < |list| && LoadedUpTo(list, i, tasks, n)
    ensures var t := list[i];
            LoadedUpTo(list, i + 1, tasks[t.id := t], if IdNumber(t.id) >= n then IdNumber(t.id) + 1 else n)
  {
    LoadedOneMore(list, i);
    NextIDOneMore(n, tasks.Keys, list[i].id);
    KeysOneMore(tasks, list[i].id, list[i]);
  }

  lemma {:induction false} LoadedKeyed(list: seq<Task>)
    ensures forall id :: id in LoadedTasks(list) ==> LoadedTasks(list)[id].id == id
  {
    if |list| > 0 {
      LoadedKeyed(list[..|list| - 1]);
    }
  }

  lemma AllLoaded(list: seq<Task>, tasks: map<string, Task>, n: nat)
    requires LoadedUpTo(list, |list|, tasks, n)
    ensures tasks == LoadedTasks(list) && IsNextID(n, tasks.Keys) && forall id :: id in tasks ==> tasks[id].id == id
  {
    assert list[..|list|] == list;
    LoadedKeyed(list);
  }

  lemma IdLeqIsTotalPreorder()
    ensures TotalPreorder(IdLeq)
  {
    forall s: Task, t: Task ensures IdLeq(s, t) || IdLeq(t, s) {
      StrLeqTotal(s.id, t.id);
    }
    forall s: Task, t: Task, u: Task | IdLeq(s, t) && IdLeq(t, u) ensures IdLeq(s, u) {
      StrLeqTransitive(s.id, t.id, u.id);
    }
  }

  /** The contents of the file; a missing file holds nothing. */
  function Stored(file: Option<seq<Task>>): map<string, Task>
  {
    if file.None? then map[] else LoadedTasks(file.value)
  }

  lemma ListIsMap(list: seq<Task>, m: map<string, Task>)
    requires forall t :: t in list <==> t.id in m && m[t.id] == t
    requires forall id :: id in m ==> m[id].id == id
    ensures LoadedTasks(list) == m
  {
    LoadedIsMap(list, m);
    forall id | id in m ensures id in LoadedTasks(list) {
      assert m[id] in list;
    }
  }

  /** A list of the durable tasks, each once, sorted, is read back as these tasks. */
  lemma DurablesListed(tasks: map<string, Task>, durable: seq<Task>)
    requires forall t :: t in durable <==> t.id in tasks && tasks[t.id] == t && t.durable
    requires forall id :: id in tasks ==> tasks[id].id == id
    requires Pairwise(durable, IdsDiffer)
    ensures var sorted := Sort(durable, IdLeq);
            && LoadedTasks(sorted) == Durables(tasks)
            && Sorted(sorted, IdLeq) && Pairwise(sorted, IdsDiffer) && |sorted| == |durable|
  {
    var sorted := Sort(durable, IdLeq);
    IdLeqIsTotalPreorder();
    SortIsSorted(durable, IdLeq);
    PairwisePermuted(durable, sorted, IdsDiffer);
    assert |multiset(sorted)| == |sorted| && |multiset(durable)| == |durable|;
    forall t ensures t in sorted <==> t in durable {
      SameMembers(sorted, durable, t);
    }
    ListIsMap(sorted, Durables(tasks));
  }

  class Store {
    var tasks: map<string, Task>
    var nextID: nat
    var file: Option<seq<Task>> // the durable file on disk
    const zone: int

    ghost function View(): State
      reads this
    {
      State(tasks, nextID, Stored(file))
    }

    /** Tasks are kept under their own ids. */
    ghost predicate Keyed()
      reads this`tasks
    {
      forall id :: id in tasks ==> tasks[id].id == id
    }

    /** NewStore: the tasks are those of the file. */
    constructor (zone: int, file: Option<seq<Task>>)
      ensures this.zone == zone && this.file == file
      ensures View() == State(Stored(file), NextID(Stored(file).Keys), Stored(file)) && Keyed()
    {
      this.zone, this.file := zone, file;
      tasks, nextID := map[], 1;
      new;
      LoadDurable();
      NextIDUnique(nextID, NextID(tasks.Keys), tasks.Keys);
    }

    method LoadDurable()
      requires tasks == map[] && nextID == 1
      modifies this`tasks, this`nextID
      ensures tasks == Stored(file) && IsNextID(nextID, tasks.Keys) && Keyed()
    {
      if file.None? {
        return;
      }
      var list := file.value;
      for i := 0 to |list|
        invariant LoadedUpTo(list, i, tasks, nextID)
      {
        LoadOneMore(list, i, tasks, nextID);
        tasks := tasks[list[i].id := list[i]];
        var n := IdNumber(list[i].id);
        if n >= nextID {
          nextID := n + 1;
        }
      }
      AllLoaded(list, tasks, nextID);
    }

    /** saveDurable: the durable tasks in id order, or no file at all. */
    method SaveDurable()
      requires Keyed()
      modifies this`file
      ensures Stored(file) == Durables(tasks)
      ensures forall id :: id in Stored(file) <==> id in tasks && tasks[id].durable
      ensures file.Some? ==> Sorted(file.value, IdLeq) && Pairwise(file.value, IdsDiffer) && file.value != []
    {
      var durable: seq<Task> := [];
      var left := tasks.Keys;
      while left != {}
        invariant left <= tasks.Keys
        invariant forall t :: t in durable <==> t.id in tasks && tasks[t.id] == t && t.durable && t.id !in left
        invariant Pairwise(durable, IdsDiffer)
        decreases left
      {
        var id :| id in left;
        if tasks[id].durable {
          durable := durable + [tasks[id]];
        }
        left := left - {id};
      }
      DurablesListed(tasks, durable);
      if |durable| == 0 {
        file := None;
        return;
      }
      file := Some(Sort(durable, IdLeq));
    }

    /** Add, with the two clock readings it makes. */
    method Add(cron: string, prompt: string, recurring: bool, durable: bool, asked: int, created: int)
      returns (added: Option<Task>)
      requires Keyed()
      modifies this
      ensures View() == AddStep(CronSchedule(zone), old(View()), cron, prompt, recurring, durable, asked, created)
      ensures Keyed()
      ensures added.Some? <==> Accepts(CronSchedule(zone), old(View()), cron, asked)
      ensures added.Some? ==> added.value.id in tasks && tasks[added.value.id] == added.value
      ensures added.Some? <==> ParseExpr(cron).Some? && NextFire(ParseExpr(cron).value, zone, asked).Some? && |old(tasks)| < 50
      ensures added.Some? ==>
                && added.value == Task("cron_" + Itoa(old(nextID)), cron, prompt, recurring, durable, created,
                                       NextFire(ParseExpr(cron).value, zone, asked))
                && tasks == old(tasks)[added.value.id := added.value] && nextID == old(nextID) + 1
      ensures added.None? ==> tasks == old(tasks) && nextID == old(nextID) && file == old(file)
    {
      var ok, next := NextRun(zone, cron, asked, CronSchedule(zone));
      if !ok || next.None? || |tasks| >= MAX_JOBS {
        return None;
      }
      added := Register(Task(TaskId(nextID), cron, prompt, recurring, durable, created, next));
    }

    /** The part of Add under the lock. */
    method Register(t: Task) returns (added: Option<Task>)
      requires Keyed() && t.id == TaskId(nextID)
      modifies this
      ensures tasks == old(tasks)[t.id := t] && nextID == old(nextID) + 1 && Keyed() && added == Some(t)
      ensures Stored(file) == if t.durable then Durables(tasks) else old(Stored(file))
    {
      nextID := nextID + 1;
      tasks := tasks[t.id := t];
      if t.durable {
        SaveDurable();
      }
      added := Some(t);
    }

    method Delete(id: string) returns (ok: bool)
      requires Keyed()
      modifies this
      ensures View() == DeleteStep(old(View()), id) && ok == (id in old(tasks)) && Keyed()
      ensures tasks == old(tasks) - {id} && nextID == old(nextID)
      ensures if ok then forall k :: k in Stored(file) <==> k in tasks && tasks[k].durable else file == old(file)
    {
      if id !in tasks {
        return false;
      }
      tasks := tasks - {id};
      SaveDurable();
      ok := true;
    }

    /** One task of the pass: it is dropped, fired, or left alone. */
    method Visit(id: string, now: int, ghost c: Schedule) returns (fires: bool, changes: bool)
      requires id in tasks && c == CronSchedule(zone)
      modifies this`tasks
      ensures ghost var t := old(tasks)[id];
              && fires == Due(t, now) && changes == (fires || Expired(t, now))
              && tasks == if Survives(t, now) then old(tasks)[id := TaskAfterTick(c, t, now)] else old(tasks) - {id}
    {
      var t := tasks[id];
      if now - t.created > MAX_AGE {
        tasks := tasks - {id};
        return false, true;
      }
      if t.nextRun.None? || now < t.nextRun.value * MINUTE {
        return false, false;
      }
      if t.recurring {
        var ok, next := NextRun(zone, t.cron, now, c);
        if ok {
          tasks := tasks[id := t.(nextRun := next)];
        }
      } else {
        tasks := tasks - {id};
      }
      return true, true;
    }

    /** fireDue: one pass over the tasks in any order; the prompts to run are those
        of the fired tasks, one each. */
    method FireDue(now: int) returns (prompts: seq<string>, ghost ids: seq<string>)
      requires Keyed()
      modifies this
      ensures View() == TickStep(CronSchedule(zone), old(View()), now) && Keyed()
      ensures FiredOnce(prompts, ids, Fired(old(tasks), now))
      ensures Ticked(CronSchedule(zone), old(tasks), now, prompts, ids, tasks)
    {
      var changed;
      changed, prompts, ids := PassOver(now, CronSchedule(zone));
      TickIsTicked(CronSchedule(zone), old(tasks), now, prompts, ids);
      if changed {
        SaveDurable();
      }
    }

    method PassOver(now: int, ghost c: Schedule) returns (changed: bool, prompts: seq<string>, ghost ids: seq<string>)
      requires Keyed() && c == CronSchedule(zone)
      modifies this`tasks
      ensures tasks == TasksAfterTick(c, old(tasks), now) && Keyed()
      ensures changed == Changes(old(tasks), now)
      ensures FiredOnce(prompts, ids, Fired(old(tasks), now))
    {
      prompts, ids, changed := [], [], false;
      var left := tasks.Keys;
      ghost var before, fired := tasks, Fired(tasks, now);
      assert Midway(c, before, left, now) == before && fired - left == map[];
      while left != {}
        invariant left <= before.Keys
        invariant tasks == Midway(c, before, left, now)
        invariant changed == Changes(before - left, now)
        invariant FiredOnce(prompts, ids, fired - left)
        decreases left
      {
        var id :| id in left;
        var prompt := tasks[id].prompt;
        VisitOne(c, before, left, id, now);
        FireOneMore(prompts, ids, before, left, id, now);
        var fires, changes := Visit(id, now, c);
        left := left - {id};
        changed := changed || changes;
        if fires {
          prompts, ids := prompts + [prompt], ids + [id];
        }
      }
      assert before - left == before && fired - left == fired;
      assert Midway(c, before, left, now) == TasksAfterTick(c, before, now);
    }
  }

  /** The tasks while the pass still has `left` to visit. */
  ghost function Midway(c: Schedule, before: map<string, Task>, left: set<string>, now: int): map<string, Task>
  {
    map id | id in before && (id in left || Survives(before[id], now)) ::
      if id in left then before[id] else TaskAfterTick(c, before[id], now)
  }

  lemma VisitOne(c: Schedule, before: map<string, Task>, left: set<string>, id: string, now: int)
    requires id in left && left <= before.Keys
    ensures var tasks := Midway(c, before, left, now);
            && id in tasks && tasks[id] == before[id]
            && Midway(c, before, left - {id}, now)
               == if Survives(before[id], now) then tasks[id := TaskAfterTick(c, before[id], now)] else tasks - {id}
    ensures Changes(before - (left - {id}), now)
       <==> Changes(before - left, now) || Expired(before[id], now) || Due(before[id], now)
  {
    assert (before - (left - {id})).Keys == (before - left).Keys + {id};
    assert id in before - (left - {id});
  }

  lemma FireOneMore(prompts: seq<string>, ids: seq<string>, before: map<string, Task>, left: set<string>, id: string, now: int)
    requires id in left && left <= before.Keys && FiredOnce(prompts, ids, Fired(before, now) - left)
    ensures if Due(before[id], now)
            then FiredOnce(prompts + [before[id].prompt], ids + [id], Fired(before, now) - (left - {id}))
            else FiredOnce(prompts, ids, Fired(before, now) - (left - {id}))
  {
    var fired := Fired(before, now);
    if Due(before[id], now) {
      assert (fired - (left - {id})).Keys == (fired - left).Keys + {id};
      assert id !in ids;
    } else {
      assert fired - (left - {id}) == fired - left;
    }
  }
}
