/** Background tasks (internal/task/task.go). */
module TaskRegistry {
  // The registry, Stop, and the goroutine that waits for a runner, one step per
  // critical section, in any order.  Start and end times are not part of this model.

  import opened Wrappers
  import opened Decimal

  datatype Status = Running | Completed | Failed | Stopped

  /** The fields of a task; `cancelled` is what ctx.Err() reports. */
  datatype TaskData = TaskData(description: string, prompt: string, status: Status,
                               output: string, error: string, cancelled: bool)

  /** The registry, and the tasks whose runner has yet to return. */
  datatype State = State(tasks: map<string, TaskData>, order: seq<string>, nextID: nat, pending: set<string>)

  /** A runner returns an output, or an error. */
  datatype Step =
    | Create(description: string, prompt: string)
    | Stop(id: string)
    | Return(id: string, out: string, err: Option<string>)

  function TaskId(n: nat): string { "task_" + Itoa(n) }

  function NewTask(description: string, prompt: string): TaskData
  {
    TaskData(description, prompt, Running, "", "", false)
  }

  function AfterStop(t: TaskData): TaskData
  {
    if t.status == Running then t.(status := Stopped, cancelled := true) else t
  }

  /** What the goroutine writes when the runner returns. */
  function FinishTask(t: TaskData, out: string, err: Option<string>): TaskData
  {
    if t.status == Stopped then t
    else if err.Some? then t.(status := if t.cancelled then Stopped else Failed, error := err.value)
    else t.(status := Completed, output := out)
  }

  function Next(s: State, step: Step): State
  {
    match step
    case Create(description, prompt) =>
      var id := TaskId(s.nextID);
      State(s.tasks[id := NewTask(description, prompt)], s.order + [id], s.nextID + 1, s.pending + {id})
    case Stop(id) =>
      if id in s.tasks then s.(tasks := s.tasks[id := AfterStop(s.tasks[id])]) else s
    case Return(id, out, err) =>
      if id in s.pending && id in s.tasks
      then s.(tasks := s.tasks[id := FinishTask(s.tasks[id], out, err)], pending := s.pending - {id})
      else s
  }

  const EMPTY := State(map[], [], 1, {})

  /** Any interleaving of creations, stops and runner returns. */
  ghost predicate Run(states: seq<State>, steps: seq<Step>)
  {
    && |states| == |steps| + 1
    && states[0] == EMPTY
    && forall k :: 0 <= k < |steps| ==> states[k + 1] == Next(states[k], steps[k])
  }

  // ------------------------------------------------------------ invariant

  predicate GoodTask(id: string, t: TaskData, pending: set<string>)
  {
    && (t.cancelled <==> t.status == Stopped)
    && (t.status == Running ==> id in pending && t.error == "" && t.output == "")
    && (t.status == Completed || t.status == Failed ==> id !in pending)
    && (t.status != Completed ==> t.output == "")
    && (t.status != Failed ==> t.error == "")
  }

  ghost predicate Inv(s: State)
  {
    && s.nextID == |s.order| + 1
    && (forall k :: 0 <= k < |s.order| ==> s.order[k] == TaskId(k + 1))
    && (forall id :: id in s.order <==> id in s.tasks)
    && (forall id :: id in s.tasks ==> GoodTask(id, s.tasks[id], s.pending))
    && s.pending <= s.tasks.Keys
  }

  lemma TaskIdInjective(m: nat, n: nat)
    requires TaskId(m) == TaskId(n)
    ensures m == n
  {
    assert TaskId(m)[5..] == Itoa(m) && TaskId(n)[5..] == Itoa(n);
    ItoaInjective(m, n);
  }

  /** The next id is not in use. */
  lemma NextIdIsFresh(s: State)
    requires Inv(s)
    ensures TaskId(s.nextID) !in s.tasks
  {
    if TaskId(s.nextID) in s.tasks {
      var k :| 0 <= k < |s.order| && s.order[k] == TaskId(s.nextID);
      TaskIdInjective(k + 1, s.nextID);
    }
  }

  lemma CreateKeepsInv(s: State, step: Step)
    requires Inv(s) && step.Create?
    ensures Inv(Next(s, step))
  {
    NextIdIsFresh(s);
  }

  lemma StopKeepsInv(s: State, step: Step)
    requires Inv(s) && step.Stop?
    ensures Inv(Next(s, step))
  {
  }

  lemma ReturnKeepsInv(s: State, step: Step)
    requires Inv(s) && step.Return?
    ensures Inv(Next(s, step))
  {
  }

  lemma NextKeepsInv(s: State, step: Step)
    requires Inv(s)
    ensures Inv(Next(s, step))
  {
    match step
    case Create(_, _) => CreateKeepsInv(s, step);
    case Stop(_) => StopKeepsInv(s, step);
    case Return(_, _, _) => ReturnKeepsInv(s, step);
  }

  lemma {:induction false} RunKeepsInv(states: seq<State>, steps: seq<Step>, k: nat)
    requires Run(states, steps) && k < |states|
    ensures Inv(states[k])
  {
    if k > 0 {
      RunKeepsInv(states, steps, k - 1);
      NextKeepsInv(states[k - 1], steps[k - 1]);
    }
  }

  // ------------------------------------------------------------ over runs

  /** A task that has left `running` never changes again. */
  lemma {:induction false} FinalStays(states: seq<State>, steps: seq<Step>, i: nat, j: nat, id: string)
    requires Run(states, steps) && i <= j < |states|
    requires id in states[i].tasks && states[i].tasks[id].status != Running
    ensures id in states[j].tasks && states[j].tasks[id] == states[i].tasks[id]
    decreases j
  {
    if i < j {
      FinalStays(states, steps, i, j - 1, id);
      RunKeepsInv(states, steps, j - 1);
      NextIdIsFresh(states[j - 1]);
      assert GoodTask(id, states[j - 1].tasks[id], states[j - 1].pending);
    }
  }

  /** Step `k` takes the task out of `running`. */
  ghost predicate Leaves(states: seq<State>, k: nat, id: string)
  {
    && k + 1 < |states|
    && id in states[k].tasks && states[k].tasks[id].status == Running
    && id in states[k + 1].tasks && states[k + 1].tasks[id].status != Running
  }

  lemma LeavesRunningOnce(states: seq<State>, steps: seq<Step>, i: nat, j: nat, id: string)
    requires Run(states, steps) && Leaves(states, i, id) && Leaves(states, j, id)
    ensures i == j
  {
    if i < j {
      FinalStays(states, steps, i + 1, j, id);
    } else if j < i {
      FinalStays(states, steps, j + 1, i, id);
    }
  }

  /** Cancelled and stopped are the same thing, so that the goroutine never finds
      a cancelled task that is not stopped: an error means failure. */
  lemma CancelledBranchIsUnreachable(states: seq<State>, steps: seq<Step>, k: nat, id: string)
    requires Run(states, steps) && k < |states| && id in states[k].tasks
    ensures states[k].tasks[id].cancelled <==> states[k].tasks[id].status == Stopped
    ensures states[k].tasks[id].output != "" ==> states[k].tasks[id].status == Completed
    ensures states[k].tasks[id].error != "" ==> states[k].tasks[id].status == Failed
  {
    RunKeepsInv(states, steps, k);
    assert GoodTask(id, states[k].tasks[id], states[k].pending);
  }

  /** List goes through the ids in creation order, each once. */
  lemma OrderIsCreationOrder(states: seq<State>, steps: seq<Step>, k: nat)
    requires Run(states, steps) && k < |states|
    ensures forall i :: 0 <= i < |states[k].order| ==> states[k].order[i] == TaskId(i + 1)
    ensures forall i, j :: 0 <= i < j < |states[k].order| ==> states[k].order[i] != states[k].order[j]
    ensures forall id :: id in states[k].order <==> id in states[k].tasks
    ensures k < |steps| ==> states[k].order <= states[k + 1].order
  {
    RunKeepsInv(states, steps, k);
    var order := states[k].order;
    forall i, j | 0 <= i < j < |order| ensures order[i] != order[j] {
      if order[i] == order[j] {
        TaskIdInjective(i + 1, j + 1);
      }
    }
  }

  predicate Touches(step: Step, id: string)
  {
    (step.Stop? || step.Return?) && step.id == id
  }

  /** The state of a task no one has stopped and whose runner is out: as created. */
  lemma {:induction false} RunningUntilTouched(states: seq<State>, steps: seq<Step>, c: nat, k: nat)
    requires Run(states, steps) && c < k < |states| && steps[c].Create?
    requires var id := TaskId(states[c].nextID); forall m :: c < m < k ==> !Touches(steps[m], id)
    ensures var id := TaskId(states[c].nextID);
            && id in states[k].tasks && id in states[k].pending
            && states[k].tasks[id] == TaskData(steps[c].description, steps[c].prompt, Running, "", "", false)
    decreases k
  {
    if c + 1 < k {
      RunningUntilTouched(states, steps, c, k - 1);
      RunKeepsInv(states, steps, k - 1);
      NextIdIsFresh(states[k - 1]);
    } else {
      assert states[c + 1] == Next(states[c], steps[c]);
    }
  }

  /** The first stop or return decides, and nothing after it matters. */
  lemma FirstTouchDecides(states: seq<State>, steps: seq<Step>, c: nat, e: nat, k: nat)
    requires Run(states, steps) && c < e < k < |states| && steps[c].Create?
    requires var id := TaskId(states[c].nextID);
             Touches(steps[e], id) && forall m :: c < m < e ==> !Touches(steps[m], id)
    ensures var id, t := TaskId(states[c].nextID), TaskData(steps[c].description, steps[c].prompt, Running, "", "", false);
            && id in states[k].tasks && states[k].tasks[id].status != Running
            && states[k].tasks[id] ==
               if steps[e].Stop? then t.(status := Stopped, cancelled := true)
               else if steps[e].err.Some? then t.(status := Failed, error := steps[e].err.value)
               else t.(status := Completed, output := steps[e].out)
  {
    RunningUntilTouched(states, steps, c, e);
    assert states[e + 1] == Next(states[e], steps[e]);
    FinalStays(states, steps, e + 1, k, TaskId(states[c].nextID));
  }

  lemma {:induction false} FirstTouch(steps: seq<Step>, c: nat, k: nat, m: nat, id: string) returns (e: nat)
    requires c < m < k <= |steps| && Touches(steps[m], id)
    ensures c < e < k && Touches(steps[e], id) && forall l :: c < l < e ==> !Touches(steps[l], id)
    decreases m
  {
    if l: nat :| c < l < m && Touches(steps[l], id) {
      e := FirstTouch(steps, c, k, l, id);
    } else {
      e := m;
    }
  }

  /** The view Create hands back is taken after the registry's lock is released, in
      whatever state `k` it then is: it shows `running`, as its comment promises, iff
      no stop and no return of the runner has come in between. */
  lemma SnapshotIsRunningIff(states: seq<State>, steps: seq<Step>, c: nat, k: nat)
    requires Run(states, steps) && c < k < |states| && steps[c].Create?
    ensures var id := TaskId(states[c].nextID);
            && id in states[k].tasks
            && (states[k].tasks[id].status == Running <==> forall m :: c < m < k ==> !Touches(steps[m], id))
  {
    var id := TaskId(states[c].nextID);
    if m: nat :| c < m < k && Touches(steps[m], id) {
      var e := FirstTouch(steps, c, k, m, id);
      FirstTouchDecides(states, steps, c, e, k);
    } else {
      RunningUntilTouched(states, steps, c, k);
    }
  }

  // ---------------------------------------------------------- the objects

  class Task {
    const id: string
    const description: string
    const prompt: string
    var status: Status
    var output: string
    var error: string
    var cancelled: bool

    constructor (id: string, description: string, prompt: string)
      ensures this.id == id && Data() == NewTask(description, prompt)
    {
      this.id, this.description, this.prompt := id, description, prompt;
      status, output, error, cancelled := Running, "", "", false;
    }

    function Data(): TaskData
      reads this
    {
      TaskData(description, prompt, status, output, error, cancelled)
    }

    /** The part of Stop under the task's lock. */
    method StopRunning()
      modifies this
      ensures Data() == AfterStop(old(Data()))
    {
      if status == Running {
        status := Stopped;
        cancelled := true;
      }
    }

    /** The goroutine's tail, once the runner has returned. */
    method Finish(out: string, err: Option<string>)
      modifies this
      ensures Data() == FinishTask(old(Data()), out, err)
    {
      if status == Stopped {
        return;
      }
      if err.Some? {
        if cancelled {
          status := Stopped;
        } else {
          status := Failed;
        }
        error := err.value;
        return;
      }
      status := Completed;
      output := out;
    }
  }

  class Registry {
    var tasks: map<string, Task>
    var order: seq<string>
    var nextID: nat
    ghost var pending: set<string> // goroutines still waiting for their runner

    ghost predicate Valid()
      reads this
    {
      forall a, b :: a in tasks && b in tasks && tasks[a] == tasks[b] ==> a == b
    }

    ghost function View(): State
      reads this, tasks.Values
    {
      State(map id | id in tasks :: tasks[id].Data(), order, nextID, pending)
    }

    constructor ()
      ensures Valid() && View() == EMPTY
    {
      tasks, order, nextID, pending := map[], [], 1, {};
    }

    twostate lemma OneTaskMore(id: string)
      requires tasks.Keys == old(tasks.Keys) + {id} && id !in old(tasks)
      requires forall k :: k in old(tasks) ==> tasks[k] == old(tasks[k]) && tasks[k].Data() == old(tasks[k].Data())
      ensures View().tasks == old(View()).tasks[id := tasks[id].Data()]
    {
    }

    /** The locked part of Create; the goroutine is pending from here on. */
    method CreateTask(description: string, prompt: string) returns (id: string)
      requires Valid() && Inv(View())
      modifies this
      ensures Valid() && View() == Next(old(View()), Create(description, prompt))
      ensures id == "task_" + Itoa(old(nextID)) && id !in old(tasks)
    {
      NextIdIsFresh(View());
      id := TaskId(nextID);
      assert id !in View().tasks;
      nextID := nextID + 1;
      var t := new Task(id, description, prompt);
      tasks := tasks[id := t];
      order := order + [id];
      pending := pending + {id};
      OneTaskMore(id);
    }

    twostate lemma OneTaskChanged(id: string)
      requires tasks == old(tasks) && id in tasks
      requires forall k :: k in tasks && k != id ==> tasks[k].Data() == old(tasks[k].Data())
      ensures View().tasks == old(View()).tasks[id := tasks[id].Data()]
    {
    }

    /** Stop: false for an unknown id; a finished task is left as it is. */
    method StopTask(id: string) returns (ok: bool)
      requires Valid()
      modifies tasks.Values
      ensures Valid() && View() == Next(old(View()), Stop(id)) && ok == (id in tasks)
    {
      if id !in tasks {
        return false;
      }
      tasks[id].StopRunning();
      OneTaskChanged(id);
      ok := true;
    }

    /** The runner of a task returns. */
    method RunnerReturned(id: string, out: string, err: Option<string>)
      requires Valid() && id in tasks && id in pending
      modifies this`pending, tasks.Values
      ensures Valid() && View() == Next(old(View()), Return(id, out, err))
    {
      pending := pending - {id};
      tasks[id].Finish(out, err);
      OneTaskChanged(id);
    }

    /** List: one view per task, in creation order. */
    method List() returns (out: seq<(string, TaskData)>)
      requires Inv(View())
      ensures |out| == |order|
      ensures forall i :: 0 <= i < |out| ==> out[i].0 == order[i] && out[i].0 in tasks && out[i].1 == View().tasks[order[i]]
    {
      out := [];
      for i := 0 to |order|
        invariant |out| == i
        invariant forall k :: 0 <= k < i ==> out[k].0 == order[k] && out[k].0 in tasks && out[k].1 == View().tasks[order[k]]
      {
        assert order[i] in View().order && order[i] in View().tasks;
        out := out + [(order[i], tasks[order[i]].Data())];
      }
    }
  }
}
