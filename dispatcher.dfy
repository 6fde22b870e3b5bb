/**
 The dispatcher: a fixed list of FIFO task queues, the shared status table
 and the operations of the web application on them (add a task, read the
 status, stop every worker), together with the bootstrap that builds the
 queues and pre-fills the table, and the worker loop as atomic steps on
 the same state.
 */
module Dispatch {
  import opened Wrappers
  import opened WorkerNaming
  import opened StatusTable
  import opened Worker

  /** Number of task queues created at bootstrap. */
  const NumQueues: nat := 3
  /** Number of worker processes started per queue. */
  const WorkersPerQueue: nat := 2

  const InvalidQueueMessage: string := "Invalid queue_id. Must be 0, 1, or 2."
  const NotInitializedMessage: string := "System not initialized yet."
  const StoppingMessage: string := "Stopping all processes..."

  /** A JSON reply body: `{"message": ...}` or `{"error": ...}`. */
  datatype Reply = Message(message: string) | Error(error: string)

  /** The reply of the status route: the error body, or a copy of the table. */
  datatype StatusReply = NotInitialized(error: string) | Snapshot(entries: map<string, string>)

  /** The workers the bootstrap starts: two on each of the three queues. */
  predicate IsWorker(id: WorkerId) {
    id.queue < NumQueues && id.process < WorkersPerQueue
  }

  /** All workers the bootstrap starts. */
  function Workers(): set<WorkerId> {
    set q: nat, p: nat | q < NumQueues && p < WorkersPerQueue :: WorkerId(q, p)
  }

  /** The bootstrap starts exactly six workers. */
  lemma WorkersCount()
    ensures |Workers()| == NumQueues * WorkersPerQueue
  {
    assert Workers() == {WorkerId(0, 0), WorkerId(0, 1), WorkerId(1, 0), WorkerId(1, 1), WorkerId(2, 0), WorkerId(2, 1)};
  }

  /** The table as the bootstrap leaves it: every worker "Idle". */
  function IdleTable(): map<WorkerId, string> {
    map id | id in Workers() :: Idle
  }

  /** The writes the bootstrap makes for queue `q`'s first `n` workers. */
  function RowWrites(q: nat, n: nat): seq<Write<WorkerId>> {
    if n == 0 then [] else RowWrites(q, n - 1) + [Write(WorkerId(q, n - 1), Idle)]
  }

  /** The writes the bootstrap makes for the workers of the first `n` queues, queue by queue. */
  function GridWrites(n: nat): seq<Write<WorkerId>> {
    if n == 0 then [] else GridWrites(n - 1) + RowWrites(n - 1, WorkersPerQueue)
  }

  /** Has the bootstrap marked worker `id` once it reaches worker `pi` of queue `qi`? */
  predicate MarkedBefore(qi: nat, pi: nat, id: WorkerId) {
    id.process < WorkersPerQueue && (id.queue < qi || (id.queue == qi && id.process < pi))
  }

  /** Table `t` holds exactly the workers marked before worker `pi` of queue `qi`, each "Idle". */
  ghost predicate IdleUpTo(t: map<WorkerId, string>, qi: nat, pi: nat) {
    && (forall id :: id in t <==> MarkedBefore(qi, pi, id))
    && (forall id | id in t :: t[id] == Idle)
  }

  /** Replaying the bootstrap's writes so far marks exactly the workers visited so far "Idle". */
  lemma {:induction false} BootWritesTable(qi: nat, pi: nat)
    requires pi <= WorkersPerQueue
    decreases qi, pi
    ensures IdleUpTo(Replay(map[], GridWrites(qi) + RowWrites(qi, pi)), qi, pi)
  {
    if pi > 0 {
      var w := Write(WorkerId(qi, pi - 1), Idle);
      BootWritesTable(qi, pi - 1);
      assert GridWrites(qi) + RowWrites(qi, pi) == (GridWrites(qi) + RowWrites(qi, pi - 1)) + [w];
      ReplayOneMore(map[], GridWrites(qi) + RowWrites(qi, pi - 1), w);
    } else if qi > 0 {
      BootWritesTable(qi - 1, WorkersPerQueue);
      assert GridWrites(qi) + RowWrites(qi, 0) == GridWrites(qi - 1) + RowWrites(qi - 1, WorkersPerQueue);
    } else {
      assert GridWrites(0) + RowWrites(0, 0) == [];
    }
  }

  /** Once every queue is passed, the marked table is the idle table, keyed by every worker. */
  lemma AllMarkedIsIdleTable(t: map<WorkerId, string>)
    requires IdleUpTo(t, NumQueues, 0)
    ensures t == IdleTable() && t.Keys == Workers()
  {
  }

  /** The bootstrap's writes, replayed, give the table with every worker "Idle". */
  lemma BootTableIsIdle()
    ensures Replay(map[], GridWrites(NumQueues)) == IdleTable()
  {
    BootWritesTable(NumQueues, 0);
    assert GridWrites(NumQueues) + RowWrites(NumQueues, 0) == GridWrites(NumQueues);
  }

  /** Writes logged in two batches after `log0`. */
  lemma LogExtends(log0: seq<Write<WorkerId>>, a: seq<Write<WorkerId>>, b: seq<Write<WorkerId>>)
    ensures (log0 + a) + b == log0 + (a + b)
  {
  }

  /** Taking the head of the queue moves it from what is left to what is done. */
  lemma HeadTaken(q0: seq<string>, done: seq<string>, current: seq<string>)
    requires current != [] && q0 == done + current
    ensures q0 == done + ([current[0]] + current[1..])
    ensures q0 == (done + [current[0]]) + current[1..]
  {
    assert current == [current[0]] + current[1..];
  }

  /** The table after a worker's run, from the table before it and its write log. */
  lemma RunTable(table0: map<WorkerId, string>, history0: seq<Write<WorkerId>>, id: WorkerId, q: seq<string>)
    requires table0 == Replay(map[], history0)
    ensures Replay(map[], history0 + RunWrites(id, q)) ==
      if q == [] then table0 else table0[id := FinalEntry(q).value]
  {
    ReplayAppend(map[], history0, RunWrites(id, q));
    RunFinalEntry(table0, id, q);
  }

  /**
   The table as the web application shows it: each entry under the name
   `Queue-{queue}-Process-{process}` of its worker.
   */
  function Rendered(t: map<WorkerId, string>): (r: map<string, string>)
    ensures r.Keys == set id | id in t :: WorkerKey(id)
    ensures forall id | id in t :: r[WorkerKey(id)] == t[id]
  {
    WorkerKeysDistinct();
    map id | id in t :: WorkerKey(id) := t[id]
  }

  /** Names and workers correspond one to one: every name shown reads back as the worker whose entry it carries. */
  lemma RenderedReadsBack(t: map<WorkerId, string>, k: string)
    requires k in Rendered(t)
    ensures ParseWorkerKey(k).Some? && ParseWorkerKey(k).value in t
    ensures Rendered(t)[k] == t[ParseWorkerKey(k).value]
  {
    var id :| id in t && k == WorkerKey(id);
    WorkerKeyRoundTrip(id);
  }

  /**
   Does `add_task` accept this queue index, given the number of queues? It
   refuses when there are no queues, when the index is negative and when
   it is past the last queue; the first test is subsumed by the last.
   */
  predicate AcceptsQueueId(count: nat, queueId: int): (ok: bool)
    ensures ok <==> 0 <= queueId < count
  {
    !(count == 0 || queueId < 0 || queueId >= count)
  }

  /** Length of the text in front of the task label in a confirmation. */
  const AddedLead: nat := |"Task '"|
  /** Length of the text between the task label and the queue index in a confirmation. */
  const AddedMid: nat := |"' added to Queue-"|

  /** The confirmation `add_task` returns for an accepted task: it names the task and reads back as the queue index. */
  function AddedMessage(task: string, queueId: nat): (m: string)
    ensures |m| > AddedLead + |task| + AddedMid
    ensures m[AddedLead..AddedLead + |task|] == task
    ensures ParseDecimal(m[AddedLead + |task| + AddedMid..]) == Some(queueId)
  {
    var m := "Task '" + task + "' added to Queue-" + Decimal(queueId);
    assert m == "Task '" + (task + ("' added to Queue-" + Decimal(queueId)));
    assert m[AddedLead + |task| + AddedMid..] == Decimal(queueId);
    DecimalRoundTrip(queueId);
    m
  }

  class Dispatcher {
    /** The task queues, each a FIFO with its head at index 0. Empty until bootstrap. */
    var queues: seq<seq<string>>
    /** The shared status table, by worker; `None` until bootstrap creates it. */
    var status: Option<map<WorkerId, string>>
    /** Every write made to the current status table, oldest first. */
    ghost var history: seq<Write<WorkerId>>
    /** The workers that have consumed a sentinel and ended. */
    ghost var exited: set<WorkerId>

    /** The table is exactly the replay of its write log. */
    ghost predicate Consistent()
      reads this
    {
      status.Some? && status.value == Replay(map[], history)
    }

    ghost predicate Valid()
      reads this
    {
      if status.None? then queues == [] && history == [] && exited == {}
      else
        && Consistent()
        && |queues| == NumQueues
        && status.value.Keys == Workers()
        && forall id | id in exited :: id in status.value && status.value[id] == Stopped
    }

    /** The state before bootstrap: no queues, no table. */
    constructor ()
      ensures Valid()
      ensures queues == [] && status == None && history == [] && exited == {}
    {
      queues := [];
      status := None;
      history := [];
      exited := {};
    }

    /**
     One write to a worker's entry in the status table, logged. An internal
     step of `Bootstrap`, `WorkerStep` and `RunTask`: it keeps the table the
     replay of the log, and the callers restore `Valid()` around it.
     */
    method Publish(id: WorkerId, value: string)
      requires status.Some? && IsWorker(id)
      modifies this`status, this`history
      ensures status == Some(old(status).value[id := value])
      ensures history == old(history) + [Write(id, value)]
    {
      status := Some(status.value[id := value]);
      history := history + [Write(id, value)];
    }

    /** Creates the table and the queues, and marks every worker "Idle", queue by queue. */
    method Bootstrap()
      modifies this
      ensures Valid()
      ensures queues == seq(NumQueues, _ => [])
      ensures status == Some(IdleTable())
      ensures history == GridWrites(NumQueues)
      ensures exited == {}
    {
      status := Some(map[]);
      history := [];
      exited := {};
      queues := seq(NumQueues, _ => []);
      for qi := 0 to NumQueues
        modifies this`status, this`history
        invariant history == GridWrites(qi)
        invariant status.Some? && IdleUpTo(status.value, qi, 0)
      {
        for pi := 0 to WorkersPerQueue
          modifies this`status, this`history
          invariant history == GridWrites(qi) + RowWrites(qi, pi)
          invariant status.Some? && IdleUpTo(status.value, qi, pi)
        {
          Publish(WorkerId(qi, pi), Idle);
        }
      }
      AllMarkedIsIdleTable(status.value);
      BootTableIsIdle();
    }

    /** The `add_task` route: appends `task` to queue `queueId`, or refuses an index out of range. */
    method AddTask(queueId: int, task: string) returns (reply: Reply)
      requires Valid()
      modifies this`queues
      ensures Valid()
      ensures AcceptsQueueId(|old(queues)|, queueId) ==>
        queues == old(queues)[queueId := old(queues)[queueId] + [task]] &&
        reply == Message(AddedMessage(task, queueId))
      ensures !AcceptsQueueId(|old(queues)|, queueId) ==>
        queues == old(queues) && reply == Error(InvalidQueueMessage)
    {
      if |queues| == 0 || queueId < 0 || queueId >= |queues| {
        return Error(InvalidQueueMessage);
      }
      queues := queues[queueId := queues[queueId] + [task]];
      reply := Message(AddedMessage(task, queueId));
    }

    /**
     The `get_status` route: the "not initialized" error while the table is
     absent or empty, else a copy of the table under the workers' names;
     once bootstrapped, always a copy with one entry per worker.
     */
    function GetStatus(): (r: StatusReply)
      reads this
      ensures r.NotInitialized? <==> status.None? || status.value == map[]
      ensures r.NotInitialized? ==> r.error == NotInitializedMessage
      ensures r.Snapshot? ==> r.entries == Rendered(status.value)
      ensures Valid() && status.Some? ==>
        r.Snapshot? && r.entries.Keys == set id | id in Workers() :: WorkerKey(id)
    {
      WorkersCount();
      if status.None? || status.value == map[] then
        NotInitialized(NotInitializedMessage)
      else
        Snapshot(Rendered(status.value))
    }

    /** The `stop_all` route: appends two sentinels to the end of every queue. */
    method StopAll() returns (reply: Reply)
      requires Valid()
      modifies this`queues
      ensures Valid()
      ensures |queues| == |old(queues)|
      ensures forall i :: 0 <= i < |queues| ==> queues[i] == old(queues)[i] + [Stop, Stop]
      ensures reply == Message(StoppingMessage)
    {
      var i := 0;
      while i < |queues|
        invariant 0 <= i <= |queues| == |old(queues)|
        invariant forall k :: 0 <= k < i ==> queues[k] == old(queues)[k] + [Stop, Stop]
        invariant forall k :: i <= k < |queues| ==> queues[k] == old(queues)[k]
      {
        for j := 0 to 2
          invariant |queues| == |old(queues)|
          invariant queues[i] == old(queues)[i] + seq(j, _ => Stop)
          invariant forall k :: 0 <= k < |queues| && k != i ==>
            queues[k] == old(queues)[k] + (if k < i then [Stop, Stop] else [])
        {
          queues := queues[i := queues[i] + [Stop]];
        }
        i := i + 1;
      }
      reply := Message(StoppingMessage);
    }

    /**
     Processes one task: publishes its trace, entry by entry, under the
     worker's own entry. An internal step of `WorkerStep`, which re-establishes
     `Valid()` from the log it leaves.
     */
    method RunTask(id: WorkerId, task: string)
      requires status.Some? && IsWorker(id)
      modifies this`status, this`history
      ensures history == old(history) + WritesTo(id, Trace(task))
      ensures status == Some(old(status).value[id := task + " completed"])
    {
      ghost var table0, history0 := status.value, history;
      ghost var trace := Trace(task);
      Publish(id, "Working on " + task);
      assert trace[..1] == [trace[0]];
      for i := 0 to TaskSteps
        invariant status.Some?
        invariant history == history0 + WritesTo(id, trace[..i + 1])
        invariant status == Some(table0[id := trace[i]])
      {
        assert trace[i + 1] == StepMessage(task, i + 1);
        Publish(id, StepMessage(task, i + 1));
        assert table0[id := trace[i]][id := trace[i + 1]] == table0[id := trace[i + 1]];
        assert trace[..i + 2] == trace[..i + 1] + [trace[i + 1]];
        assert WritesTo(id, trace[..i + 2]) == WritesTo(id, trace[..i + 1]) + [Write(id, trace[i + 1])];
      }
      ghost var last := status.value;
      Publish(id, task + " completed");
      assert last[id := task + " completed"] == table0[id := task + " completed"];
      assert trace == trace[..TaskSteps + 1] + [trace[TaskSteps + 1]];
      assert WritesTo(id, trace) == WritesTo(id, trace[..TaskSteps + 1]) + [Write(id, trace[TaskSteps + 1])];
    }

    /**
     One iteration of a worker's loop, as one atomic step: pop the head of
     its own queue; a sentinel ends the worker with entry "Stopped", any
     other item is processed as a task and its trace published under the
     worker's own entry. Nothing else changes. The step needs an item in the
     queue (the pop blocks otherwise) and a worker that has not ended.
     */
    method WorkerStep(id: WorkerId) returns (stopped: bool)
      requires Valid() && status.Some? && IsWorker(id) && id !in exited
      requires queues[id.queue] != []
      modifies this`queues, this`status, this`history, this`exited
      ensures Valid()
      ensures var item := old(queues)[id.queue][0];
        && stopped == (item == Stop)
        && queues == old(queues)[id.queue := old(queues)[id.queue][1..]]
        && history == old(history) + StepWrites(id, item)
        && status == Some(old(status).value[id := if stopped then Stopped else item + " completed"])
        && exited == if stopped then old(exited) + {id} else old(exited)
    {
      var task := queues[id.queue][0];
      queues := queues[id.queue := queues[id.queue][1..]];
      if task == Stop {
        ReplayOneMore(map[], history, Write(id, Stopped));
        Publish(id, Stopped);
        exited := exited + {id};
        stopped := true;
      } else {
        ghost var table0, history0 := status.value, history;
        RunTask(id, task);
        ReplayAppend(map[], history0, WritesTo(id, Trace(task)));
        ReplayWritesTo(table0, id, Trace(task));
        stopped := false;
      }
      assert id in Workers();
    }

    /** One pass of the worker loop, with what it adds to the run so far. */
    method RunStep(id: WorkerId, ghost q0: seq<string>, ghost history0: seq<Write<WorkerId>>, ghost done: seq<string>)
      returns (stopped: bool, ghost done': seq<string>)
      requires Valid() && status.Some? && IsWorker(id) && id !in exited
      requires queues[id.queue] != [] && Stop !in done && q0 == done + queues[id.queue]
      requires history == history0 + RunWrites(id, done)
      modifies this`queues, this`status, this`history, this`exited
      ensures Valid() && status.Some? && queues == old(queues)[id.queue := queues[id.queue]]
      ensures |queues[id.queue]| < |old(queues)[id.queue]| && Stop !in done'
      ensures !stopped ==> id !in exited && exited == old(exited) && q0 == done' + queues[id.queue]
      ensures !stopped ==> history == history0 + RunWrites(id, done')
      ensures stopped ==> exited == old(exited) + {id} && Stop in q0 && queues[id.queue] == Leftover(q0)
      ensures stopped ==> history == history0 + RunWrites(id, q0)
    {
      ghost var item, rest := queues[id.queue][0], queues[id.queue][1..];
      HeadTaken(q0, done, queues[id.queue]);
      stopped := WorkerStep(id);
      if stopped {
        RunEndsAtSentinel(id, q0, done, rest);
        LogExtends(history0, RunWrites(id, done), StepWrites(id, Stop));
        done' := done;
      } else {
        RunWritesExtend(id, done, item);
        LogExtends(history0, RunWrites(id, done), StepWrites(id, item));
        done' := done + [item];
      }
    }

    /**
     A worker's loop run until it ends or its queue is empty (where the
     real worker would block in `get`): it takes the items up to and
     including the first sentinel, in order, publishing each task's trace.
     */
    method RunWorker(id: WorkerId) returns (stopped: bool)
      requires Valid() && status.Some? && IsWorker(id) && id !in exited
      modifies this`queues, this`status, this`history, this`exited
      ensures Valid()
      ensures var q := old(queues)[id.queue];
        && stopped == (Stop in q)
        && queues == old(queues)[id.queue := Leftover(q)]
        && history == old(history) + RunWrites(id, q)
        && status == Some(if q == [] then old(status).value else old(status).value[id := FinalEntry(q).value])
        && exited == if stopped then old(exited) + {id} else old(exited)
    {
      ghost var q0, table0, history0 := queues[id.queue], status.value, history;
      ghost var done: seq<string> := [];
      stopped := false;
      while !stopped && queues[id.queue] != []
        invariant Valid() && status.Some? && queues == old(queues)[id.queue := queues[id.queue]]
        invariant Stop !in done
        invariant !stopped ==> id !in exited && exited == old(exited) && q0 == done + queues[id.queue]
        invariant !stopped ==> history == history0 + RunWrites(id, done)
        invariant stopped ==> exited == old(exited) + {id} && Stop in q0 && queues[id.queue] == Leftover(q0)
        invariant stopped ==> history == history0 + RunWrites(id, q0)
        decreases |queues[id.queue]|
      {
        stopped, done := RunStep(id, q0, history0, done);
      }
      assert !stopped ==> done == q0;
      RunTable(table0, history0, id, q0);
    }

    /**
     Why two sentinels per queue: after `stop_all`, the two workers of a
     queue, each run until it ends, both end, whatever the queue held before
     (even a task labelled "STOP").
     */
    method StopThenRunBoth(qi: nat) returns (first: bool, second: bool)
      requires Valid() && status.Some? && qi < NumQueues
      requires WorkerId(qi, 0) !in exited && WorkerId(qi, 1) !in exited
      modifies this`queues, this`status, this`history, this`exited
      ensures Valid()
      ensures first && second
      ensures WorkerId(qi, 0) in exited && WorkerId(qi, 1) in exited
      ensures status.value[WorkerId(qi, 0)] == Stopped && status.value[WorkerId(qi, 1)] == Stopped
    {
      var _ := StopAll();
      TwoSentinelsStopTwoWorkers(old(queues)[qi]);
      first := RunWorker(WorkerId(qi, 0));
      second := RunWorker(WorkerId(qi, 1));
    }

    /**
     The task "Report" queued on queue 1 while that queue is empty, then
     taken by the queue's first worker: its entry goes through the five
     progress entries, in order, and ends at "Report completed"; no other
     entry and no queue is left changed.
     */
    method ReportScenario() returns (reply: Reply)
      requires Valid() && status.Some? && queues[1] == [] && WorkerId(1, 0) !in exited
      modifies this`queues, this`status, this`history, this`exited
      ensures Valid() && queues == old(queues) && exited == old(exited)
      ensures reply == Message(AddedMessage("Report", 1))
      ensures history == old(history) + WritesTo(WorkerId(1, 0), [
        "Working on Report",
        "Report: step 1/3 done",
        "Report: step 2/3 done",
        "Report: step 3/3 done",
        "Report completed"])
      ensures status == Some(old(status).value[WorkerId(1, 0) := "Report completed"])
    {
      ghost var queues0 := queues;
      reply := AddTask(1, "Report");
      assert queues0[1] + ["Report"] == ["Report"];
      ghost var queues1 := queues;
      ReportStep(WorkerId(1, 0));
      var stopped := WorkerStep(WorkerId(1, 0));
      assert queues1[1][1..] == [];
      assert queues0[1 := []] == queues0;
    }
  }
}
