/**
 What one worker process does to its queue and to the status table,
 stated on values. A worker pops items from the head of its own queue; the
 item "STOP" ends it, any other item is a task whose progress it publishes
 as a fixed trace of five strings under its own entry.
 */
module Worker {
  import opened WorkerNaming
  import opened StatusTable
  import opened Wrappers

  /** The sentinel item. Any queued item equal to it ends the worker that pops it. */
  const Stop: string := "STOP"
  /** The entry a worker leaves when it ends. */
  const Stopped: string := "Stopped"
  /** The entry every worker has before its first task. */
  const Idle: string := "Idle"
  /** Number of simulated steps per task. */
  const TaskSteps: nat := 3

  function StepMessage(task: string, step: nat): string {
    task + ": step " + Decimal(step) + "/3 done"
  }

  /** The successive entries a worker publishes while processing `task`. */
  function Trace(task: string): (t: seq<string>)
    ensures |t| == TaskSteps + 2
    ensures t[0] == "Working on " + task
    ensures t[|t| - 1] == task + " completed"
    ensures forall i :: 1 <= i <= TaskSteps ==> t[i] == StepMessage(task, i)
  {
    ["Working on " + task, StepMessage(task, 1), StepMessage(task, 2), StepMessage(task, 3), task + " completed"]
  }

  /** The progress trace of a task, written out. */
  lemma TraceWrittenOut(task: string)
    ensures Trace(task) == [
      "Working on " + task,
      task + ": step 1/3 done",
      task + ": step 2/3 done",
      task + ": step 3/3 done",
      task + " completed"]
  {
    var t := Trace(task);
    assert Decimal(1) == "1" && Decimal(2) == "2" && Decimal(3) == "3";
    assert t[1] == task + ": step 1/3 done";
    assert t[2] == task + ": step 2/3 done";
    assert t[3] == task + ": step 3/3 done";
  }

  /** The trace of the task "Report", letter by letter. */
  lemma ReportTrace()
    ensures Trace("Report") == [
      "Working on Report",
      "Report: step 1/3 done",
      "Report: step 2/3 done",
      "Report: step 3/3 done",
      "Report completed"]
  {
    TraceWrittenOut("Report");
    assert "Working on " + "Report" == "Working on Report";
    assert "Report" + ": step 1/3 done" == "Report: step 1/3 done";
    assert "Report" + ": step 2/3 done" == "Report: step 2/3 done";
    assert "Report" + ": step 3/3 done" == "Report: step 3/3 done";
    assert "Report" + " completed" == "Report completed";
  }

  /** A worker that takes the task "Report" writes its five literal entries and ends at "Report completed". */
  lemma ReportStep(id: WorkerId)
    ensures StepWrites(id, "Report") == WritesTo(id, [
      "Working on Report",
      "Report: step 1/3 done",
      "Report: step 2/3 done",
      "Report: step 3/3 done",
      "Report completed"])
    ensures "Report" != Stop && "Report" + " completed" == "Report completed"
  {
    assert "Report"[0] != Stop[0];
    ReportTrace();
  }

  /** No entry of a trace can be mistaken for the idle or the stopped state. */
  lemma TraceNeverIdleOrStopped(task: string, i: nat)
    requires i < |Trace(task)|
    ensures Trace(task)[i] != Idle && Trace(task)[i] != Stopped
  {
    var t := Trace(task)[i];
    if 1 <= i <= TaskSteps {
      assert |t| == |task| + 7 + |Decimal(i)| + 7;
    }
    assert |t| > |Stopped| > |Idle|;
  }

  /** The writes one worker makes to the table for one popped item. */
  function StepWrites(id: WorkerId, item: string): seq<Write<WorkerId>> {
    if item == Stop then [Write(id, Stopped)] else WritesTo(id, Trace(item))
  }

  /** The tasks a worker processes from queue contents `q` before it meets a sentinel. */
  function Pending(q: seq<string>): (r: seq<string>)
    ensures r <= q && Stop !in r
    ensures |r| < |q| ==> q[|r|] == Stop
  {
    if q == [] || q[0] == Stop then [] else [q[0]] + Pending(q[1..])
  }

  /** What is left in the queue once the worker has consumed its sentinel (nothing, if there was none). */
  function Leftover(q: seq<string>): (r: seq<string>)
    ensures Stop in q ==> q == Pending(q) + [Stop] + r
    ensures Stop !in q ==> r == [] && Pending(q) == q
  {
    if q == [] then [] else if q[0] == Stop then q[1..] else Leftover(q[1..])
  }

  /** The writes of a worker that runs on queue contents `q` until it stops or its queue is empty. */
  function RunWrites(id: WorkerId, q: seq<string>): seq<Write<WorkerId>> {
    if q == [] then []
    else if q[0] == Stop then StepWrites(id, Stop)
    else StepWrites(id, q[0]) + RunWrites(id, q[1..])
  }

  /** A run makes five writes per task it processes, and one more if it meets a sentinel. */
  lemma {:induction false} RunWritesCount(id: WorkerId, q: seq<string>)
    ensures |RunWrites(id, q)| == (TaskSteps + 2) * |Pending(q)| + (if Stop in q then 1 else 0)
  {
    if q != [] && q[0] != Stop {
      RunWritesCount(id, q[1..]);
      assert Stop in q <==> Stop in q[1..];
    }
  }

  /** Items queued behind a sentinel are never taken by the worker that consumes that sentinel. */
  lemma {:induction false} SentinelShieldsLaterItems(p: seq<string>, r: seq<string>)
    requires Stop !in p
    ensures Pending(p + [Stop] + r) == p
    ensures Leftover(p + [Stop] + r) == r
  {
    if p != [] {
      assert (p + [Stop] + r)[1..] == p[1..] + [Stop] + r;
      SentinelShieldsLaterItems(p[1..], r);
    }
  }

  /** Running through tasks that hold no sentinel, then on, is the two runs one after the other. */
  lemma {:induction false} RunWritesSplit(id: WorkerId, p: seq<string>, rest: seq<string>)
    requires Stop !in p
    ensures RunWrites(id, p + rest) == RunWrites(id, p) + RunWrites(id, rest)
  {
    if p == [] {
      assert p + rest == rest;
    } else {
      assert (p + rest)[1..] == p[1..] + rest;
      RunWritesSplit(id, p[1..], rest);
    }
  }

  /** One more item taken, when no sentinel was taken before it. */
  lemma RunWritesExtend(id: WorkerId, done: seq<string>, item: string)
    requires Stop !in done
    ensures RunWrites(id, done + [item]) == RunWrites(id, done) + StepWrites(id, item)
  {
    RunWritesSplit(id, done, [item]);
    assert RunWrites(id, [item]) == StepWrites(id, item) + RunWrites(id, []);
  }

  /** A run that meets its first sentinel after `done` ends there, leaving `rest` queued. */
  lemma RunEndsAtSentinel(id: WorkerId, q: seq<string>, done: seq<string>, rest: seq<string>)
    requires Stop !in done && q == done + ([Stop] + rest)
    ensures Stop in q && Leftover(q) == rest
    ensures RunWrites(id, q) == RunWrites(id, done) + StepWrites(id, Stop)
  {
    assert q == done + [Stop] + rest;
    SentinelShieldsLaterItems(done, rest);
    RunWritesSplit(id, done, [Stop] + rest);
    assert RunWrites(id, [Stop] + rest) == StepWrites(id, Stop);
  }

  /**
   FIFO order: on tasks without a sentinel, the j-th entry the worker
   publishes for its i-th task sits at position |Trace| * i + j of its
   writes, so every task's "completed" entry precedes the next task's
   "Working on" entry.
   */
  lemma {:induction false} RunWritesInOrder(id: WorkerId, ts: seq<string>, i: nat, j: nat)
    requires Stop !in ts
    requires i < |ts| && j < TaskSteps + 2
    ensures |RunWrites(id, ts)| == (TaskSteps + 2) * |ts|
    ensures RunWrites(id, ts)[(TaskSteps + 2) * i + j] == Write(id, Trace(ts[i])[j])
  {
    var head, tail := WritesTo(id, Trace(ts[0])), RunWrites(id, ts[1..]);
    assert ts[0] in ts;
    assert RunWrites(id, ts) == head + tail;
    if |ts| > 1 {
      RunWritesInOrder(id, ts[1..], if i == 0 then 0 else i - 1, j);
    }
    if i > 0 {
      var k := (TaskSteps + 2) * (i - 1) + j;
      assert (TaskSteps + 2) * i + j == |head| + k;
      assert k < |tail|;
      assert (head + tail)[|head| + k] == tail[k];
    }
  }

  /** The number of sentinels in a queue. */
  function Sentinels(q: seq<string>): nat {
    multiset(q)[Stop]
  }

  /** A worker that stops consumes exactly one sentinel. */
  lemma SentinelConsumed(q: seq<string>)
    requires Stop in q
    ensures Sentinels(Leftover(q)) == Sentinels(q) - 1
  {
    assert q == Pending(q) + [Stop] + Leftover(q);
    assert multiset(q) == multiset(Pending(q)) + multiset{Stop} + multiset(Leftover(q));
    assert multiset(Pending(q))[Stop] == 0;
  }

  /**
   Two sentinels appended behind any contents stop two workers of the
   queue run one after the other: the second still finds a sentinel.
   */
  lemma TwoSentinelsStopTwoWorkers(q: seq<string>)
    ensures Stop in q + [Stop, Stop]
    ensures Stop in Leftover(q + [Stop, Stop])
  {
    var q' := q + [Stop, Stop];
    assert q'[|q'| - 1] == Stop;
    assert multiset(q') == multiset(q) + multiset{Stop, Stop};
    SentinelConsumed(q');
    assert Sentinels(Leftover(q')) >= 1;
  }

  /** The entry a worker leaves after running on `q`, if it makes any write; `None` otherwise. */
  function FinalEntry(q: seq<string>): (e: Option<string>)
    ensures e.None? <==> q == []
  {
    if Stop in q then Some(Stopped)
    else if q == [] then None
    else Some(q[|q| - 1] + " completed")
  }

  /** One task, then the rest of the queue: the task's completion is overwritten by the rest's final entry, if any. */
  lemma FinalEntryAfterTask(q: seq<string>)
    requires q != [] && q[0] != Stop
    ensures FinalEntry(q) == if q[1..] == [] then Some(q[0] + " completed") else FinalEntry(q[1..])
  {
    var rest := q[1..];
    assert Stop in q <==> Stop in rest;
    if rest != [] {
      assert q[|q| - 1] == rest[|rest| - 1];
    }
  }

  /**
   The table once a worker has run on `q`: its own entry is "Stopped" if it
   met a sentinel, else the completion of the last task it processed, else
   unchanged (the entry is never reset to "Idle"). No other entry changes.
   */
  lemma {:induction false} RunFinalEntry(m: map<WorkerId, string>, id: WorkerId, q: seq<string>)
    decreases |q|
    ensures Replay(m, RunWrites(id, q)) ==
      if q == [] then m else m[id := FinalEntry(q).value]
  {
    if q == [] {
    } else if q[0] == Stop {
      assert RunWrites(id, q) == [Write(id, Stopped)];
      assert Replay(m, []) == m;
    } else {
      var rest := q[1..];
      var first := WritesTo(id, Trace(q[0]));
      var m1 := m[id := q[0] + " completed"];
      assert RunWrites(id, q) == first + RunWrites(id, rest);
      ReplayAppend(m, first, RunWrites(id, rest));
      ReplayWritesTo(m, id, Trace(q[0]));
      assert Replay(m, first) == m1;
      RunFinalEntry(m1, id, rest);
      FinalEntryAfterTask(q);
      if rest != [] {
        OverwriteTwice(m, id, q[0] + " completed", FinalEntry(rest).value);
      }
    }
  }

  /** Every write of a worker's run goes to the worker's own entry. */
  lemma {:induction false} RunWritesOwnEntry(id: WorkerId, q: seq<string>, i: nat)
    requires i < |RunWrites(id, q)|
    ensures RunWrites(id, q)[i].key == id
  {
    if q != [] && q[0] != Stop {
      var first := StepWrites(id, q[0]);
      if i >= |first| {
        RunWritesOwnEntry(id, q[1..], i - |first|);
      }
    }
  }
}
