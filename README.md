# Multi-queue task dispatcher: a Dafny model

This project models the task-dispatch core of a small FastAPI demo
(`app1.py`). The demo has three FIFO task queues. Two worker processes serve
each queue, and a shared status table holds one entry per worker, named
`Queue-{q}-Process-{p}`. The web routes act on that state:

- `add_task` range-checks a queue index and appends a task label.
- `get_status` returns a copy of the table, or an error while it is absent or
  empty.
- `stop_all` appends two `"STOP"` sentinels to every queue.

The bootstrap builds the queues and marks every worker `"Idle"`. Each worker
runs a loop. It pops the head of its own queue. On `"STOP"` it writes
`"Stopped"` and ends. On any other item it publishes a fixed five-entry
progress trace under its own entry, ending at `"<task> completed"`. The entry
is never reset to `"Idle"`.

Files and modules:

- `naming.dfy`
  - `Wrappers`: the `Option` type.
  - `WorkerNaming`: worker identities, and their decimal names with a parser
    that reads a name back.
- `status_table.dfy`, module `StatusTable`: the status table as the replay of
  the writes made to it, with the facts about replaying.
- `worker.dfy`, module `Worker`: what one worker does, stated on values:
  - the progress trace
  - which items a run takes, and what it leaves queued
  - the writes a run makes, and the entry it leaves
- `dispatcher.dfy`, module `Dispatch`: the class `Dispatcher`. It holds the
  queues (`seq<seq<string>>`) and the table (`Option<map<WorkerId, string>>`,
  `None` before bootstrap). Its methods are the routes, the bootstrap, and
  the worker loop as atomic steps.

The class carries two ghost fields:

- `history` logs every table write, oldest first. Its invariant says the table
  is the replay of this log. This is how the model states the order of the
  writes a concurrent reader could observe, and not only the final table.
- `exited` records the workers that have consumed a sentinel and ended.

The table is keyed by `WorkerId` (queue index, process index). The status
route renders it under the names `Queue-{q}-Process-{p}`. The renaming is one
to one, and each name parses back to its worker.

After a task the worker's entry keeps `"<task> completed"`. Nothing ever
resets it to `"Idle"` (`app1.py:27`), and the model keeps that behaviour.

## Model

| member | source | states |
|---|---|---|
| WorkerNaming.DecimalRoundTrip | app1.py:165 | the decimal rendering of an index (as an f-string renders a non-negative int) parses back to the same index |
| WorkerNaming.WorkerKey | app1.py:165 | a worker's name is `Queue-`, then the queue index in decimal, `-Process-` and the process index in decimal (read back by `WorkerKeyRoundTrip`) |
| WorkerNaming.SingleDigitName | app1.py:165 | an unfolding of `WorkerKey` for single-digit indices: `Queue-` + digit + `-Process-` + digit |
| WorkerNaming.WorkerKeyRoundTrip | app1.py:165 | every worker name `Queue-{q}-Process-{p}` parses back to exactly the worker `(q, p)` |
| WorkerNaming.WorkerKeyInjective | app1.py:21 | two workers share a status entry name if and only if they are the same worker |
| StatusTable.ReplayOneMore | app1.py:21 | an unfolding of `Replay` by one write: that write overwrites exactly one entry with the value written |
| StatusTable.ReplayKeys | app1.py:166 | writes never delete an entry: the table holds its old keys plus every key written |
| StatusTable.ReplayUnwritten | app1.py:23-27 | an entry that no write touches keeps its presence and its value |
| StatusTable.ReplayAppend | app1.py:21-27 | replaying two batches of writes one after the other is replaying their concatenation |
| StatusTable.ReplayWritesTo | app1.py:23-27 | after a run of writes to one entry, that entry holds the last value written and nothing else changed |
| Worker.Trace | app1.py:23-27 | the progress trace of a task has five entries: "Working on T", the three step messages in order, then "T completed" |
| Worker.TraceWrittenOut | app1.py:23-27 | the trace, written out: "Working on T", "T: step 1/3 done", "T: step 2/3 done", "T: step 3/3 done", "T completed" |
| Worker.ReportTrace | app1.py:23-27 | the trace of the task "Report", as literal strings |
| Worker.ReportStep | app1.py:20-27 | the item "Report" is not the sentinel, so a worker taking it writes exactly the five literal entries of its trace |
| Worker.TraceNeverIdleOrStopped | app1.py:27 | no trace entry equals "Idle" or "Stopped": a processed task never puts its worker back to "Idle" |
| Worker.Pending | app1.py:18-22 | the tasks a worker processes are a prefix of its queue that holds no sentinel and is followed by a sentinel or by the end of the queue |
| Worker.Leftover | app1.py:18-22 | a queue with a sentinel is exactly the processed tasks, the sentinel, then what stays queued; without a sentinel every item is processed and nothing stays |
| Worker.SentinelShieldsLaterItems | app1.py:20-22 | items queued behind the first sentinel are never taken by the worker that consumes it |
| Worker.RunWrites | app1.py:18-27 | the writes one worker's loop makes on queue contents, oldest first: each task's trace under the worker's own entry, up to and including "Stopped" for the first sentinel; its properties are stated by `RunWritesCount`, `RunWritesInOrder`, `RunWritesOwnEntry` and `RunFinalEntry` |
| Worker.RunWritesCount | app1.py:18-27 | a run makes five writes per task it processes, plus one if it meets a sentinel |
| Worker.RunWritesInOrder | app1.py:18-27 | FIFO: the j-th entry published for the i-th task sits at position 5*i+j of the worker's writes, so each task completes before the next one starts |
| Worker.SentinelConsumed | app1.py:19-22 | a worker that stops consumes exactly one sentinel from its queue |
| Worker.TwoSentinelsStopTwoWorkers | app1.py:51-54 | after two sentinels are appended to any queue contents, the queue still holds a sentinel once the first worker has stopped, so the second worker stops too |
| Worker.FinalEntry | app1.py:21-27 | the entry a run leaves is absent exactly when the queue was empty |
| Worker.RunFinalEntry | app1.py:16-27 | after a run the worker's entry is "Stopped" if it met a sentinel, else "<last task> completed", else unchanged; no other entry changes |
| Worker.RunWritesOwnEntry | app1.py:21-27 | every write of a worker's run goes to the worker's own entry |
| Dispatch.WorkersCount | app1.py:163-164 | the bootstrap starts exactly 3 * 2 = 6 workers |
| Dispatch.BootWritesTable | app1.py:163-166 | partway through the bootstrap, the table holds exactly the workers visited so far, each "Idle" |
| Dispatch.AllMarkedIsIdleTable | app1.py:163-166 | once every queue is visited, the table is the all-"Idle" table keyed by the six workers |
| Dispatch.BootTableIsIdle | app1.py:163-166 | the bootstrap's writes, replayed, give every worker "Idle" and nothing else |
| Dispatch.RunTable | app1.py:16-27 | a worker's run extends the log so that the replayed table is the old table with the run's final entry |
| Dispatch.AcceptsQueueId | app1.py:36 | a queue index is accepted exactly when 0 <= index < the number of queues; the test for an empty queue list is subsumed |
| Dispatch.AddedMessage | app1.py:39 | the confirmation names the task, and its text after `' added to Queue-` reads back as the queue index |
| Dispatch.Rendered | app1.py:46 | the copy returned by the status route has one entry per worker, under the worker's name, with the worker's value |
| Dispatch.RenderedReadsBack | app1.py:46 | every name in the returned copy reads back as a worker of the table, and carries that worker's value |
| Dispatch.Dispatcher.constructor | app1.py:11-13 | before bootstrap there is no table and the queue list is empty |
| Dispatch.Dispatcher.Publish | app1.py:21 | one table write, an internal step of `Bootstrap`, `WorkerStep` and `RunTask`: the entry is overwritten and the write is appended to the log |
| Dispatch.Dispatcher.Bootstrap | app1.py:157-170 | creates three empty queues and a table holding exactly the six workers, each "Idle", written queue by queue; no worker has ended |
| Dispatch.Dispatcher.AddTask | app1.py:34-39 | an invalid index (no queues, negative, or too large) gives the error and changes nothing; a valid one appends the task at the end of exactly that queue and confirms with the task and `Queue-{queue_id}` |
| Dispatch.Dispatcher.GetStatus | app1.py:42-46 | the "not initialized" error exactly when the table is absent or empty; otherwise the named copy of the table; after bootstrap always a copy with the six names |
| Dispatch.Dispatcher.StopAll | app1.py:49-54 | every queue gets exactly two "STOP" items appended behind its contents; no queue is added or removed; the table is untouched |
| Dispatch.Dispatcher.RunTask | app1.py:23-27 | an internal step of `WorkerStep`: processing a task logs its five trace entries, in order, under the worker's own entry, and leaves "<task> completed" there |
| Dispatch.Dispatcher.WorkerStep | app1.py:18-27 | one loop pass pops the head of the worker's own queue; "STOP" writes "Stopped" and ends the worker; any other item publishes its trace; no other queue or entry changes |
| Dispatch.Dispatcher.RunStep | app1.py:18-27 | one pass of the loop inside a run: the queue shrinks; if it did not stop, the log is the run's writes over the items taken so far; if it stopped, the sentinel was in the queue, what followed it is left queued, and the log is the writes of the whole run |
| Dispatch.Dispatcher.RunWorker | app1.py:16-27 | the loop, run until the worker ends or its queue is empty, stops exactly when the queue held a sentinel, leaves exactly what followed that sentinel, logs the run's writes and leaves the run's final entry |
| Dispatch.Dispatcher.StopThenRunBoth | app1.py:51-54 | after stop_all, the two workers of a queue, run one after the other, both end with "Stopped", whatever the queue held before |
| Dispatch.Dispatcher.ReportScenario | app1.py:34-39 | "Report" added to an empty queue 1 and taken by its first worker logs the five literal progress entries; the entry ends at "Report completed"; every other entry and every queue is as before |

## Left out

- Processes, the `Manager` proxy dictionary, the `daemon` flag and the process
  list (`app1.py:157-158`, `167-170`) are not modelled. Workers are not
  processes here: each worker action is one atomic step on the shared state,
  and any interleaving is a sequence of such steps.
- Dispatch.Dispatcher.WorkerStep: one loop pass, task included, is atomic. So
  `GetStatus` never returns an intermediate entry ("Working on T" or a step
  message), which the code's readers can see during the sleeps
  (`app1.py:23-26`). Only the ghost log `history` records those entries, in
  order.
- `time.sleep(random.uniform(1, 2))` (`app1.py:25`): clock, randomness and
  floating point. The step loop keeps only its status writes.
- Dispatch.Dispatcher.Bootstrap: in the code each worker may start running
  before the next names are written. The model treats the whole bootstrap as
  one step.
- Dispatch.Dispatcher.WorkerStep: the blocking `q.get()` (`app1.py:19`) is a
  precondition that the queue is non-empty.
- Dispatch.Dispatcher.RunWorker: it returns, with `stopped` false, when the
  queue is empty. The code would block there instead.
- Dispatch.Dispatcher.RunWorker: it runs one worker's loop to its end without
  other steps in between. Concurrent workers are covered only by sequences
  of WorkerStep calls.
- The HTML and JSON plumbing is not modelled: `home`, `control_panel`, the
  dashboard markup (`app1.py:29-31`, `56-154`), and the serialization of
  replies. Replies are the datatypes `Reply` and `StatusReply`.
- `print` and `uvicorn.run` (`app1.py:172-175`) are I/O.
- `1_app.py` is not part of this model. It holds only constant greeting
  routes.
