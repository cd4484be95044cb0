/**
 * The fetcher's task registry: a pool of periodic fetch workers, indexed both
 * by numeric id and by URL, with a counter that hands out ids.
 *
 * The model is sequential: the pool's and the workers' mutexes, the worker's
 * goroutine loop and the HTTP client are not part of it. A worker's `Job`
 * channel is reduced to the last task delivered to it, and its cancellable
 * context to a `cancelled` flag.
 */
module Fetcher {
  import opened Wrappers
  import Maps

  /** Go's `time.Duration`: a count of nanoseconds. */
  type Duration = int

  /** One byte of a response body. */
  newtype Byte = b: int | 0 <= b < 256

  /**
   * A task as seen by callers. Every field is optional, as the Go pointers
   * are: a caller submits a URL and an interval, the pool supplies the id.
   */
  datatype Task = Task(id: Option<int>, url: Option<string>, interval: Option<Duration>)

  /**
   * One recorded fetch: the body read (`None` when the request failed), how
   * long the attempt took and when it was recorded (nanoseconds since an
   * arbitrary epoch; the clock is not modelled).
   */
  datatype Result = Result(response: Option<seq<Byte>>, duration: Duration, createdAt: int)

  /** The message `TaskById` reports for an unknown id. */
  const NotFound: string := "not found"

  /** A periodic fetch worker: its key fields are fixed when it is created. */
  class Worker {
    const id: int
    const url: string
    /** The worker's current definition. */
    var task: Task
    /** The fetch history, oldest first; it is only ever appended to. */
    var results: seq<Result>
    /** Whether the worker's context has been cancelled. */
    var cancelled: bool
    /** The last task sent on the worker's `Job` channel, if any. */
    var job: Option<Task>

    /** A new worker for `url` under `id`, with an empty history. */
    constructor (id: int, url: string, task: Task)
      ensures this.id == id && this.url == url && this.task == task
      ensures results == [] && !cancelled && job == None
    {
      this.id := id;
      this.url := url;
      this.task := task;
      results := [];
      cancelled := false;
      job := None;
    }

    /** Sends `t` on the worker's single-slot `Job` channel. */
    method Deliver(t: Task)
      modifies this`job
      ensures job == Some(t)
    {
      job := Some(t);
    }

    /** Cancels the worker's context; cancelling twice is harmless. */
    method Cancel()
      modifies this`cancelled
      ensures cancelled
    {
      cancelled := true;
    }

    /** Records the outcome of one fetch at the end of the history. */
    method AppendResult(r: Result)
      modifies this`results
      ensures results == old(results) + [r]
      ensures |results| == |old(results)| + 1 && results[..|old(results)|] == old(results)
    {
      results := results + [r];
    }
  }

  class Pool {
    var workersID: map<int, Worker>
    var workersString: map<string, Worker>
    var counter: int
    /** Every id ever returned for a new worker, deleted or not. */
    ghost var issued: set<int>

    /**
     * The registry invariant: the counter has handed out exactly the ids
     * 1 .. counter, every live id is one of them, and every worker is stored
     * under its own id in `workersID` and under its own URL in
     * `workersString`, in both maps at once. A live worker is not cancelled,
     * and its current task and any task delivered to it carry its id.
     */
    ghost predicate Valid()
      reads this, workersID.Values
    {
      && 0 <= counter
      && (forall i :: i in issued <==> 1 <= i <= counter)
      && workersID.Keys <= issued
      && (forall i :: i in workersID ==> workersID[i].id == i)
      && (forall u :: u in workersString ==> workersString[u].url == u)
      && (forall i :: i in workersID ==>
            workersID[i].url in workersString && workersString[workersID[i].url] == workersID[i])
      && (forall u :: u in workersString ==>
            workersString[u].id in workersID && workersID[workersString[u].id] == workersString[u])
      && (forall i :: i in workersID ==> WorkerValid(workersID[i]))
    }

    /** A live worker: not cancelled, and every task it holds is stamped with its id. */
    ghost predicate WorkerValid(w: Worker)
      reads w
    {
      && !w.cancelled
      && w.task.id == Some(w.id)
      && (w.job.Some? ==> w.job.value.id == Some(w.id))
    }

    /** `NewPool`: no workers and a counter at zero. */
    constructor ()
      ensures Valid()
      ensures counter == 0 && workersID == map[] && workersString == map[]
    {
      counter := 0;
      workersID := map[];
      workersString := map[];
      issued := {};
    }

    /**
     * Registers `task` by URL. A new URL gets a new worker under the next
     * counter value; a known URL keeps its worker and its id. In both cases
     * the task, stamped with the worker's id, is delivered to the worker.
     */
    method Submit(task: Task) returns (id: int)
      requires Valid()
      requires task.url.Some? && task.interval.Some?
      modifies this, if task.url.value in workersString then {workersString[task.url.value]} else {}
      ensures Valid()
      ensures id in workersID && workersID[id].id == id && workersID[id].url == task.url.value
      ensures task.url.value in workersString && workersString[task.url.value] == workersID[id]
      ensures workersID[id].job == Some(task.(id := Some(id)))
      ensures TaskById(id) == Ok(workersID[id].task)
      ensures task.url.value in old(workersString) ==>
        && id == old(workersString[task.url.value].id)
        && workersID[id] == old(workersString[task.url.value])
        && counter == old(counter) && issued == old(issued)
        && workersID == old(workersID) && workersString == old(workersString)
        && workersID[id].task == old(workersID[id].task)
        && workersID[id].results == old(workersID[id].results)
        && workersID[id].cancelled == old(workersID[id].cancelled)
      ensures task.url.value !in old(workersString) ==>
        && counter == old(counter) + 1 && id == counter
        && (forall i :: i in old(issued) ==> i < id)
        && id !in old(issued) && issued == old(issued) + {id}
        && fresh(workersID[id])
        && workersID == old(workersID)[id := workersID[id]]
        && workersString == old(workersString)[task.url.value := workersID[id]]
        && workersID[id].task == task.(id := Some(id))
        && workersID[id].results == [] && !workersID[id].cancelled
    {
      var url := task.url.value;
      var worker: Worker;
      if url !in workersString {
        counter := counter + 1;
        worker := new Worker(counter, url, task.(id := Some(counter)));
        workersID := workersID[worker.id := worker];
        workersString := workersString[url := worker];
        issued := issued + {counter};
      } else {
        worker := workersString[url];
      }
      worker.Deliver(task.(id := Some(worker.id)));
      id := worker.id;
    }

    /**
     * Removes the worker with id `id` from both indices after cancelling it;
     * an unknown id leaves everything as it was.
     */
    method Delete(id: int)
      requires Valid()
      modifies this, if id in workersID then {workersID[id]} else {}
      ensures Valid()
      ensures counter == old(counter) && issued == old(issued)
      ensures id !in workersID && TaskById(id) == Err(NotFound)
      ensures Results(Task(Some(id), None, None)) == []
      ensures id !in old(workersID) ==>
        workersID == old(workersID) && workersString == old(workersString)
      ensures id in old(workersID) ==>
        && old(workersID[id]).cancelled
        && workersID == old(workersID) - {id}
        && workersString == old(workersString) - {old(workersID[id]).url}
        && old(workersID[id]).task == old(workersID[id].task)
        && old(workersID[id]).results == old(workersID[id].results)
        && old(workersID[id]).job == old(workersID[id].job)
    {
      if id !in workersID {
        return;
      }
      var worker := workersID[id];
      worker.Cancel();
      workersID := workersID - {worker.id};
      workersString := workersString - {worker.url};
    }

    /**
     * The current task of every worker, one per worker, in the map's
     * (unspecified) iteration order; `order` names the worker each entry
     * was read from.
     */
    method Tasks() returns (values: seq<Task>, ghost order: seq<int>)
      ensures |values| == |workersID| == |order|
      ensures forall k :: 0 <= k < |order| ==>
                order[k] in workersID && values[k] == workersID[order[k]].task
      ensures forall k, l :: 0 <= k < l < |order| ==> order[k] != order[l]
      ensures forall i :: i in workersID ==> i in order
      ensures forall i :: i in workersID ==> workersID[i].task in values
    {
      var buffer := new Task[|workersID|](_ => Task(None, None, None));
      var idx := 0;
      var remaining := workersID.Keys;
      order := [];
      while remaining != {}
        invariant remaining <= workersID.Keys
        invariant idx == |order| && idx + |remaining| == |workersID|
        invariant forall k :: 0 <= k < idx ==>
                    order[k] in workersID && order[k] !in remaining
                    && buffer[k] == workersID[order[k]].task
        invariant forall k, l :: 0 <= k < l < idx ==> order[k] != order[l]
        invariant forall i :: i in workersID && i !in remaining ==> i in order
        decreases remaining
      {
        // a witness that `remaining` has an element, for the choice below
        ghost var some := Maps.Pick(remaining);
        var i :| i in remaining;
        buffer[idx] := workersID[i].task;
        order := order + [i];
        idx := idx + 1;
        remaining := remaining - {i};
      }
      values := buffer[..];
      forall i | i in workersID
        ensures workersID[i].task in values
      {
        var k := Maps.IndexOf(order, i);
        assert values[k] == workersID[i].task;
      }
    }

    /** The current task of worker `id`, or the "not found" error. */
    function TaskById(id: int): (r: Outcome<Task>)
      reads this, workersID.Values
      ensures r.Ok? <==> id in workersID
      ensures r.Ok? ==> r.value == workersID[id].task
      ensures r.Err? ==> r.message == NotFound
    {
      if id in workersID then Ok(workersID[id].task) else Err(NotFound)
    }

    /** The history of the worker named by `task`'s id, or empty if none. */
    function Results(task: Task): (rs: seq<Result>)
      requires task.id.Some?
      reads this, workersID.Values
      ensures task.id.value !in workersID ==> rs == []
      ensures task.id.value in workersID ==> rs == workersID[task.id.value].results
    {
      if task.id.value in workersID then workersID[task.id.value].results else []
    }

    /** Both indices hold the same set of workers. */
    lemma SameWorkers()
      requires Valid()
      ensures workersID.Values == workersString.Values
    {
      forall w | w in workersID.Values
        ensures w in workersString.Values
      {
        var i := Maps.KeyOf(workersID, w);
        assert workersString[w.url] == w;
      }
      forall w | w in workersString.Values
        ensures w in workersID.Values
      {
        var u := Maps.KeyOf(workersString, w);
        assert workersID[w.id] == w;
      }
    }

    /** There are exactly as many ids as URLs in the registry. */
    lemma SameCount()
      requires Valid()
      ensures |workersID| == |workersString|
    {
      SameWorkers();
      forall a, b | a in workersID && b in workersID && workersID[a] == workersID[b]
        ensures a == b
      {
        assert workersID[a].id == a && workersID[b].id == b;
      }
      forall a, b | a in workersString && b in workersString && workersString[a] == workersString[b]
        ensures a == b
      {
        assert workersString[a].url == a && workersString[b].url == b;
      }
      Maps.InjectiveCard(workersID);
      Maps.InjectiveCard(workersString);
    }

    /** No two live workers share a URL. */
    lemma OneWorkerPerUrl(i: int, j: int)
      requires Valid()
      requires i in workersID && j in workersID
      requires workersID[i].url == workersID[j].url
      ensures i == j
    {
    }

    /**
     * Looking up a live id and then asking for the history of the task found
     * yields that worker's full history: the task carries the id it was
     * found under, so the lookup in `Results` is always defined.
     */
    lemma HistoryOfLive(id: int)
      requires Valid()
      requires id in workersID
      ensures TaskById(id).Ok? && TaskById(id).value.id == Some(id)
      ensures Results(TaskById(id).value) == workersID[id].results
    {
    }
  }
}
