# Fetcher task registry

A model of the task registry of a small Go service that fetches URLs on a
schedule. The registry (`Pool`) keeps one periodic worker per URL, indexed
twice: by numeric id in `workersID` and by URL in `workersString`. A counter
hands out the ids. `Submit` creates a worker for a new URL or forwards the
task to the existing one. `Delete` cancels a worker and drops it from both
indices. `Tasks`, `TaskById` and `Results` read the registry. Each worker
keeps an append-only history of fetch results.

Files:

- `wrappers.dfy` holds `Option` (Go's nil pointers and slices) and `Outcome` (Go's `(T, error)` return).
- `maps.dfy` holds facts about finite sets and maps, notably that an injective map has as many distinct values as keys.
- `pool.dfy` holds module `Fetcher`:
  - the value types `Task` and `Result`;
  - the class `Worker`, whose `id` and `url` are constants, as they never change in the source;
  - the class `Pool`, with its invariant `Valid()`.
- `scenarios.dfy` holds client methods that combine several registry calls.

The model is sequential. The worker's `Job` channel is reduced to the last
task sent on it (`job`). The worker's cancellable context is reduced to a
`cancelled` flag.

`Pool.Valid()` is the invariant that `Submit` and `Delete` keep:

- the counter has handed out exactly the ids 1 .. counter (ghost field `issued`);
- every live id is one of them;
- every worker sits under its own `id` in `workersID` and under its own `url` in `workersString`, and in both maps at once;
- every live worker is not cancelled;
- a live worker's current task and the last task delivered to it carry the worker's own id.

The lemmas derive from it that both indices hold the same workers, that they
have the same size, and that no two workers share a URL.

The `Job` channel is created with a buffer of one (pool.go:97), and
`Submit` sends on it at pool.go:109. The model records only the last task
delivered in `job`.

## Model

| member | source | states |
|---|---|---|
| `Fetcher.Pool.constructor` | pool.go:164-170 | `NewPool` gives a valid pool with counter 0 and both indices empty |
| `Fetcher.Pool.Submit` | pool.go:83-112 | keeps `Valid()`. For a URL already held it returns that worker's id and leaves counter, ids handed out and both maps unchanged, as well as the worker's task, history and cancel flag. For a new URL the counter goes up by one and becomes the id, which is larger than every id handed out before, deleted ones included. A fresh worker with that id, that URL, the task stamped with the id, an empty history and no cancellation is added to both maps, and no other entry changes. In both cases the task delivered to the worker carries the worker's id, whatever id the caller gave, and `TaskById` finds the worker |
| `Fetcher.Pool.Delete` | pool.go:114-125 | keeps `Valid()`; counter and ids handed out are unchanged. An unknown id leaves both maps as they were. A known id's worker is cancelled and removed from `workersID` under its id and from `workersString` under its URL, with every other entry untouched. Afterwards `TaskById` reports "not found" and `Results` is empty for that id |
| `Fetcher.Pool.Tasks` | pool.go:127-137 | returns one task per worker: as many entries as `workersID` has. Every entry is the current task of some live worker, and every live worker's current task is among the entries. Through the ghost `order`, the entries are read from distinct workers and each live worker is read once, in an unspecified order |
| `Fetcher.Pool.TaskById` | pool.go:152-162 | succeeds exactly when the id is live, with that worker's current task; otherwise fails with "not found" |
| `Fetcher.Pool.Results` | pool.go:139-150 | for the task's id, the worker's full history, or the empty sequence if no worker has that id |
| `Fetcher.Pool.SameWorkers` | pool.go:103-104 | under `Valid()`, the id index and the URL index hold the same set of workers |
| `Fetcher.Pool.SameCount` | pool.go:123-124 | under `Valid()`, there are exactly as many ids as URLs in the registry |
| `Fetcher.Pool.HistoryOfLive` | pool.go:143-161 | under `Valid()`, `TaskById` of a live id succeeds with a task that carries that id. Passing that task on to `Results` returns the worker's full history, so the lookup-then-history sequence never meets a task without an id |
| `Fetcher.Pool.OneWorkerPerUrl` | pool.go:84-88 | under `Valid()`, two live ids whose workers share a URL are the same id |
| `Fetcher.Worker.constructor` | pool.go:93-101 | a new worker has the given id, URL and task, an empty history, is not cancelled and has nothing delivered |
| `Fetcher.Worker.Deliver` | pool.go:108-109 | sending a task on the `Job` channel makes it the last delivered task |
| `Fetcher.Worker.Cancel` | pool.go:121 | cancelling marks the worker cancelled; cancelling again changes nothing |
| `Fetcher.Worker.AppendResult` | pool.go:76-78 | the history grows by exactly one entry at the end, and the earlier entries are untouched |
| `FetcherScenarios.SubmitDeleteSubmit` | pool.go:83-125 | on a new pool: submitting URL a, resubmitting a, deleting its id and submitting URL b yields ids 1, 1 and 2 |
| `FetcherScenarios.SubmitTwoNew` | pool.go:88-92 | two submissions of URLs not yet held return strictly increasing ids, neither handed out before |

## Left out

- The worker's goroutine loop `Worker.Fetching` (pool.go:46-75, 79-81) is not modelled. This covers the `select` over the context, the `Job` channel and `time.After`, the HTTP client and its five-second timeouts, and reading the body. It is concurrency, timing and network I/O. Only the append at pool.go:76-78 is kept, as `Worker.AppendResult` with the result given as a parameter. Because the channel receive at pool.go:63-64 is left out, a worker's `task` in the model stays the one it was created with.
- The loop builds its request once from the initial URL (pool.go:56). Later URL updates sent on `Job` therefore never change what is fetched. This is outside the model because the loop is outside it.
- The mutexes of the pool and the workers are not modelled (pool.go:85-86, 115-116, 128-129, 140-141, 147-148, 153-154, 159-160). Neither is the read of `workersString` before taking the lock (pool.go:84), nor the value receivers of `Tasks`, `Results` and `TaskById`, which lock a copy of the pool's mutex. All of these concern concurrency, and the model is sequential.
- Starting the worker goroutine (pool.go:106) is not modelled.
- A send on a full `Job` channel blocks (pool.go:109). The model records the task as delivered instead.
- Context creation and cancellation (pool.go:90, 121) are reduced to the `cancelled` flag.
- The debug print of the id in `Results` (pool.go:142) is not modelled.
- `Results` in Go returns the worker's own slice, which shares storage with the history. The model returns the sequence as a value, so aliasing is not captured.
- `Fetcher.Pool.Submit`: the counter is an unbounded integer. The source's `int64` would wrap after 2^63 - 1 new URLs, and that is not modelled.
- `Fetcher.Pool.Results` requires the task to carry an id. Go dereferences `*task.ID` (pool.go:142-143) and panics on a nil id, and the model does not capture that panic. Tasks obtained from `TaskById` on a valid pool always carry an id (see `HistoryOfLive`).
- `Fetcher.Pool.Submit` requires a URL and an interval. That is the check api.go makes before calling it (api.go:75-79). The HTTP handlers, routing and JSON encoding of api.go are not part of this model. Neither is the rounding `duration` JSON encoding (api.go:19-36), which is floating-point.
- main.go (flags, signal handling, server start) is not part of this model.
- Timestamps and durations in `Result` are plain integers. No clock is modelled.
