/**
 * Sequences of registry calls and what the contracts of `Fetcher.Pool`
 * let a caller conclude about them.
 */
module FetcherScenarios {
  import opened Wrappers
  import opened Fetcher

  const Second: Duration := 1_000_000_000

  /**
   * Submit a URL, submit it again with another interval, delete it, then
   * submit a second URL: the resubmission keeps id 1 and the counter is not
   * reset by the deletion, so the second URL gets id 2.
   */
  method SubmitDeleteSubmit() returns (first: int, again: int, next: int)
    ensures first == 1 && again == 1 && next == 2
  {
    var pool := new Pool();
    first := pool.Submit(Task(None, Some("http://example.test/a"), Some(Second)));
    again := pool.Submit(Task(None, Some("http://example.test/a"), Some(2 * Second)));
    pool.Delete(first);
    assert pool.TaskById(first).Err?;
    next := pool.Submit(Task(None, Some("http://example.test/b"), Some(Second)));
  }

  /**
   * Two submissions of URLs the pool does not hold return strictly
   * increasing ids, neither of them one that was handed out before.
   */
  method SubmitTwoNew(pool: Pool, a: Task, b: Task) returns (x: int, y: int)
    requires pool.Valid()
    requires a.url.Some? && a.interval.Some? && b.url.Some? && b.interval.Some?
    requires a.url != b.url
    requires a.url.value !in pool.workersString && b.url.value !in pool.workersString
    modifies pool
    ensures pool.Valid()
    ensures x !in old(pool.issued) && y !in old(pool.issued) && x < y
  {
    x := pool.Submit(a);
    y := pool.Submit(b);
  }
}
