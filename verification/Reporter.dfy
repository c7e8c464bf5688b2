/**
 The reporter's step over the collector and the pool as objects, with nothing running in between. What
 other goroutines can do between its three calls is the subject of module Delivery.
 */
module Reporter {
  import opened Common
  import opened Metrics
  import opened Collector
  import opened WorkerPool

  /** The task that Send makes: a post of this record with this delta. */
  datatype Post = Post(metrics: MemoryMetrics, delta: nat)

  class MetricsReporter {
    const collector: MetricsCollector
    const pool: BoundedPool<Post>

    constructor (collector: MetricsCollector, pool: BoundedPool<Post>)
      ensures this.collector == collector && this.pool == pool
    {
      this.collector, this.pool := collector, pool;
    }

    /** Send reports no error, whether or not the pool has taken the task. */
    method Send(post: Post, receiver: Option<nat>, preferDone: bool) returns (ok: bool, ghost taken: bool)
      requires pool.Valid() && !pool.closed
      requires receiver.Some? ==>
        pool.capacity == 0 && receiver.value < |pool.workers| && pool.workers[receiver.value].Waiting?
      modifies pool
      ensures pool.Valid() && ok
      ensures taken <==> (|old(pool.tasks)| < pool.capacity || receiver.Some?) && !(old(pool.cancelled) && preferDone)
      ensures taken ==> pool.accepted == old(pool.accepted) + [post] && pool.droppedTasks == old(pool.droppedTasks)
      ensures !taken ==> pool.accepted == old(pool.accepted) && pool.droppedTasks == old(pool.droppedTasks) + 1
    {
      var submitted := pool.Submit(post, receiver, preferDone);
      return true, submitted;
    }

    /**
     One report hands over the record and the count as they are, in a task that is accepted or
     dropped, and clears the count in either case: the ticks of a dropped report are never sent again. It
     is dropped exactly when the queue is full and no worker waits at it, or the select prefers the
     cancelled context.
     */
    method Report(receiver: Option<nat>, preferDone: bool) returns (ghost taken: bool)
      requires pool.Valid() && !pool.closed
      requires receiver.Some? ==>
        pool.capacity == 0 && receiver.value < |pool.workers| && pool.workers[receiver.value].Waiting?
      modifies collector`pollCount, pool
      ensures pool.Valid() && collector.pollCount == 0 && collector.metrics == old(collector.metrics)
      ensures taken <==> (|old(pool.tasks)| < pool.capacity || receiver.Some?) && !(old(pool.cancelled) && preferDone)
      ensures taken ==>
        && pool.accepted == old(pool.accepted) + [Post(old(collector.metrics), old(collector.pollCount))]
        && pool.droppedTasks == old(pool.droppedTasks)
      ensures !taken ==> pool.accepted == old(pool.accepted) && pool.droppedTasks == old(pool.droppedTasks) + 1
    {
      var metrics, count := collector.GetMetrics();
      var ok;
      ok, taken := Send(Post(metrics, count), receiver, preferDone);
      if ok {
        collector.ResetCount();
      }
    }
  }
}
