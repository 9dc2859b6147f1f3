/**
 The scheduler's per-bucket state, as stored in its `buckets` map, and the
 scope a route's calls belong to.
 */
module Buckets {
  import opened CountedSets
  import opened Queues

  datatype Option<T> = None | Some(value: T)

  /** Where a route's calls wait and are counted: uncategorized, or a named bucket. */
  datatype Scope = Uncategorized | InBucket(id: string)

  /**
   A bucket as stored in `buckets`: its queues, its calls in transit, the limit
   and remaining count last reported, and the generation of its reset timer
   (0 while it has none).
   */
  datatype Bucket = Bucket(
    id: string,
    queues: QueueByRoute,
    transit: CountedSet<Route>,
    limit: nat,
    remaining: nat,
    timer: nat)
}
