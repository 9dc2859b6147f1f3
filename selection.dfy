/**
 The choice a pass of the scheduler makes, stated over values.

 A pass reads the buckets, the transit total of each bucket and which bucket
 the gateway route is mapped to; nothing changes while it looks. The loop over
 the buckets skips the gateway's bucket, fails when a bucket has more calls in
 transit than remaining, takes the minimum headroom (`min_remaining`) and
 keeps the oldest queue head of the buckets with headroom left; the loop over
 the uncategorized queues then replaces that head only with a strictly older
 one.
 */
module Selection {
  import opened CountedSets
  import opened Queues
  import opened Buckets

  /** `defaultLimit`: the limit assumed for buckets the server has not described. */
  const DefaultLimit: int := 5

  /** A queue head: the scope of its queue and the call at the head. */
  datatype Candidate = Candidate(scope: Scope, head: Call)

  /** The outcome of the loop over the buckets: a failed assertion, or the headroom and the oldest head. */
  datatype BucketScan =
    | Overdrawn(id: string)
    | Scanned(minRemaining: int, min: int, best: Option<Candidate>)

  /** What a pass sees: the buckets, the transit total of each, and the bucket of the gateway route. */
  datatype View = View(buckets: map<string, Bucket>, totals: map<string, nat>, gateway: Option<string>)

  /** Every bucket has a transit total and well-formed queues. */
  ghost predicate Ready(v: View)
  {
    forall id :: id in v.buckets ==> id in v.totals && WellFormed(v.buckets[id].queues)
  }

  /** A bucket the pass does not skip: every bucket but the gateway route's. */
  predicate Considered(v: View, id: string)
  {
    id in v.buckets && id in v.totals && v.gateway != Some(id)
  }

  /** Remaining count minus calls in transit. */
  function Headroom(v: View, id: string): int
    requires Considered(v, id)
  {
    v.buckets[id].remaining - v.totals[id]
  }

  /** A bucket the pass may take a call from. */
  predicate Eligible(v: View, id: string)
  {
    Considered(v, id) && Headroom(v, id) > 0
  }

  /** Route `r` of bucket `id` has a queue whose head the pass may choose. */
  predicate Head(v: View, id: string, r: Route)
  {
    Eligible(v, id) && r in v.buckets[id].queues && v.buckets[id].queues[r] != []
  }

  function HeadCreated(v: View, id: string, r: Route): int
    requires Head(v, id, r)
  {
    v.buckets[id].queues[r][0].created
  }

  /** No bucket of `done` that the pass does not skip has more calls in transit than remaining. */
  ghost predicate CoveredAmong(v: View, done: set<string>)
  {
    forall id :: id in done && Considered(v, id) ==> Headroom(v, id) >= 0
  }

  /** `m` is the minimum of `defaultLimit` and the headroom of the buckets of `done` the pass does not skip. */
  ghost predicate MinAmong(v: View, done: set<string>, m: int)
  {
    && m <= DefaultLimit
    && (forall id :: id in done && Considered(v, id) ==> m <= Headroom(v, id))
    && (m == DefaultLimit || exists id :: id in done && Considered(v, id) && m == Headroom(v, id))
  }

  /**
   `best` is an oldest head of the buckets of `done` the pass may take from,
   and `min` its creation time; with no such head, `best` is none and `min`
   is the end of time.
   */
  ghost predicate BestAmong(v: View, done: set<string>, min: int, best: Option<Candidate>)
  {
    match best
    case None => min == TimeMax && forall id, r :: id in done && Head(v, id, r) ==> false
    case Some(c) =>
      && min == c.head.created
      && c.scope.InBucket?
      && c.scope.id in done
      && Head(v, c.scope.id, c.head.route)
      && c.head == v.buckets[c.scope.id].queues[c.head.route][0]
      && forall id, r :: id in done && Head(v, id, r) ==> c.head.created <= HeadCreated(v, id, r)
  }

  /**
   After looking at the heads of the queues of `seen`: `min'` is no later than
   `min` nor than any of those heads, and either nothing changed or `best'` is
   a head of `q` in `scope` strictly older than `min`.
   */
  ghost predicate OldestSoFar(q: QueueByRoute, scope: Scope, seen: set<Route>,
                        min: int, best: Option<Candidate>, min': int, best': Option<Candidate>)
  {
    && min' <= min
    && (forall r :: r in seen && r in q && q[r] != [] ==> min' <= q[r][0].created)
    && ((min' == min && best' == best) ||
        (&& min' < min
         && best'.Some?
         && best'.value.scope == scope
         && best'.value.head.created == min'
         && best'.value.head.route in q
         && q[best'.value.head.route] != []
         && q[best'.value.head.route][0] == best'.value.head))
  }

  /**
   The inner loops of `do_some_work`: looks at the head of every queue of `q`
   and keeps the first one strictly older than the oldest so far.
   */
  method OldestIn(q: QueueByRoute, scope: Scope, min: int, best: Option<Candidate>)
    returns (min': int, best': Option<Candidate>)
    requires WellFormed(q)
    ensures OldestSoFar(q, scope, q.Keys, min, best, min', best')
  {
    min', best' := min, best;
    var seen: set<Route> := {};
    while seen != q.Keys
      invariant seen <= q.Keys
      invariant OldestSoFar(q, scope, seen, min, best, min', best')
      decreases q.Keys - seen
    {
      Unvisited(seen, q.Keys);
      var r :| r in q.Keys - seen;
      var head := q[r][0];
      if head.created < min' {
        min', best' := head.created, Some(Candidate(scope, head));
      }
      seen := seen + {r};
    }
  }

  /**
   The loop over the buckets of `do_some_work`: skips the gateway's bucket,
   fails on a bucket with more calls in transit than remaining, takes the
   minimum headroom, and keeps the oldest head of the buckets with headroom.
   */
  method ScanBuckets(v: View) returns (scan: BucketScan)
    requires Ready(v)
    ensures scan.Overdrawn? ==> Considered(v, scan.id) && Headroom(v, scan.id) < 0
    ensures scan.Scanned? ==>
      && CoveredAmong(v, v.buckets.Keys)
      && MinAmong(v, v.buckets.Keys, scan.minRemaining)
      && BestAmong(v, v.buckets.Keys, scan.min, scan.best)
  {
    var minRemaining := DefaultLimit;
    var min := TimeMax;
    var best: Option<Candidate> := None;
    var done: set<string> := {};
    while done != v.buckets.Keys
      invariant done <= v.buckets.Keys
      invariant CoveredAmong(v, done)
      invariant MinAmong(v, done, minRemaining)
      invariant BestAmong(v, done, min, best)
      decreases v.buckets.Keys - done
    {
      Unvisited(done, v.buckets.Keys);
      var id :| id in v.buckets.Keys - done;
      if v.gateway == Some(id) {
        SkipBucket(v, done, id, minRemaining, min, best);
        done := done + {id};
        continue;
      }
      var bucket := v.buckets[id];
      var total := v.totals[id];
      if bucket.remaining < total {
        return Overdrawn(id);
      }
      var m := Min(minRemaining, bucket.remaining - total);
      MinStep(v, done, id, minRemaining, m);
      minRemaining := m;
      if bucket.remaining <= total {
        SkipBucket(v, done, id, minRemaining, min, best);
        done := done + {id};
        continue;
      }
      var min', best' := OldestIn(bucket.queues, InBucket(id), min, best);
      TakeBucket(v, done, id, min, best, min', best');
      min, best := min', best';
      done := done + {id};
    }
    return Scanned(minRemaining, min, best);
  }

  function Min(a: int, b: int): int
  {
    if a < b then a else b
  }

  /** A bucket the pass skips or cannot take from adds no head and keeps the coverage and the minimum. */
  lemma SkipBucket(v: View, done: set<string>, id: string, m: int, min: int, best: Option<Candidate>)
    requires Ready(v) && id in v.buckets && !Eligible(v, id)
    requires CoveredAmong(v, done) && BestAmong(v, done, min, best)
    requires Considered(v, id) ==> Headroom(v, id) >= 0 && MinAmong(v, done + {id}, m)
    requires !Considered(v, id) ==> MinAmong(v, done, m)
    ensures CoveredAmong(v, done + {id}) && MinAmong(v, done + {id}, m) && BestAmong(v, done + {id}, min, best)
  {
  }

  /** Taking the minimum with one more bucket's headroom. */
  lemma MinStep(v: View, done: set<string>, id: string, m: int, m': int)
    requires Considered(v, id)
    requires MinAmong(v, done, m) && m' == Min(m, Headroom(v, id))
    ensures MinAmong(v, done + {id}, m')
  {
  }

  /** The oldest head of one more bucket with headroom, compared with the best so far. */
  lemma TakeBucket(v: View, done: set<string>, id: string, min: int, best: Option<Candidate>,
                   min': int, best': Option<Candidate>)
    requires Ready(v) && Eligible(v, id) && id !in done
    requires CoveredAmong(v, done) && BestAmong(v, done, min, best)
    requires OldestSoFar(v.buckets[id].queues, InBucket(id), v.buckets[id].queues.Keys, min, best, min', best')
    ensures CoveredAmong(v, done + {id}) && BestAmong(v, done + {id}, min', best')
  {
  }

  /** A head the pass may choose: an eligible bucket's queue head, or the head of an uncategorized queue. */
  ghost predicate IsHead(v: View, q: QueueByRoute, c: Candidate)
  {
    match c.scope
    case Uncategorized => c.head.route in q && q[c.head.route] != [] && q[c.head.route][0] == c.head
    case InBucket(id) => Head(v, id, c.head.route) && v.buckets[id].queues[c.head.route][0] == c.head
  }

  /**
   What the two loops of a pass end with: an oldest head among the eligible
   buckets' heads and the uncategorized heads, a bucket head winning a tie;
   none only when there is no head at all.
   */
  ghost predicate Oldest(v: View, q: QueueByRoute, best: Option<Candidate>)
  {
    match best
    case None => q == map[] && forall id, r :: Head(v, id, r) ==> false
    case Some(c) =>
      && IsHead(v, q, c)
      && (forall id, r :: Head(v, id, r) ==> c.head.created <= HeadCreated(v, id, r))
      && (forall r :: r in q && q[r] != [] ==> c.head.created <= q[r][0].created)
      && (c.scope.Uncategorized? ==> forall id, r :: Head(v, id, r) ==> c.head.created < HeadCreated(v, id, r))
  }

  /** The uncategorized queues, looked at after every bucket. */
  lemma TakeUncategorized(v: View, q: QueueByRoute, min: int, best: Option<Candidate>,
                          min': int, best': Option<Candidate>)
    requires Ready(v) && WellFormed(q)
    requires BestAmong(v, v.buckets.Keys, min, best)
    requires OldestSoFar(q, Uncategorized, q.Keys, min, best, min', best')
    ensures Oldest(v, q, best')
  {
  }

  /** What a pass decides. */
  datatype Choice =
    | Halt(id: string)   // the assertion on a bucket's transit count fails
    | Wait               // nothing may be sent now
    | Take(c: Candidate) // the head of this queue is sent

  /**
   What a pass may decide: to halt on a bucket with more calls in transit than
   remaining; to wait when no bucket head is older than every uncategorized
   head and either there is no uncategorized call or some bucket could
   overflow (`min_remaining` at most `inTransit`); or to take an oldest head.
   */
  ghost predicate Decided(v: View, q: QueueByRoute, inTransit: nat, choice: Choice)
  {
    match choice
    case Halt(id) => Considered(v, id) && Headroom(v, id) < 0
    case Wait =>
      && CoveredAmong(v, v.buckets.Keys)
      && exists m, best :: MinAmong(v, v.buckets.Keys, m) && Oldest(v, q, best) &&
           (best.None? || best.value.scope.Uncategorized?) && (q == map[] || m <= inTransit)
    case Take(c) =>
      && CoveredAmong(v, v.buckets.Keys)
      && Oldest(v, q, Some(c))
      && (c.scope.Uncategorized? ==> exists m :: MinAmong(v, v.buckets.Keys, m) && m > inTransit)
  }

  /**
   The choice of `do_some_work` once it has started writing: the loop over the
   buckets, the loop over the uncategorized queues `q`, and the gate that lets
   an uncategorized call through only when no bucket could overflow, that is
   when `min_remaining` exceeds `inTransit`, the uncategorized transit total.
   */
  method Choose(v: View, q: QueueByRoute, inTransit: nat) returns (choice: Choice)
    requires Ready(v) && WellFormed(q)
    ensures Decided(v, q, inTransit, choice)
  {
    var scan := ScanBuckets(v);
    if scan.Overdrawn? {
      return Halt(scan.id);
    }
    var min, best := OldestIn(q, Uncategorized, scan.min, scan.best);
    TakeUncategorized(v, q, scan.min, scan.best, min, best);
    if (best.None? || best.value.scope.Uncategorized?) && (q == map[] || scan.minRemaining <= inTransit) {
      return Wait;
    }
    return Take(best.value);
  }

  /** While a bucket the pass does not skip has more calls in transit than remaining, no call is sent. */
  lemma OverdrawnHalts(v: View, q: QueueByRoute, inTransit: nat, choice: Choice, id: string)
    requires Decided(v, q, inTransit, choice)
    requires Considered(v, id) && Headroom(v, id) < 0
    ensures choice.Halt?
  {
  }

  /** `min_remaining` does not depend on the order the buckets are visited in. */
  lemma MinUnique(v: View, done: set<string>, m: int, m': int)
    requires MinAmong(v, done, m) && MinAmong(v, done, m')
    ensures m == m'
  {
  }

  /** Whatever the iteration order, every choice of a pass has the same creation time. */
  lemma OldestTie(v: View, q: QueueByRoute, c: Candidate, c': Candidate)
    requires Oldest(v, q, Some(c)) && Oldest(v, q, Some(c'))
    ensures c.head.created == c'.head.created
  {
  }

  /** A proper subset leaves an element out. */
  lemma Unvisited<T>(seen: set<T>, all: set<T>)
    requires seen <= all && seen != all
    ensures exists x :: x in all - seen
  {
    assert all == seen + (all - seen);
  }
}
