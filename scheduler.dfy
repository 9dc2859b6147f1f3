/**
 The rate-limit scheduler that sits in front of the HTTP transport.

 Calls wait in per-route queues, either in the uncategorized scope or in the
 bucket that the server has named for their route. A pass picks the oldest
 call whose bucket still has headroom, or an uncategorized call when no known
 bucket could overflow, and hands it to the transport. The write and read
 continuations of a sent call count it in and out of transit, learn the
 route's bucket, move the route's queue and transit count there, record the
 bucket's limits and arm its reset timer.

 The event loop, the transport and the user callbacks are not modelled: a
 pass returns the call it would send, and the caller invokes `OnWrite`,
 `OnRead` and `TimerFire` in whatever order the loop would.
 */
module RateLimit {
  import opened CountedSets
  import opened Routes
  import opened Queues
  import opened Buckets
  import opened Selection
  import opened Coherence

  /** The limit and remaining count a bucket starts with. */
  const InitialLimit: nat := 5
  const InitialRemaining: nat := 4

  /** The outcome of a pass. */
  datatype PassResult =
    | Busy                            // a pass is already writing
    | Idle                            // nothing may be sent now
    | Halted(id: string)              // the assertion on the bucket's transit count failed
    | Sent(call: Call, scope: Scope)  // this call goes to the transport

  /** The outcome of a read continuation. */
  datatype ReadResult =
    | Armed(id: string, generation: nat, seconds: nat)  // the bucket's timer of this generation fires after `seconds`
    | EraseFailed(error: EraseError)                    // erasing the route from transit threw

  /** The decision a pass result reports; a busy pass decides nothing and reads as waiting. */
  function ChoiceOf(result: PassResult): Choice
  {
    match result
    case Busy => Wait
    case Idle => Wait
    case Halted(id) => Halt(id)
    case Sent(call, scope) => Take(Candidate(scope, call))
  }

  class Scheduler {
    /** A pass has chosen a call and waits for it to be written. */
    var writing: bool
    /** The queues of the uncategorized scope. */
    var queues: QueueByRoute
    /** The calls in transit in the uncategorized scope. */
    const transit: CountedSet<Route>
    /** The bucket the server named for each route seen in a reply. */
    var routeToBucket: map<Route, string>
    var buckets: map<string, Bucket>
    /** The route key of the gateway path, computed once. */
    const gatewayRoute: Route

    /** The scope each transit counter of the scheduler belongs to. */
    ghost var owner: Owners

    /** Every transit counter of the scheduler is valid. */
    ghost predicate CountersValid()
      reads this`owner, owner.Keys
    {
      forall t {:trigger t.Valid()} :: t in owner ==> t.Valid()
    }

    /** The counters are valid, each belongs to one scope, and the scheduler's parts are coherent. */
    ghost predicate Valid()
      reads this`queues, this`routeToBucket, this`buckets, this`owner, owner.Keys
    {
      && Coherent(queues, routeToBucket, buckets, owner)
      && transit in owner && owner[transit] == Uncategorized
      && CountersValid()
    }

    constructor ()
      ensures Valid()
      ensures !writing && queues == map[] && routeToBucket == map[] && buckets == map[]
      ensures fresh(transit) && transit.Total() == 0 && transit.counts == map[]
      ensures gatewayRoute == Canonical(GatewayPath)
    {
      var g := LimitedRoute(GatewayPath);
      gatewayRoute := g;
      writing := false;
      queues := map[];
      transit := new CountedSet();
      routeToBucket := map[];
      buckets := map[];
      owner := map[transit := Uncategorized];
    }

    /** The scope whose queues and transit hold the calls of route `r`. */
    function ScopeOf(r: Route): Scope
      reads this`routeToBucket
    {
      if r in routeToBucket then InBucket(routeToBucket[r]) else Uncategorized
    }

    predicate HasScope(s: Scope)
      reads this`buckets
    {
      s.Uncategorized? || s.id in buckets
    }

    function QueuesIn(s: Scope): QueueByRoute
      reads this`queues, this`buckets
      requires HasScope(s)
    {
      if s.Uncategorized? then queues else buckets[s.id].queues
    }

    function TransitIn(s: Scope): CountedSet<Route>
      reads this`buckets
      requires HasScope(s)
    {
      if s.Uncategorized? then transit else buckets[s.id].transit
    }

    /** What a pass sees of the buckets: their transit totals now and the gateway route's bucket. */
    function Snapshot(): View
      reads this`routeToBucket, this`buckets, set id | id in buckets :: buckets[id].transit
    {
      View(buckets,
           map id | id in buckets :: buckets[id].transit.Total(),
           if gatewayRoute in routeToBucket then Some(routeToBucket[gatewayRoute]) else None)
    }

    /** Intercepts a call to `target` created at time `created`: it joins the tail of its route's queue. */
    method Submit(target: string, created: int, id: nat) returns (c: Call)
      requires Valid()
      requires |target| < NPos && created < TimeMax
      modifies this
      ensures Valid()
      ensures c == Call(Canonical(target), created, id)
      ensures writing == old(writing) && routeToBucket == old(routeToBucket)
      ensures ScopeOf(c.route).Uncategorized? ==> queues == Push(old(queues), c) && buckets == old(buckets)
      ensures ScopeOf(c.route).InBucket? ==>
        var b := ScopeOf(c.route).id;
        && queues == old(queues)
        && b in old(buckets)
        && buckets == old(buckets)[b := old(buckets[b]).(queues := Push(old(buckets[b].queues), c))]
    {
      var route := LimitedRoute(target);
      c := Call(route, created, id);
      Enqueue(c);
    }

    /** Pushes call `c` onto the tail of its route's queue, in the scope its route maps to. */
    method Enqueue(c: Call)
      requires Valid() && c.created < TimeMax
      modifies this
      ensures Valid()
      ensures writing == old(writing) && routeToBucket == old(routeToBucket)
      ensures ScopeOf(c.route).Uncategorized? ==> queues == Push(old(queues), c) && buckets == old(buckets)
      ensures ScopeOf(c.route).InBucket? ==>
        var b := ScopeOf(c.route).id;
        && queues == old(queues)
        && b in old(buckets)
        && buckets == old(buckets)[b := old(buckets[b]).(queues := Push(old(buckets[b].queues), c))]
    {
      PushCoherent(queues, routeToBucket, buckets, owner, c);
      if c.route in routeToBucket {
        var b := routeToBucket[c.route];
        buckets := buckets[b := buckets[b].(queues := Push(buckets[b].queues, c))];
      } else {
        queues := Push(queues, c);
      }
    }

    /** Takes the head of route `r`'s queue in scope `s` and erases the route's entry once its queue is empty. */
    method Dequeue(s: Scope, r: Route)
      requires Valid() && HasScope(s) && r in QueuesIn(s) && QueuesIn(s)[r] != []
      modifies this
      ensures Valid()
      ensures writing == old(writing) && routeToBucket == old(routeToBucket)
      ensures s.Uncategorized? ==> queues == Pop(old(queues), r) && buckets == old(buckets)
      ensures s.InBucket? ==>
        && queues == old(queues)
        && buckets == old(buckets)[s.id := old(buckets[s.id]).(queues := Pop(old(buckets[s.id].queues), r))]
    {
      PopCoherent(queues, routeToBucket, buckets, owner, s, r);
      if s.Uncategorized? {
        queues := Pop(queues, r);
      } else {
        var b := buckets[s.id];
        buckets := buckets[s.id := b.(queues := Pop(b.queues, r))];
      }
    }

    /**
     The end of `do_some_work` once the choice is made: writing stays set
     unless nothing may be sent, and a chosen head leaves its queue.
     */
    method Commit(v: View, choice: Choice) returns (result: PassResult)
      requires Valid() && !writing && v.buckets == buckets
      requires choice.Take? ==> IsHead(v, queues, choice.c)
      modifies this
      ensures Valid()
      ensures ChoiceOf(result) == choice && !result.Busy?
      ensures routeToBucket == old(routeToBucket)
      ensures writing <==> !choice.Wait?
      ensures !choice.Take? ==> queues == old(queues) && buckets == old(buckets)
      ensures choice.Take? ==>
        var c := choice.c;
        && (c.scope.Uncategorized? ==>
              && c.head.route in old(queues)
              && queues == Pop(old(queues), c.head.route) && buckets == old(buckets))
        && (c.scope.InBucket? ==>
              var b := c.scope.id;
              && b in old(buckets) && c.head.route in old(buckets[b].queues)
              && queues == old(queues)
              && buckets == old(buckets)[b := old(buckets[b]).(queues := Pop(old(buckets[b].queues), c.head.route))])
    {
      if choice.Halt? {
        writing := true;
        result := Halted(choice.id);
      } else if choice.Wait? {
        result := Idle;
      } else {
        var c := choice.c;
        writing := true;
        Dequeue(c.scope, c.head.route);
        result := Sent(c.head, c.scope);
      }
    }

    /**
     `do_some_work`: unless a pass is already writing, chooses a call and
     dequeues it, and keeps writing until the call is written; a pass that
     sends nothing leaves `writing` clear.
     */
    method Pass() returns (result: PassResult)
      requires Valid()
      modifies this
      ensures Valid()
      ensures routeToBucket == old(routeToBucket)
      ensures old(writing) <==> result.Busy?
      ensures result.Busy? || result.Halted? || result.Idle? ==> queues == old(queues) && buckets == old(buckets)
      ensures writing <==> !result.Idle?
      ensures !result.Busy? ==> Decided(old(Snapshot()), old(queues), old(transit.Total()), ChoiceOf(result))
      ensures result.Sent? ==>
        var c := result.call;
        && (result.scope.Uncategorized? ==>
              && c.route in old(queues)
              && queues == Pop(old(queues), c.route) && buckets == old(buckets))
        && (result.scope.InBucket? ==>
              var b := result.scope.id;
              && b in old(buckets) && c.route in old(buckets[b].queues)
              && queues == old(queues)
              && buckets == old(buckets)[b := old(buckets[b]).(queues := Pop(old(buckets[b].queues), c.route))])
    {
      if writing {
        return Busy;
      }
      var v := Snapshot();
      BucketQueuesWellFormed(queues, routeToBucket, buckets, owner);
      var choice := Choose(v, queues, transit.Total());
      result := Commit(v, choice);
    }

    /** The write continuation: the sent call is counted in transit in its route's scope and writing stops. */
    method OnWrite(r: Route)
      requires Valid()
      modifies this, TransitIn(ScopeOf(r))
      ensures Valid()
      ensures !writing
      ensures queues == old(queues) && routeToBucket == old(routeToBucket) && buckets == old(buckets)
      ensures var t := TransitIn(ScopeOf(r));
        && t.sum == old(t.sum) + 1
        && t.counts == old(t.counts)[r := old(Tally(t.counts, r)) + 1]
    {
      var s := ScopeOf(r);
      if s.InBucket? {
        BucketOf(queues, routeToBucket, buckets, owner, s.id);
      }
      var t := TransitIn(s);
      t.Insert(r, 1);
      writing := false;
    }

    /**
     The first step of the read continuation: the call read leaves transit in
     its route's scope. Erasing a route that is not in transit throws, which
     ends the continuation with nothing changed.
     */
    method Release(r: Route) returns (outcome: Outcome)
      requires Valid()
      modifies TransitIn(ScopeOf(r))
      ensures Valid()
      ensures outcome.Fail? <==> r !in old(TransitIn(ScopeOf(r)).counts)
      ensures outcome.Fail? ==> outcome.error == AbsentKey
      ensures var t := TransitIn(ScopeOf(r));
        && (outcome.Fail? ==> t.counts == old(t.counts) && t.sum == old(t.sum))
        && (outcome.Pass? ==>
              && t.sum == old(t.sum) - 1
              && Tally(t.counts, r) == old(Tally(t.counts, r)) - 1
              && t.counts - {r} == old(t.counts) - {r})
    {
      var s := ScopeOf(r);
      if s.InBucket? {
        BucketOf(queues, routeToBucket, buckets, owner, s.id);
      }
      var t := TransitIn(s);
      assert t.Valid();
      assert r in t.counts ==> t.counts[r] > 0;
      outcome := t.Erase(r, 1);
      assert outcome != Fail(ExceedsCount);
      assert outcome.Fail? ==> outcome.error.AbsentKey?;
    }

    /** `buckets.emplace(id, Bucket{id})`: adds a bucket with the initial limits unless one exists. */
    method EnsureBucket(id: string)
      requires Valid()
      modifies this
      ensures Valid()
      ensures writing == old(writing) && queues == old(queues) && routeToBucket == old(routeToBucket)
      ensures id in old(buckets) ==> buckets == old(buckets)
      ensures id !in old(buckets) ==>
        && id in buckets && buckets == old(buckets)[id := buckets[id]]
        && fresh(buckets[id].transit)
        && buckets[id] == Bucket(id, map[], buckets[id].transit, InitialLimit, InitialRemaining, 0)
        && buckets[id].transit.counts == map[] && buckets[id].transit.sum == 0
    {
      if id !in buckets {
        var t := new CountedSet();
        var b := Bucket(id, map[], t, InitialLimit, InitialRemaining, 0);
        AddBucket(queues, routeToBucket, buckets, owner, b);
        buckets := buckets[id := b];
        owner := owner[t := InBucket(id)];
      }
    }

    /**
     Maps route `r` to bucket `id` and moves its queue there from the scope
     it was mapped to; the target never already holds a queue for `r`, so the
     insertion keeps every moved call.
     */
    method Remap(r: Route, id: string)
      requires Valid() && id in buckets && ScopeOf(r) != InBucket(id)
      modifies this
      ensures Valid()
      ensures writing == old(writing) && routeToBucket == old(routeToBucket)[r := id]
      ensures buckets.Keys == old(buckets.Keys)
      ensures buckets[id] == old(buckets[id]).(queues := buckets[id].queues)
      ensures HasScope(old(ScopeOf(r))) && TransitIn(old(ScopeOf(r))) == old(TransitIn(ScopeOf(r)))
      ensures r !in old(buckets[id].queues)
      ensures QueueOf(buckets[id].queues, r) == old(QueueOf(QueuesIn(ScopeOf(r)), r))
      ensures Relocated(old(queues), old(buckets), queues, buckets, old(ScopeOf(r)), r, id)
      ensures r !in old(routeToBucket) ==>
        var src := Migrate(old(queues), old(buckets[id].queues), r).0;
        var dst := Migrate(old(queues), old(buckets[id].queues), r).1;
        queues == src && buckets == old(buckets)[id := old(buckets[id]).(queues := dst)]
      ensures r in old(routeToBucket) ==>
        var from := old(routeToBucket[r]);
        var src := Migrate(old(buckets[from].queues), old(buckets[id].queues), r).0;
        var dst := Migrate(old(buckets[from].queues), old(buckets[id].queues), r).1;
        && queues == old(queues)
        && buckets == old(buckets)[from := old(buckets[from]).(queues := src)][id := old(buckets[id]).(queues := dst)]
    {
      if r in routeToBucket {
        var from := routeToBucket[r];
        MigrateBetweenBuckets(queues, routeToBucket, buckets, owner, r, id);
        MigrateMoves(buckets[from].queues, buckets[id].queues, r, r);
        RelocateBetweenBuckets(queues, buckets, r, from, id);
        var src := Migrate(buckets[from].queues, buckets[id].queues, r).0;
        var dst := Migrate(buckets[from].queues, buckets[id].queues, r).1;
        buckets := buckets[from := buckets[from].(queues := src)][id := buckets[id].(queues := dst)];
      } else {
        MigrateFromUncategorized(queues, routeToBucket, buckets, owner, r, id);
        MigrateMoves(queues, buckets[id].queues, r, r);
        RelocateFromUncategorized(queues, buckets, r, id);
        var src := Migrate(queues, buckets[id].queues, r).0;
        var dst := Migrate(queues, buckets[id].queues, r).1;
        queues := src;
        buckets := buckets[id := buckets[id].(queues := dst)];
      }
      routeToBucket := routeToBucket[r := id];
    }

    /** Moves route `r`'s count in transit from scope `s` to bucket `id`, whose counter is another one. */
    method MoveTransit(s: Scope, r: Route, id: string)
      requires Valid() && HasScope(s) && id in buckets && s != InBucket(id)
      modifies TransitIn(s), buckets[id].transit
      ensures Valid()
      ensures var from, to := TransitIn(s), buckets[id].transit;
        && from.counts == old(from.counts) - {r} && from.sum == old(from.sum)
        && to.sum == old(to.sum) + old(Tally(from.counts, r))
        && Tally(to.counts, r) == old(Tally(to.counts, r)) + old(Tally(from.counts, r))
        && to.counts - {r} == old(to.counts) - {r}
    {
      var from := TransitIn(s);
      var to := buckets[id].transit;
      assert BucketCoherent(buckets[id], id, routeToBucket, owner);
      assert s.InBucket? ==> BucketCoherent(buckets[s.id], s.id, routeToBucket, owner);
      from.Move(to, r);
    }

    /**
     Route `r`'s reply named bucket `id`, which is not the bucket `r` is
     mapped to: `r`'s mapping, queue and count in transit move there.
     */
    method Settle(r: Route, id: string)
      requires Valid() && id in buckets && ScopeOf(r) != InBucket(id)
      modifies this, TransitIn(ScopeOf(r)), buckets[id].transit
      ensures Valid()
      ensures writing == old(writing) && routeToBucket == old(routeToBucket)[r := id]
      ensures Relocated(old(queues), old(buckets), queues, buckets, old(ScopeOf(r)), r, id)
      ensures buckets[id] == old(buckets[id]).(queues := buckets[id].queues)
      ensures var from, to := old(TransitIn(ScopeOf(r))), old(buckets[id].transit);
        && from.counts == old(from.counts) - {r} && from.sum == old(from.sum)
        && to.sum == old(to.sum) + old(Tally(from.counts, r))
        && Tally(to.counts, r) == old(Tally(to.counts, r)) + old(Tally(from.counts, r))
        && to.counts - {r} == old(to.counts) - {r}
    {
      var s := ScopeOf(r);
      Remap(r, id);
      MoveTransit(s, r, id);
    }

    /**
     The read continuation of a call to route `r` whose reply named bucket
     `newId` and reported its limit, its remaining count and the seconds until
     it resets: the call leaves transit; when the route was not in that bucket,
     the bucket is created if missing and the route's mapping, queue and count
     in transit move there; then the bucket's limits are recorded and its reset
     timer replaced. The result names the timer, which fires after `resetAfter`
     seconds.
     */
    method OnRead(r: Route, newId: string, limit: nat, remaining: nat, resetAfter: nat) returns (result: ReadResult)
      requires Valid()
      modifies this, TransitIn(ScopeOf(r)), if newId in buckets then {buckets[newId].transit} else {}
      ensures Valid()
      ensures forall k :: k in routeToBucket ==> routeToBucket[k] in buckets
      ensures writing == old(writing)
      ensures result.EraseFailed? <==> r !in old(TransitIn(ScopeOf(r)).counts)
      ensures result.EraseFailed? ==>
        && result.error == AbsentKey
        && queues == old(queues) && routeToBucket == old(routeToBucket) && buckets == old(buckets)
        && var t := old(TransitIn(ScopeOf(r))); t.counts == old(t.counts) && t.sum == old(t.sum)
      ensures result.Armed? ==>
        && result.id == newId && result.seconds == resetAfter
        && routeToBucket == old(routeToBucket)[r := newId]
        && newId in buckets && buckets.Keys == old(buckets.Keys) + {newId}
        && QueueOf(buckets[newId].queues, r) == old(QueueOf(QueuesIn(ScopeOf(r)), r))
        && buckets[newId].limit == limit
        && buckets[newId].remaining ==
             Min(if newId in old(buckets) then old(buckets[newId].remaining) else InitialRemaining, remaining)
        && buckets[newId].timer == result.generation
        && result.generation == (if newId in old(buckets) then old(buckets[newId].timer) else 0) + 1
        && (newId in old(buckets) ==> buckets[newId].transit == old(buckets[newId].transit))
        && (newId !in old(buckets) ==> fresh(buckets[newId].transit))
      ensures result.Armed? && old(ScopeOf(r)) == InBucket(newId) ==>
        && queues == old(queues)
        && buckets == old(buckets)[newId := old(buckets[newId]).(limit := limit,
                                                                 remaining := buckets[newId].remaining,
                                                                 timer := result.generation)]
      ensures result.Armed? && old(ScopeOf(r)) != InBucket(newId) ==>
        Relocated(old(queues), old(buckets), queues, buckets, old(ScopeOf(r)), r, newId)
      ensures result.Armed? ==>
        var from := old(TransitIn(ScopeOf(r)));
        && from.sum == old(from.sum) - 1
        && (old(ScopeOf(r)) == InBucket(newId) ==> from.counts - {r} == old(from.counts) - {r})
        && (old(ScopeOf(r)) != InBucket(newId) ==> from.counts == old(from.counts) - {r})
      ensures result.Armed? && old(ScopeOf(r)) != InBucket(newId) ==>
        var from, to := old(TransitIn(ScopeOf(r))), buckets[newId].transit;
        && to.sum + 1 ==
             (if newId in old(buckets) then old(buckets[newId].transit.sum) else 0) + old(Tally(from.counts, r))
        && to.counts - {r} == (if newId in old(buckets) then old(buckets[newId].transit.counts) else map[]) - {r}
      ensures result.Armed? ==>
        Tally(buckets[newId].transit.counts, r) + 1 ==
          old(Tally(TransitIn(ScopeOf(r)).counts, r)) +
          (if old(ScopeOf(r)) != InBucket(newId) && newId in old(buckets)
           then old(Tally(buckets[newId].transit.counts, r)) else 0)
    {
      var s := ScopeOf(r);
      if s.InBucket? {
        BucketOf(queues, routeToBucket, buckets, owner, s.id);
      }
      if newId in buckets {
        BucketOf(queues, routeToBucket, buckets, owner, newId);
      }
      var outcome := Release(r);
      if outcome.Fail? {
        result := EraseFailed(outcome.error);
      } else {
        assert s != InBucket(newId) && newId in old(buckets) ==>
          buckets[newId].transit.counts == old(buckets[newId].transit.counts);
        var generation := Rebind(r, newId, limit, remaining);
        result := Armed(newId, generation, resetAfter);
      }
    }

    /**
     Route `r`'s reply named bucket `id`: unless the route is already in that
     bucket, the bucket is created when missing and the route's mapping, queue
     and count in transit move there.
     */
    method Adopt(r: Route, id: string)
      requires Valid()
      modifies this, TransitIn(ScopeOf(r)), if id in buckets then {buckets[id].transit} else {}
      ensures Valid()
      ensures writing == old(writing) && routeToBucket == old(routeToBucket)[r := id]
      ensures id in buckets && buckets.Keys == old(buckets.Keys) + {id}
      ensures old(ScopeOf(r)) == InBucket(id) ==> queues == old(queues) && buckets == old(buckets)
      ensures old(ScopeOf(r)) != InBucket(id) ==>
        Relocated(old(queues), old(buckets), queues, buckets, old(ScopeOf(r)), r, id)
      ensures id in old(buckets) ==> buckets[id] == old(buckets[id]).(queues := buckets[id].queues)
      ensures id !in old(buckets) ==>
        && fresh(buckets[id].transit)
        && buckets[id] == Bucket(id, buckets[id].queues, buckets[id].transit, InitialLimit, InitialRemaining, 0)
      ensures var from := old(TransitIn(ScopeOf(r)));
        old(ScopeOf(r)) == InBucket(id) ==> from.counts == old(from.counts) && from.sum == old(from.sum)
      ensures var from, to := old(TransitIn(ScopeOf(r))), buckets[id].transit;
        old(ScopeOf(r)) != InBucket(id) ==>
        && from.counts == old(from.counts) - {r} && from.sum == old(from.sum)
        && to.sum == (if id in old(buckets) then old(buckets[id].transit.sum) else 0) + old(Tally(from.counts, r))
        && to.counts - {r} == (if id in old(buckets) then old(buckets[id].transit.counts) else map[]) - {r}
      ensures Tally(buckets[id].transit.counts, r) ==
        old(Tally(TransitIn(ScopeOf(r)).counts, r)) +
        (if old(ScopeOf(r)) != InBucket(id) && id in old(buckets) then old(Tally(buckets[id].transit.counts, r)) else 0)
    {
      var s := ScopeOf(r);
      if s.InBucket? {
        BucketOf(queues, routeToBucket, buckets, owner, s.id);
      }
      if id in buckets {
        BucketOf(queues, routeToBucket, buckets, owner, id);
      }
      if s.Uncategorized? || buckets[s.id].id != id {
        EnsureBucket(id);
        ghost var added := buckets[id];
        Settle(r, id);
        if id !in old(buckets) {
          RelocatedIntoNew(old(queues), old(buckets), queues, buckets, s, r, id, added);
        }
      } else {
        assert routeToBucket[r := id] == routeToBucket;
      }
    }

    /**
     The rest of the read continuation once the call has left transit: the
     route is adopted by bucket `id`, whose limits are then recorded and whose
     reset timer is replaced; the new timer's generation is returned.
     */
    method Rebind(r: Route, id: string, limit: nat, remaining: nat) returns (generation: nat)
      requires Valid()
      modifies this, TransitIn(ScopeOf(r)), if id in buckets then {buckets[id].transit} else {}
      ensures Valid()
      ensures writing == old(writing) && routeToBucket == old(routeToBucket)[r := id]
      ensures id in buckets && buckets.Keys == old(buckets.Keys) + {id}
      ensures QueueOf(buckets[id].queues, r) == old(QueueOf(QueuesIn(ScopeOf(r)), r))
      ensures buckets[id].limit == limit
      ensures buckets[id].remaining ==
        Min(if id in old(buckets) then old(buckets[id].remaining) else InitialRemaining, remaining)
      ensures buckets[id].timer == generation
      ensures generation == (if id in old(buckets) then old(buckets[id].timer) else 0) + 1
      ensures id in old(buckets) ==> buckets[id].transit == old(buckets[id].transit)
      ensures id !in old(buckets) ==> fresh(buckets[id].transit)
      ensures old(ScopeOf(r)) == InBucket(id) ==>
        && queues == old(queues)
        && buckets == old(buckets)[id := old(buckets[id]).(limit := limit,
                                                           remaining := buckets[id].remaining,
                                                           timer := generation)]
      ensures old(ScopeOf(r)) != InBucket(id) ==>
        Relocated(old(queues), old(buckets), queues, buckets, old(ScopeOf(r)), r, id)
      ensures var from := old(TransitIn(ScopeOf(r)));
        old(ScopeOf(r)) == InBucket(id) ==> from.counts == old(from.counts) && from.sum == old(from.sum)
      ensures var from, to := old(TransitIn(ScopeOf(r))), buckets[id].transit;
        old(ScopeOf(r)) != InBucket(id) ==>
        && from.counts == old(from.counts) - {r} && from.sum == old(from.sum)
        && to.sum == (if id in old(buckets) then old(buckets[id].transit.sum) else 0) + old(Tally(from.counts, r))
        && to.counts - {r} == (if id in old(buckets) then old(buckets[id].transit.counts) else map[]) - {r}
      ensures Tally(buckets[id].transit.counts, r) ==
        old(Tally(TransitIn(ScopeOf(r)).counts, r)) +
        (if old(ScopeOf(r)) != InBucket(id) && id in old(buckets) then old(Tally(buckets[id].transit.counts, r)) else 0)
    {
      var s := ScopeOf(r);
      if s.InBucket? {
        BucketOf(queues, routeToBucket, buckets, owner, s.id);
      }
      if id in buckets {
        BucketOf(queues, routeToBucket, buckets, owner, id);
      }
      Adopt(r, id);
      generation := Arm(id, limit, remaining);
    }

    /**
     Records the limit and remaining count a reply reported for bucket `id`
     and replaces its reset timer; the new timer's generation is returned.
     */
    method Arm(id: string, limit: nat, remaining: nat) returns (generation: nat)
      requires Valid() && id in buckets
      modifies this
      ensures Valid()
      ensures writing == old(writing) && queues == old(queues) && routeToBucket == old(routeToBucket)
      ensures generation == old(buckets[id].timer) + 1
      ensures buckets == old(buckets)[id := old(buckets[id]).(limit := limit,
                                                              remaining := Min(old(buckets[id].remaining), remaining),
                                                              timer := generation)]
    {
      var b := buckets[id];
      generation := b.timer + 1;
      RetimeBucket(queues, routeToBucket, buckets, owner, id, limit, Min(b.remaining, remaining), generation);
      buckets := buckets[id := b.(limit := limit, remaining := Min(b.remaining, remaining), timer := generation)];
    }

    /**
     A bucket's reset timer fires: only the timer of the current generation
     restores the bucket's remaining count to its limit; a replaced timer was
     cancelled and does nothing. Generations start at 1: generation 0 is a
     bucket that has no timer yet, which nothing can fire.
     */
    method TimerFire(id: string, generation: nat) returns (fired: bool)
      requires Valid() && generation > 0
      modifies this
      ensures Valid()
      ensures fired <==> id in old(buckets) && old(buckets[id].timer) == generation
      ensures writing == old(writing) && queues == old(queues) && routeToBucket == old(routeToBucket)
      ensures fired ==> buckets == old(buckets)[id := old(buckets[id]).(remaining := old(buckets[id].limit))]
      ensures !fired ==> buckets == old(buckets)
    {
      fired := id in buckets && buckets[id].timer == generation;
      if fired {
        var b := buckets[id];
        RetimeBucket(queues, routeToBucket, buckets, owner, id, b.limit, b.limit, b.timer);
        buckets := buckets[id := b.(remaining := b.limit)];
      }
    }
  }
}
