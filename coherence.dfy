/**
 The invariant that ties the scheduler's parts together, stated over values.

 A route's calls wait in exactly one scope: the bucket the route is mapped to,
 or the uncategorized queues when it is mapped to none. Every bucket is stored
 under its own id and owns a transit counter that no other scope shares. The
 lemmas show that queuing, dequeuing, adding a bucket, updating a bucket's
 limits and moving a route to a new bucket keep the invariant, and in
 particular that moving a route never meets a queue already waiting for it in
 the target bucket.
 */
module Coherence {
  import opened CountedSets
  import opened Queues
  import opened Buckets

  /** The scope each transit counter belongs to. */
  type Owners = map<CountedSet<Route>, Scope>

  /** Every route queued in `q` is mapped to bucket `id`. */
  ghost predicate Placed(q: QueueByRoute, routeToBucket: map<Route, string>, id: string)
  {
    forall r :: r in q ==> r in routeToBucket && routeToBucket[r] == id
  }

  /** No route queued in `q` is mapped to a bucket. */
  ghost predicate Unmapped(q: QueueByRoute, routeToBucket: map<Route, string>)
  {
    forall r :: r in q ==> r !in routeToBucket
  }

  /** Bucket `b`, stored under `id`, names itself, owns its counter and queues only routes mapped to it. */
  ghost predicate BucketCoherent(b: Bucket, id: string, routeToBucket: map<Route, string>, owner: Owners)
  {
    && b.id == id
    && b.transit in owner && owner[b.transit] == InBucket(id)
    && WellFormed(b.queues)
    && Placed(b.queues, routeToBucket, id)
  }

  /**
   The uncategorized queues hold only unmapped routes, every mapped bucket
   exists, and every bucket is coherent.
   */
  ghost predicate Coherent(queues: QueueByRoute, routeToBucket: map<Route, string>,
                           buckets: map<string, Bucket>, owner: Owners)
  {
    && WellFormed(queues)
    && Unmapped(queues, routeToBucket)
    && (forall r :: r in routeToBucket ==> routeToBucket[r] in buckets)
    && (forall id {:trigger BucketCoherent(buckets[id], id, routeToBucket, owner)} ::
          id in buckets ==> BucketCoherent(buckets[id], id, routeToBucket, owner))
  }

  /** Each stored bucket is coherent on its own. */
  lemma BucketOf(queues: QueueByRoute, routeToBucket: map<Route, string>,
                 buckets: map<string, Bucket>, owner: Owners, id: string)
    requires Coherent(queues, routeToBucket, buckets, owner) && id in buckets
    ensures BucketCoherent(buckets[id], id, routeToBucket, owner)
  {
  }

  /** The queues of every bucket are well formed. */
  lemma BucketQueuesWellFormed(queues: QueueByRoute, routeToBucket: map<Route, string>,
                               buckets: map<string, Bucket>, owner: Owners)
    requires Coherent(queues, routeToBucket, buckets, owner)
    ensures forall id :: id in buckets ==> WellFormed(buckets[id].queues)
  {
    forall id | id in buckets
      ensures WellFormed(buckets[id].queues)
    {
      BucketOf(queues, routeToBucket, buckets, owner, id);
    }
  }

  /** A route is queued in at most one scope: the one its mapping names. */
  lemma QueuedOnce(queues: QueueByRoute, routeToBucket: map<Route, string>,
                   buckets: map<string, Bucket>, owner: Owners, r: Route)
    requires Coherent(queues, routeToBucket, buckets, owner)
    ensures r in queues ==> r !in routeToBucket
    ensures forall id :: id in buckets && r in buckets[id].queues ==> r in routeToBucket && routeToBucket[r] == id
  {
    forall id | id in buckets && r in buckets[id].queues
      ensures r in routeToBucket && routeToBucket[r] == id
    {
      assert BucketCoherent(buckets[id], id, routeToBucket, owner);
    }
  }

  /** Two scopes never share a transit counter. */
  lemma CountersDistinct(queues: QueueByRoute, routeToBucket: map<Route, string>,
                         buckets: map<string, Bucket>, owner: Owners, id: string, id': string)
    requires Coherent(queues, routeToBucket, buckets, owner)
    requires id in buckets && id' in buckets && id != id'
    ensures buckets[id].transit != buckets[id'].transit
  {
    assert BucketCoherent(buckets[id], id, routeToBucket, owner);
    assert BucketCoherent(buckets[id'], id', routeToBucket, owner);
  }

  /** Replacing one bucket by a coherent bucket keeps the whole coherent. */
  lemma ReplaceBucket(queues: QueueByRoute, routeToBucket: map<Route, string>,
                      buckets: map<string, Bucket>, owner: Owners, id: string, b: Bucket)
    requires Coherent(queues, routeToBucket, buckets, owner)
    requires id in buckets && BucketCoherent(b, id, routeToBucket, owner)
    ensures Coherent(queues, routeToBucket, buckets[id := b], owner)
  {
    var bs := buckets[id := b];
    forall k | k in bs
      ensures BucketCoherent(bs[k], k, routeToBucket, owner)
    {
      if k != id {
        assert bs[k] == buckets[k];
      }
    }
  }

  /** A bucket whose limits or timer change, and nothing else, stays coherent. */
  lemma RetimeBucket(queues: QueueByRoute, routeToBucket: map<Route, string>,
                     buckets: map<string, Bucket>, owner: Owners, id: string, limit: nat, remaining: nat, timer: nat)
    requires Coherent(queues, routeToBucket, buckets, owner) && id in buckets
    ensures Coherent(queues, routeToBucket,
                     buckets[id := buckets[id].(limit := limit, remaining := remaining, timer := timer)], owner)
  {
    assert BucketCoherent(buckets[id], id, routeToBucket, owner);
    ReplaceBucket(queues, routeToBucket, buckets, owner, id,
                  buckets[id].(limit := limit, remaining := remaining, timer := timer));
  }

  /** Queuing a call in the scope its route maps to keeps the parts coherent. */
  lemma PushCoherent(queues: QueueByRoute, routeToBucket: map<Route, string>,
                     buckets: map<string, Bucket>, owner: Owners, c: Call)
    requires Coherent(queues, routeToBucket, buckets, owner) && c.created < TimeMax
    ensures c.route in routeToBucket ==>
      var b := routeToBucket[c.route];
      Coherent(queues, routeToBucket, buckets[b := buckets[b].(queues := Push(buckets[b].queues, c))], owner)
    ensures c.route !in routeToBucket ==> Coherent(Push(queues, c), routeToBucket, buckets, owner)
  {
    if c.route in routeToBucket {
      var b := routeToBucket[c.route];
      var q := buckets[b].queues;
      assert BucketCoherent(buckets[b], b, routeToBucket, owner);
      PushWellFormed(q, c);
      assert Push(q, c).Keys == q.Keys + {c.route};
      ReplaceBucket(queues, routeToBucket, buckets, owner, b, buckets[b].(queues := Push(q, c)));
    } else {
      PushWellFormed(queues, c);
      assert Push(queues, c).Keys == queues.Keys + {c.route};
    }
  }

  /** Dequeuing the head of a route's queue, in the scope it lives in, keeps the parts coherent. */
  lemma PopCoherent(queues: QueueByRoute, routeToBucket: map<Route, string>,
                    buckets: map<string, Bucket>, owner: Owners, s: Scope, r: Route)
    requires Coherent(queues, routeToBucket, buckets, owner)
    requires s.Uncategorized? ==> r in queues
    requires s.InBucket? ==> s.id in buckets && r in buckets[s.id].queues
    ensures s.Uncategorized? ==> queues[r] != []
    ensures s.InBucket? ==> buckets[s.id].queues[r] != []
    ensures s.Uncategorized? ==> Coherent(Pop(queues, r), routeToBucket, buckets, owner)
    ensures s.InBucket? ==>
      Coherent(queues, routeToBucket, buckets[s.id := buckets[s.id].(queues := Pop(buckets[s.id].queues, r))], owner)
  {
    if s.Uncategorized? {
      PopWellFormed(queues, r);
      assert Pop(queues, r).Keys <= queues.Keys;
    } else {
      var q := buckets[s.id].queues;
      assert BucketCoherent(buckets[s.id], s.id, routeToBucket, owner);
      PopWellFormed(q, r);
      assert Pop(q, r).Keys <= q.Keys;
      ReplaceBucket(queues, routeToBucket, buckets, owner, s.id, buckets[s.id].(queues := Pop(q, r)));
    }
  }

  /** `buckets.emplace(id, Bucket{id})` with a counter no scope owns yet keeps the parts coherent. */
  lemma AddBucket(queues: QueueByRoute, routeToBucket: map<Route, string>,
                  buckets: map<string, Bucket>, owner: Owners, b: Bucket)
    requires Coherent(queues, routeToBucket, buckets, owner)
    requires b.id !in buckets && b.transit !in owner && b.queues == map[]
    ensures Coherent(queues, routeToBucket, buckets[b.id := b], owner[b.transit := InBucket(b.id)])
  {
    var bs := buckets[b.id := b];
    var owner' := owner[b.transit := InBucket(b.id)];
    forall k | k in bs
      ensures BucketCoherent(bs[k], k, routeToBucket, owner')
    {
      if k != b.id {
        assert BucketCoherent(buckets[k], k, routeToBucket, owner);
        assert buckets[k].transit != b.transit;
      }
    }
  }

  /** Removing route `r` from a placed scope and mapping it elsewhere keeps the rest placed. */
  lemma PlacedRemap(q: QueueByRoute, routeToBucket: map<Route, string>, k: string, r: Route, id: string)
    requires Placed(q, routeToBucket, k)
    ensures Placed(q - {r}, routeToBucket[r := id], k)
    ensures r !in q ==> Placed(q, routeToBucket[r := id], k)
  {
  }

  /** The bucket receiving route `r`'s queue is placed once `r` is mapped to it. */
  lemma PlacedReceive(src: QueueByRoute, dst: QueueByRoute, routeToBucket: map<Route, string>, r: Route, id: string)
    requires Placed(dst, routeToBucket, id)
    ensures Placed(Migrate(src, dst, r).1, routeToBucket[r := id], id)
  {
  }

  /**
   Moving route `r`'s queue from the uncategorized scope into bucket `id`
   and mapping `r` to `id` keeps the parts coherent, and the bucket had no
   queue for `r`, so nothing is dropped.
   */
  lemma MigrateFromUncategorized(queues: QueueByRoute, routeToBucket: map<Route, string>,
                                 buckets: map<string, Bucket>, owner: Owners, r: Route, id: string)
    requires Coherent(queues, routeToBucket, buckets, owner)
    requires id in buckets && r !in routeToBucket
    ensures r !in buckets[id].queues
    ensures var src := Migrate(queues, buckets[id].queues, r).0;
            var dst := Migrate(queues, buckets[id].queues, r).1;
      Coherent(src, routeToBucket[r := id], buckets[id := buckets[id].(queues := dst)], owner)
  {
    var src := Migrate(queues, buckets[id].queues, r).0;
    var dst := Migrate(queues, buckets[id].queues, r).1;
    var rtb := routeToBucket[r := id];
    var bs := buckets[id := buckets[id].(queues := dst)];
    assert BucketCoherent(buckets[id], id, routeToBucket, owner);
    MigrateWellFormed(queues, buckets[id].queues, r);
    PlacedReceive(queues, buckets[id].queues, routeToBucket, r, id);
    forall k | k in bs
      ensures BucketCoherent(bs[k], k, rtb, owner)
    {
      if k != id {
        assert bs[k] == buckets[k];
        assert BucketCoherent(buckets[k], k, routeToBucket, owner);
        PlacedRemap(buckets[k].queues, routeToBucket, k, r, id);
      }
    }
  }

  /**
   Moving route `r`'s queue from the bucket it is mapped to into another
   bucket `id` and mapping `r` to `id` keeps the parts coherent, and the
   target had no queue for `r`, so nothing is dropped.
   */
  lemma MigrateBetweenBuckets(queues: QueueByRoute, routeToBucket: map<Route, string>,
                              buckets: map<string, Bucket>, owner: Owners, r: Route, id: string)
    requires Coherent(queues, routeToBucket, buckets, owner)
    requires id in buckets && r in routeToBucket && routeToBucket[r] != id
    ensures r !in buckets[id].queues
    ensures var from := routeToBucket[r];
      var src := Migrate(buckets[from].queues, buckets[id].queues, r).0;
      var dst := Migrate(buckets[from].queues, buckets[id].queues, r).1;
      Coherent(queues, routeToBucket[r := id],
               buckets[from := buckets[from].(queues := src)][id := buckets[id].(queues := dst)], owner)
  {
    var from := routeToBucket[r];
    var src := Migrate(buckets[from].queues, buckets[id].queues, r).0;
    var dst := Migrate(buckets[from].queues, buckets[id].queues, r).1;
    var rtb := routeToBucket[r := id];
    var bs := buckets[from := buckets[from].(queues := src)][id := buckets[id].(queues := dst)];
    assert BucketCoherent(buckets[id], id, routeToBucket, owner);
    assert BucketCoherent(buckets[from], from, routeToBucket, owner);
    MigrateWellFormed(buckets[from].queues, buckets[id].queues, r);
    PlacedReceive(buckets[from].queues, buckets[id].queues, routeToBucket, r, id);
    PlacedRemap(buckets[from].queues, routeToBucket, from, r, id);
    forall k | k in bs
      ensures BucketCoherent(bs[k], k, rtb, owner)
    {
      if k != id && k != from {
        assert bs[k] == buckets[k];
        assert BucketCoherent(buckets[k], k, routeToBucket, owner);
        PlacedRemap(buckets[k].queues, routeToBucket, k, r, id);
      }
    }
  }

  /**
   Route `r`'s queue left scope `s` for bucket `id`, which is not `s`, and
   nothing else moved: the source scope lost only the entry of `r`, the
   target received it and kept its other routes, and every other bucket is
   as it was. The target's fields other than its queues are stated by the
   operations that perform the move.
   */
  ghost predicate Relocated(q0: QueueByRoute, b0: map<string, Bucket>, q1: QueueByRoute, b1: map<string, Bucket>,
                            s: Scope, r: Route, id: string)
  {
    && s != InBucket(id)
    && (s.Uncategorized? ==> q1 == q0 - {r})
    && (s.InBucket? ==>
          && q1 == q0
          && s.id in b0 && s.id in b1
          && b1[s.id] == b0[s.id].(queues := b0[s.id].queues - {r}))
    && id in b1 && b1.Keys == b0.Keys + {id}
    && b1[id].queues - {r} == (if id in b0 then b0[id].queues - {r} else map[])
    && QueueOf(b1[id].queues, r) == QueueOf(if s.Uncategorized? then q0 else b0[s.id].queues, r)
    && (forall k :: k in b0 && k != id && s != InBucket(k) ==> b1[k] == b0[k])
  }

  /**
   A relocation changes the queue of no other route in any scope, and the
   queue of `r` is found afterwards in the target and nowhere else.
   */
  lemma RelocatedKeepsOthers(q0: QueueByRoute, b0: map<string, Bucket>, q1: QueueByRoute, b1: map<string, Bucket>,
                             s: Scope, r: Route, id: string, r': Route)
    requires Relocated(q0, b0, q1, b1, s, r, id)
    ensures r' != r ==> QueueOf(q1, r') == QueueOf(q0, r')
    ensures r' != r ==> forall k :: k in b0 ==> QueueOf(b1[k].queues, r') == QueueOf(b0[k].queues, r')
    ensures r' != r && id !in b0 ==> QueueOf(b1[id].queues, r') == []
    ensures r !in q1 || s.InBucket?
    ensures forall k :: k in b1 && k != id && s == InBucket(k) ==> r !in b1[k].queues
  {
    if r' != r {
      forall k | k in b0
        ensures QueueOf(b1[k].queues, r') == QueueOf(b0[k].queues, r')
      {
        if k == id {
          assert r' in b1[id].queues <==> r' in b1[id].queues - {r};
          assert r' in b0[id].queues <==> r' in b0[id].queues - {r};
          if r' in b1[id].queues {
            assert b1[id].queues[r'] == (b1[id].queues - {r})[r'];
          }
          if r' in b0[id].queues {
            assert b0[id].queues[r'] == (b0[id].queues - {r})[r'];
          }
        }
      }
      if id !in b0 {
        assert r' !in b1[id].queues - {r};
      }
    }
  }

  /** Moving an unmapped route's queue into a bucket without one for it is a relocation. */
  lemma RelocateFromUncategorized(queues: QueueByRoute, buckets: map<string, Bucket>, r: Route, id: string)
    requires id in buckets && r !in buckets[id].queues
    ensures var src := Migrate(queues, buckets[id].queues, r).0;
            var dst := Migrate(queues, buckets[id].queues, r).1;
      Relocated(queues, buckets, src, buckets[id := buckets[id].(queues := dst)], Uncategorized, r, id)
  {
    var dst := Migrate(queues, buckets[id].queues, r).1;
    MigrateMoves(queues, buckets[id].queues, r, r);
    assert dst - {r} == buckets[id].queues - {r};
  }

  /** Moving a route's queue from bucket `from` into another bucket without one for it is a relocation. */
  lemma RelocateBetweenBuckets(queues: QueueByRoute, buckets: map<string, Bucket>, r: Route, from: string, id: string)
    requires id in buckets && from in buckets && from != id && r !in buckets[id].queues
    ensures var src := Migrate(buckets[from].queues, buckets[id].queues, r).0;
            var dst := Migrate(buckets[from].queues, buckets[id].queues, r).1;
      Relocated(queues, buckets, queues,
                buckets[from := buckets[from].(queues := src)][id := buckets[id].(queues := dst)],
                InBucket(from), r, id)
  {
    var dst := Migrate(buckets[from].queues, buckets[id].queues, r).1;
    MigrateMoves(buckets[from].queues, buckets[id].queues, r, r);
    assert dst - {r} == buckets[id].queues - {r};
  }

  /** A relocation into a bucket just added empty is a relocation into a new bucket. */
  lemma RelocatedIntoNew(q0: QueueByRoute, b0: map<string, Bucket>, q1: QueueByRoute, b1: map<string, Bucket>,
                         s: Scope, r: Route, id: string, b: Bucket)
    requires id !in b0 && b.queues == map[]
    requires Relocated(q0, b0[id := b], q1, b1, s, r, id)
    ensures Relocated(q0, b0, q1, b1, s, r, id)
  {
    if s.InBucket? {
      assert b0[id := b][s.id] == b0[s.id];
    }
    forall k | k in b0 && k != id && s != InBucket(k)
      ensures b1[k] == b0[k]
    {
      assert b0[id := b][k] == b0[k];
    }
  }
}
