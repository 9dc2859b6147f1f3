/**
 Calls waiting to be sent, kept per route in first-in first-out order.

 A scope of the scheduler (the uncategorized scope or one bucket) holds a
 `QueueByRoute`: a map from route key to the queue of calls for that route.
 `call` pushes onto the tail of a route's queue, creating the queue when the
 route has none; `do_some_work` pops the head and erases the route's entry
 once its queue is empty; a bucket migration extracts a route's entry from
 one map and inserts it into another with `std::map::insert`, which keeps
 the target's entry when the key is already there.
 */
module Queues {

  /** The route key of a call; the canonical string stands for its hash. */
  type Route = string

  /** `std::numeric_limits<std::time_t>::max()` for a 64-bit `time_t`. */
  const TimeMax: int := 0x7FFF_FFFF_FFFF_FFFF

  /**
   An intercepted call: its route key, its creation time in seconds, and an
   identity standing for the request, its body and its callbacks.
   */
  datatype Call = Call(route: Route, created: int, id: nat)

  type QueueByRoute = map<Route, seq<Call>>

  /**
   Every queue in the map is non-empty, holds only calls for its own route,
   and holds only calls created before the end of time.
   */
  predicate WellFormed(q: QueueByRoute)
  {
    forall r :: r in q ==>
      && q[r] != []
      && forall i :: 0 <= i < |q[r]| ==> q[r][i].route == r && q[r][i].created < TimeMax
  }

  /** The queue of route `r`, empty when the map has no entry for it (`operator[]`). */
  function QueueOf(q: QueueByRoute, r: Route): seq<Call>
  {
    if r in q then q[r] else []
  }

  /** `q[c.route].push(c)`. */
  function Push(q: QueueByRoute, c: Call): (p: QueueByRoute)
    ensures c.route in p && |p[c.route]| == |QueueOf(q, c.route)| + 1
    ensures p[c.route][..|QueueOf(q, c.route)|] == QueueOf(q, c.route) && p[c.route][|QueueOf(q, c.route)|] == c
    ensures p - {c.route} == q - {c.route}
  {
    q[c.route := QueueOf(q, c.route) + [c]]
  }

  /** `q.find(r)->second.pop()`, then `q.erase(r)` when the queue became empty. */
  function Pop(q: QueueByRoute, r: Route): (p: QueueByRoute)
    requires r in q && q[r] != []
    ensures r in p <==> |q[r]| > 1
    ensures r in p ==> [q[r][0]] + p[r] == q[r]
    ensures p - {r} == q - {r}
  {
    if |q[r]| == 1 then q - {r} else q[r := q[r][1..]]
  }

  /**
   `dst.insert(src.extract(r))`: the entry of `r` leaves `src`, and enters `dst`
   only when `dst` has no entry for `r` yet.
   */
  function Migrate(src: QueueByRoute, dst: QueueByRoute, r: Route): (m: (QueueByRoute, QueueByRoute))
    ensures r !in m.0 && m.0 - {r} == src - {r}
    ensures r in m.1 <==> r in src || r in dst
    ensures QueueOf(m.1, r) == if r in dst then dst[r] else QueueOf(src, r)
    ensures m.1 - {r} == dst - {r}
  {
    (src - {r}, if r in src && r !in dst then dst[r := src[r]] else dst)
  }

  /** Pushing appends the call to the tail of its route's queue and touches no other route. */
  lemma PushAppends(q: QueueByRoute, c: Call, r: Route)
    ensures QueueOf(Push(q, c), r) == if r == c.route then QueueOf(q, r) + [c] else QueueOf(q, r)
    ensures Push(q, c).Keys == q.Keys + {c.route}
  {
  }

  /** Pushing a call of a valid creation time keeps the queues well formed. */
  lemma PushWellFormed(q: QueueByRoute, c: Call)
    requires WellFormed(q) && c.created < TimeMax
    ensures WellFormed(Push(q, c))
  {
    var s := QueueOf(q, c.route) + [c];
    assert forall i :: 0 <= i < |s| ==> s[i] == if i < |QueueOf(q, c.route)| then QueueOf(q, c.route)[i] else c;
  }

  /** The head of a well-formed queue is a call of its route created before the end of time. */
  lemma HeadOf(q: QueueByRoute, r: Route)
    requires WellFormed(q) && r in q
    ensures q[r] != [] && q[r][0].route == r && q[r][0].created < TimeMax
  {
  }

  /** Popping removes the head of the route's queue, erases an emptied entry and touches no other route. */
  lemma PopRemovesHead(q: QueueByRoute, r: Route, r': Route)
    requires r in q && q[r] != []
    ensures QueueOf(Pop(q, r), r') == if r' == r then q[r][1..] else QueueOf(q, r')
    ensures r in Pop(q, r) <==> |q[r]| > 1
    ensures Pop(q, r).Keys <= q.Keys
  {
  }

  /** Popping keeps the queues well formed: no empty queue is left behind. */
  lemma PopWellFormed(q: QueueByRoute, r: Route)
    requires WellFormed(q) && r in q
    ensures WellFormed(Pop(q, r))
  {
    if |q[r]| > 1 {
      var s := q[r][1..];
      assert forall i :: 0 <= i < |s| ==> s[i] == q[r][i + 1];
    }
  }

  /**
   First in, first out: pushing onto a non-empty queue and popping it gives the
   same queues as popping first and pushing after, and the head is unchanged.
   */
  lemma PushPopCommute(q: QueueByRoute, c: Call, r: Route)
    requires r in q && q[r] != []
    ensures Push(q, c)[r] != [] && Push(q, c)[r][0] == q[r][0]
    ensures Pop(Push(q, c), r) == Push(Pop(q, r), c)
  {
    if r == c.route {
      assert (q[r] + [c])[1..] == q[r][1..] + [c];
    }
  }

  /** The call pushed onto an absent route's queue is its head, and popping it restores the queues. */
  lemma PushPopFresh(q: QueueByRoute, c: Call)
    requires c.route !in q
    ensures Push(q, c)[c.route] == [c]
    ensures Pop(Push(q, c), c.route) == q
  {
    assert Push(q, c) - {c.route} == q;
  }

  /** Without an entry for `r`, the destination receives the source's whole queue of `r`. */
  lemma MigrateMoves(src: QueueByRoute, dst: QueueByRoute, r: Route, r': Route)
    requires r !in dst
    ensures QueueOf(Migrate(src, dst, r).1, r') == if r' == r then QueueOf(src, r) else QueueOf(dst, r')
    ensures QueueOf(Migrate(src, dst, r).0, r') == if r' == r then [] else QueueOf(src, r')
  {
  }

  /** With an entry for `r` already in the destination, the calls extracted from the source are lost. */
  lemma MigrateClashDrops(src: QueueByRoute, dst: QueueByRoute, r: Route)
    requires r in src && r in dst
    ensures Migrate(src, dst, r).1 == dst
    ensures r !in Migrate(src, dst, r).0
  {
  }

  /** Migration keeps both maps well formed. */
  lemma MigrateWellFormed(src: QueueByRoute, dst: QueueByRoute, r: Route)
    requires WellFormed(src) && WellFormed(dst)
    ensures WellFormed(Migrate(src, dst, r).0) && WellFormed(Migrate(src, dst, r).1)
  {
  }
}
