# Rate-limit plugin of discordpp, modelled in Dafny

`PluginRateLimit` (discordpp/plugin-ratelimit.hh) sits in front of the HTTP
transport of a Discord bot. It intercepts every call and files it under a
*route key*, the hash of a canonical string computed from the request path by
`getLimitedRoute`. It holds each call in a first-in first-out queue for that
route, and hands calls to the transport one at a time.

Calls start out *uncategorized*. Once a reply names the rate-limit bucket of a
route, the route is mapped to that bucket. Its queue and its count of calls in
transit then move there. The bucket's `limit` and `remaining` come from the
reply's headers. A reset timer restores `remaining` to `limit` when it fires.

A pass of `do_some_work` does the following:
- it skips the gateway route's bucket entirely;
- it insists that no other bucket has more calls in transit than it has remaining;
- it takes the oldest queue head among buckets with headroom;
- it lets an uncategorized call through only when that call is strictly older
  and no known bucket could overflow.

The project has seven modules:

- `CountedSets` (counted_set.dfy) is the `CountedSet<T>` class: a running
  total `sum` beside a map of positive counts.
  - `clear`, and therefore `move`, drop a key's entry without lowering `sum`.
  - As a result, only `sum >= Σ counts` is an invariant of every operation.
  - The exact equality `Exact()` survives `insert` and `erase` alone.
  - `MoveKeepsSourceTotal` exhibits the drift on a concrete sequence of calls.
- `Routes` (routes.dfy) covers `getLimitedRoute`, written as the `while` loop
  of the source (`LimitedRoute`). It is proved equal to a declarative
  `Canonical` string.
  - `find` and `substr` are modelled with `size_t` positions.
  - The second argument of `substr(last + 1, next - 1)` is a length. So every
    item after the first runs past the next `/`, and middle items are never
    alphabetic.
- `Queues` (queues.dfy) holds calls and per-route queues, with push, pop and
  `insert(extract(r))` migration stated over values.
- `Buckets` (buckets.dfy) holds the per-bucket record stored in `buckets`
  and the scope a route's calls belong to.
- `Selection` (selection.dfy) holds the two loops of `do_some_work` and its
  sending gate, as methods with loop invariants over a snapshot `View`.
- `Coherence` (coherence.dfy) is the invariant tying the scheduler's parts together:
  - a route's queue lives only in the scope its mapping names;
  - every mapped bucket exists;
  - each bucket names itself and owns its own transit counter;
  - lemmas show that each state change keeps the invariant.
- `RateLimit` (scheduler.dfy) is the `Scheduler` class. Its fields are
  `writing`, `queues`, `transit`, `routeToBucket` and `buckets`. Its methods
  are:
  - `Submit` (`call`);
  - `Pass` (`do_some_work`);
  - `OnWrite`, `OnRead` and `TimerFire`, the continuations and the reset-timer
    callback.

The event loop is replaced by explicit calls:
- a pass returns the call it would send instead of calling the transport;
- each bucket's timer is a generation number, bumped by every reply whose
  route was in transit (a reply whose erase throws arms nothing);
- `TimerFire(id, generation)` acts only for the current generation, because
  replacing the timer cancels the old one.

A reply moves only its own route: `OnRead` states that every other route's
queue, every other bucket and every counter other than the old scope's and the
new bucket's are left as they were. It also exposes what the `clear` bug does
to the scheduler: the old scope's total drops by the one call read but keeps
counting the route's other calls in transit after they moved, so the line-102
gate on the uncategorized total stays tighter from then on.

The failing `assert` on a bucket's transit count (line 70) is a `Halted`
outcome, not an invariant. A reply can lower `remaining` below the number of
calls already in transit.

## Model

| member | source | states |
|---|---|---|
| CountedSets.CountedSet.constructor | discordpp/plugin-ratelimit.hh:270-272 | a new set has total 0, no entries, and is valid and exact |
| CountedSets.CountedSet.Total | discordpp/plugin-ratelimit.hh:216-218 | the running total covers every stored count, and equals their sum while the set is exact |
| CountedSets.CountedSet.Count | discordpp/plugin-ratelimit.hh:220-225 | the count is positive exactly for stored keys, is the stored count (0 when absent) and never exceeds the total |
| CountedSets.CountedSet.IsEmpty | discordpp/plugin-ratelimit.hh:227-229 | an empty set stores no entry; for an exact set, empty iff no entry |
| CountedSets.CountedSet.Insert | discordpp/plugin-ratelimit.hh:231-241 | count 0 changes nothing; otherwise the total and the key's count rise by n, nothing else changes, and validity and exactness are kept |
| CountedSets.CountedSet.Erase | discordpp/plugin-ratelimit.hh:243-254 | fails with AbsentKey iff n > 0 and the key is absent, with ExceedsCount iff n exceeds the stored count, changing nothing; otherwise lowers total and count by n and drops an entry that reaches zero; keeps validity and exactness |
| CountedSets.CountedSet.Clear | discordpp/plugin-ratelimit.hh:256-260 | returns the old count, drops the key's entry and leaves the total unchanged |
| CountedSets.CountedSet.Move | discordpp/plugin-ratelimit.hh:262-264 | the key's entry leaves this set while its total stays; the other set's total and count of the key rise by the old count; this set is no longer exact when the count was positive; both stay valid |
| CountedSets.CountedSet.Copy | discordpp/plugin-ratelimit.hh:266-268 | this set is unchanged; the other's total and count of the key rise by this set's count |
| CountedSets.MoveKeepsSourceTotal | discordpp/plugin-ratelimit.hh:256-264 | after moving a key counted twice, the source reports total 2, count 0 and not empty |
| CountedSets.SumZero | discordpp/plugin-ratelimit.hh:227-229 | with positive counts, the sum of counts is 0 iff there are none |
| Routes.Find | discordpp/plugin-ratelimit.hh:298-299 | `find` returns npos or a position at or after the start |
| Routes.Substr | discordpp/plugin-ratelimit.hh:302 | `substr` yields at most `len` characters, fewer only at the end of the string |
| Routes.FindSlash | discordpp/plugin-ratelimit.hh:310 | `find('/', from)` is the first slash position at or after `from`, or npos |
| Routes.AppendItem | discordpp/plugin-ratelimit.hh:303-307 | one round writes a bar, then the item when it is all letters or follows a collection name |
| Routes.LimitedRoute | discordpp/plugin-ratelimit.hh:296-313 | the loop writes exactly the canonical string of the path: one bar and possibly the item, per '/' |
| Routes.ScanCanonical | discordpp/plugin-ratelimit.hh:298-311 | the scan started at the first '/' writes the canonical string |
| Routes.SlashCount | discordpp/plugin-ratelimit.hh:301-310 | the loop runs once per '/' of the path |
| Routes.OneBarPerSlash | discordpp/plugin-ratelimit.hh:301-303 | a path without "\|" gives a canonical string with exactly one "\|" per '/' |
| Routes.FirstItemIsSegment | discordpp/plugin-ratelimit.hh:298-302 | the first item is the whole first segment |
| Routes.LastItemIsTail | discordpp/plugin-ratelimit.hh:302 | the last item is everything after the last '/' |
| Routes.MiddleItemHasSlash | discordpp/plugin-ratelimit.hh:302 | every item strictly between the first and the last contains a '/', so it is neither alphabetic nor a collection name |
| Routes.MiddleItemKept | discordpp/plugin-ratelimit.hh:304-306 | a middle item is written iff it is the second item and the first is `channels`, `guilds` or `webhooks` |
| Routes.LastItemKept | discordpp/plugin-ratelimit.hh:304-306 | beyond two items, the last item is written iff it is all letters |
| Routes.TwoSegments | discordpp/plugin-ratelimit.hh:296-313 | the canonical string of `/a/b`: each item written when alphabetic, `b` also after a collection name |
| Routes.ThreeSegments | discordpp/plugin-ratelimit.hh:296-313 | the canonical string of `/a/id/b`; the middle item is `id`, its '/' and the start of `b`, written only after a collection name |
| Routes.CollectionIdWritten | discordpp/plugin-ratelimit.hh:305-306 | after a collection name the identifier appears whole at a fixed place, and the length of the string is fixed |
| Routes.CollectionIdKept | discordpp/plugin-ratelimit.hh:305-306 | after a collection name, different identifiers give different route keys |
| Routes.OtherIdElided | discordpp/plugin-ratelimit.hh:304-306 | after any other first segment, the identifier does not change the route key |
| Routes.ChannelRoutesDiffer | discordpp/plugin-ratelimit.hh:296-313 | `/channels/123/messages` and `/channels/456/messages` get different keys |
| Routes.UserRoutesAgree | discordpp/plugin-ratelimit.hh:296-313 | `/users/123/profile` and `/users/456/profile` get the same key |
| Queues.Push | discordpp/plugin-ratelimit.hh:47-50 | the route's queue grows by one, keeps its calls in order and ends with the new call; no other route changes |
| Queues.Pop | discordpp/plugin-ratelimit.hh:107-113 | the old queue is the removed head followed by what remains; the entry survives iff calls remain; no other route changes |
| Queues.Migrate | discordpp/plugin-ratelimit.hh:166 | the route's entry leaves the source; the target has the route iff either had it, keeps its own queue when it had one and otherwise receives the source's; no other route changes in either |
| Queues.PushAppends | discordpp/plugin-ratelimit.hh:47-50 | pushing appends the call to its route's queue, creating it when absent, and touches no other route |
| Queues.PushWellFormed | discordpp/plugin-ratelimit.hh:47-50 | pushing keeps every queue non-empty and holding only its own route's calls |
| Queues.HeadOf | discordpp/plugin-ratelimit.hh:74-75 | the head of a well-formed queue is a call of its route |
| Queues.PopRemovesHead | discordpp/plugin-ratelimit.hh:107-113 | popping removes exactly the head, erases the entry iff the queue had one call, and touches no other route |
| Queues.PopWellFormed | discordpp/plugin-ratelimit.hh:107-113 | popping leaves no empty queue behind |
| Queues.PushPopCommute | discordpp/plugin-ratelimit.hh:47-50 | first in, first out: pushing onto a non-empty queue does not change its head, and push and pop commute |
| Queues.PushPopFresh | discordpp/plugin-ratelimit.hh:47-50 | a call pushed onto an absent route is its head, and popping it restores the queues |
| Queues.MigrateMoves | discordpp/plugin-ratelimit.hh:166 | when the target has no entry for the route, the whole queue moves and nothing else changes |
| Queues.MigrateClashDrops | discordpp/plugin-ratelimit.hh:166 | when the target already has an entry, `insert` keeps it and the extracted calls are lost |
| Queues.MigrateWellFormed | discordpp/plugin-ratelimit.hh:166 | migration keeps both maps well formed |
| Selection.OldestIn | discordpp/plugin-ratelimit.hh:73-83 | the inner loop ends no later than every head it saw, and either keeps the old choice or picks a head strictly older than the old minimum |
| Selection.ScanBuckets | discordpp/plugin-ratelimit.hh:68-84 | the bucket loop either names a considered bucket with more in transit than remaining, or ends with every considered bucket covered, `min_remaining` equal to the minimum of `defaultLimit` and every considered headroom, and the oldest head of the buckets with headroom (gateway bucket skipped) |
| Selection.SkipBucket | discordpp/plugin-ratelimit.hh:69-72 | a skipped bucket, or one without headroom, adds no head |
| Selection.MinStep | discordpp/plugin-ratelimit.hh:71 | taking the minimum with one more headroom keeps `min_remaining` exact |
| Selection.TakeBucket | discordpp/plugin-ratelimit.hh:73-83 | the heads of one more bucket with headroom keep the best head the oldest so far |
| Selection.TakeUncategorized | discordpp/plugin-ratelimit.hh:87-97 | after the uncategorized loop the choice is an oldest head of all, and an uncategorized head wins only when strictly older than every bucket head |
| Selection.Choose | discordpp/plugin-ratelimit.hh:62-105 | the pass halts on an overdrawn bucket, or waits only when no bucket head wins and the uncategorized queues are empty or `min_remaining` is at most the uncategorized transit total, or takes an oldest head |
| Selection.OverdrawnHalts | discordpp/plugin-ratelimit.hh:70 | while any considered bucket has more in transit than remaining, a pass sends nothing |
| Selection.MinUnique | discordpp/plugin-ratelimit.hh:66-71 | `min_remaining` does not depend on the order buckets are visited in |
| Selection.OldestTie | discordpp/plugin-ratelimit.hh:73-97 | every choice a pass may make has the same creation time, whatever the iteration order |
| Coherence.BucketQueuesWellFormed | discordpp/plugin-ratelimit.hh:74 | every bucket's queues are non-empty and hold their own route's calls |
| Coherence.QueuedOnce | discordpp/plugin-ratelimit.hh:47-50 | a route is queued only in the scope its mapping names |
| Coherence.CountersDistinct | discordpp/plugin-ratelimit.hh:279 | two buckets never share a transit counter |
| Coherence.RetimeBucket | discordpp/plugin-ratelimit.hh:173-176 | changing a bucket's limit, remaining count or timer keeps the invariant |
| Coherence.PushCoherent | discordpp/plugin-ratelimit.hh:47-50 | queuing a call in the scope its route maps to keeps the invariant |
| Coherence.PopCoherent | discordpp/plugin-ratelimit.hh:107-113 | the chosen queue is non-empty, and dequeuing its head keeps the invariant |
| Coherence.AddBucket | discordpp/plugin-ratelimit.hh:161 | adding an empty bucket with a fresh counter keeps the invariant |
| Coherence.MigrateFromUncategorized | discordpp/plugin-ratelimit.hh:154-166 | an unmapped route's target bucket has no queue for it, and moving the queue there with the new mapping keeps the invariant |
| Coherence.RelocateFromUncategorized | discordpp/plugin-ratelimit.hh:166 | moving an unmapped route's queue into a bucket without one for it moves only that route |
| Coherence.RelocateBetweenBuckets | discordpp/plugin-ratelimit.hh:166 | moving a route's queue between two buckets moves only that route |
| Coherence.RelocatedKeepsOthers | discordpp/plugin-ratelimit.hh:154-171 | after a relocation every other route's queue is the same in every scope, and the moved route is left in neither the uncategorized queues nor its old bucket |
| Coherence.MigrateBetweenBuckets | discordpp/plugin-ratelimit.hh:154-166 | a route moving between buckets never meets a queue of its own in the target, and the move keeps the invariant |
| RateLimit.Scheduler.constructor | discordpp/plugin-ratelimit.hh:286-295 | the scheduler starts not writing, with no queues, mappings, buckets or calls in transit, owns a new uncategorized transit counter, and the gateway route key is the canonical string of `/gateway/bot` |
| RateLimit.Scheduler.Submit | discordpp/plugin-ratelimit.hh:36-50 | the call gets the canonical key of its path and joins the tail of its route's queue, in the mapped bucket or the uncategorized queues; nothing else changes |
| RateLimit.Scheduler.Enqueue | discordpp/plugin-ratelimit.hh:47-50 | pushes the call in the scope its route maps to, keeping the invariant |
| RateLimit.Scheduler.Dequeue | discordpp/plugin-ratelimit.hh:107-113 | pops the head of the route's queue in the given scope, erasing an emptied entry, keeping the invariant |
| RateLimit.Scheduler.Commit | discordpp/plugin-ratelimit.hh:99-113 | waiting clears `writing` and changes no queue; halting keeps `writing` set; taking dequeues exactly the chosen head |
| RateLimit.Scheduler.Pass | discordpp/plugin-ratelimit.hh:57-113 | a pass while writing changes nothing; otherwise its result is a choice `Choose` allows on the state at its start, an idle pass leaves `writing` clear and every queue unchanged, and a sent call is removed from the head of its queue |
| RateLimit.Scheduler.OnWrite | discordpp/plugin-ratelimit.hh:127-132 | the route's count in transit in its current scope rises by one, `writing` is cleared, nothing else changes |
| RateLimit.Scheduler.Release | discordpp/plugin-ratelimit.hh:144-152 | erasing the route from its scope's transit fails (AbsentKey) iff it is not there, changing nothing; otherwise the total and the route's count drop by one |
| RateLimit.Scheduler.EnsureBucket | discordpp/plugin-ratelimit.hh:161 | `emplace`: a missing bucket is added empty with limit 5, remaining 4 and a fresh counter; an existing one is untouched |
| RateLimit.Scheduler.Remap | discordpp/plugin-ratelimit.hh:159-166 | the route is mapped to the bucket, and its whole queue moves there from its old scope (the target never has one) |
| RateLimit.Scheduler.MoveTransit | discordpp/plugin-ratelimit.hh:167 | the route's count in transit moves from the old scope to the bucket, whose total rises by it; the old scope keeps its total |
| RateLimit.Scheduler.Settle | discordpp/plugin-ratelimit.hh:157-167 | the route's mapping and queue move to the named bucket and nothing else moves; the bucket's other fields stay; the old scope loses the route's count but keeps its total; the bucket's total and count of the route rise by that count; no other count changes; no other counter is touched |
| RateLimit.Scheduler.Adopt | discordpp/plugin-ratelimit.hh:154-171 | a route already in the named bucket changes nothing; otherwise the bucket is created when missing (limit 5, remaining 4, a fresh counter) and only the route's mapping, queue and transit count move there, with the totals as in Settle; only the two counters can change |
| RateLimit.Scheduler.Rebind | discordpp/plugin-ratelimit.hh:154-181 | the adoption followed by recording the limits and replacing the timer, with the same frame as Adopt |
| RateLimit.Scheduler.OnRead | discordpp/plugin-ratelimit.hh:143-193 | the erase fails iff the route is not in transit, and then nothing changes; otherwise the route ends mapped to the named bucket with its queue and nothing else moves; every mapped bucket exists; `limit` is the reported one, `remaining` the minimum of the old and reported, and the timer's generation is bumped; the old scope's total drops by one; when the route moves, the old scope loses the route's count and the new bucket's total rises by the count moved; no other count changes; only those two counters can change |
| RateLimit.Scheduler.Arm | discordpp/plugin-ratelimit.hh:173-181 | records the limit and the lowered remaining count and replaces the bucket's timer by a new generation |
| RateLimit.Scheduler.TimerFire | discordpp/plugin-ratelimit.hh:181-191 | for a timer of generation 1 or more (0 marks a bucket with no timer yet), it fires iff it is the bucket's current generation, and then sets `remaining` to `limit`; a replaced timer changes nothing |

## Left out

- `std::hash` (line 312): route keys are the canonical strings themselves, so two paths share a key exactly when their canonical strings are equal. Hash collisions are not modelled.
- The order of `std::map` iteration: the loops visit keys in any order. Among heads with the same creation time, the model does not say which one is chosen (`Selection.OldestTie` shows they agree on the time).
- `boost::asio` and `aioc->post`: the event loop is replaced by explicit calls to `Pass`, `OnWrite`, `OnRead` and `TimerFire`. The timer object becomes a generation number, and its expiry delay is returned as `seconds`.
- `BASE::call` and the transport: `Pass` returns the chosen call instead of sending it.
- The user `onWrite` and `onRead` callbacks, and `shared_ptr` lifetimes: opaque code the scheduler only forwards.
- JSON header access and `std::stoi` (lines 155, 173-179): headers arrive as a string id and natural numbers. Negative or malformed header values are not modelled.
- `std::time`: `created` is a parameter.
- Logging and `std::cerr` output.
- `int` and `size_t` widths of `limit`, `remaining` and counts: these are unbounded naturals. `find` and `substr` positions are the only 64-bit quantities modelled.
- `defaultLimit` is a public member that callers could change; it is a constant 5 here.
- Builds with `NDEBUG`: the line-70 assertion is taken to be enabled, as `Halted`, and the assertions on empty queues (lines 74, 88) are proved never to fail.
- Paths are taken to be one character per byte (ASCII). `std::string` positions and the length `next - 1` count bytes, while the model counts characters. So a middle item that runs into the next segment groups non-ASCII paths differently from the source: `/channels/1/éééééééé` and `/channels/1/ééééabcd` share a key in the source but not in the model.
- RateLimit.Scheduler.Adopt: the bucket is created before the route is remapped, while the source assigns `route_to_bucket` first (lines 159-161). The end state is the same.
- RateLimit.Scheduler.OnRead: the relation between a route's transit count and the scope its mapping names is not an invariant of the model. Only the counts' validity and their ownership by distinct scopes are kept.
- RateLimit.Scheduler.Submit: requires `created` below the largest `time_t`, which a clock reading never reaches. A call stamped with that value could never be chosen by the strict `<` comparisons. It also requires the path to be shorter than `npos`.
