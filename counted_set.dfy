/**
 A multiset that stores a positive count per key together with a running
 total, used by the rate limiter to account for calls in transit.

 The running total `sum` is kept separately from the per-key counts. `Insert`
 and `Erase` move both together, but `Clear` (and `Move`, which calls it) drops
 a key's entry without lowering `sum`. The class invariant therefore only
 promises `sum >= Sum(counts)`; the exact equality `Exact()` is preserved by
 `Insert` and `Erase` alone.
 */
module CountedSets {

  /** Sum of all counts stored in `m`. */
  ghost function Sum<T>(m: map<T, nat>): nat
    decreases |m|
  {
    if m == map[] then 0
    else
      var k :| k in m;
      assert |(m - {k}).Keys| == |m.Keys - {k}| == |m.Keys| - 1;
      m[k] + Sum(m - {k})
  }

  /** The sum can be split at any key, not only at the one `Sum` happens to pick. */
  lemma {:induction false} SumRemove<T>(m: map<T, nat>, k: T)
    requires k in m
    ensures Sum(m) == m[k] + Sum(m - {k})
    decreases |m|
  {
    var x :| x in m && Sum(m) == m[x] + Sum(m - {x});
    if x != k {
      assert |(m - {x}).Keys| == |m.Keys - {x}| == |m.Keys| - 1;
      assert |(m - {k}).Keys| == |m.Keys - {k}| == |m.Keys| - 1;
      SumRemove(m - {x}, k);
      SumRemove(m - {k}, x);
      assert m - {x} - {k} == m - {k} - {x};
    }
  }

  /** Setting key `k` to `v` changes the sum by exactly the difference of the two counts. */
  lemma SumUpdate<T>(m: map<T, nat>, k: T, v: nat)
    ensures Sum(m[k := v]) == Sum(m - {k}) + v
    ensures k in m ==> Sum(m) == Sum(m - {k}) + m[k]
    ensures k !in m ==> Sum(m) == Sum(m - {k})
  {
    SumRemove(m[k := v], k);
    assert m[k := v] - {k} == m - {k};
    if k in m {
      SumRemove(m, k);
    } else {
      assert m - {k} == m;
    }
  }

  /** With no zero counts stored, a zero sum means that nothing is stored. */
  lemma SumZero<T>(m: map<T, nat>)
    requires forall t :: t in m ==> m[t] > 0
    ensures Sum(m) == 0 <==> m == map[]
  {
    if m != map[] {
      var k :| k in m;
      SumRemove(m, k);
    }
  }

  /** The count stored for `t` in `m`, zero for a key that is not stored. */
  function Tally<T>(m: map<T, nat>, t: T): nat
  {
    if t in m then m[t] else 0
  }

  /** Why an `Erase` was refused; the source throws with these two messages. */
  datatype EraseError = AbsentKey | ExceedsCount

  datatype Outcome = Pass | Fail(error: EraseError)

  class CountedSet<T(==)> {
    /** The running total reported by `Total`. */
    var sum: nat
    /** The stored count of each key. */
    var counts: map<T, nat>

    /** No key is stored with a zero count, and the total covers every stored count. */
    ghost predicate Valid()
      reads this
    {
      && (forall t :: t in counts ==> counts[t] > 0)
      && Sum(counts) <= sum
    }

    /** The running total equals the sum of the stored counts. */
    ghost predicate Exact()
      reads this
    {
      Sum(counts) == sum
    }

    constructor ()
      ensures Valid() && Exact()
      ensures sum == 0 && counts == map[]
    {
      sum := 0;
      counts := map[];
    }

    /** `total()`: the running total, which covers every stored count and equals their sum while exact. */
    function Total(): (n: nat)
      reads this
      ensures Valid() ==> Sum(counts) <= n
      ensures Exact() ==> n == Sum(counts)
    {
      sum
    }

    /** The count of `t`, zero for a key that is not stored. */
    function Count(t: T): (n: nat)
      reads this
      requires Valid()
      ensures n > 0 <==> t in counts
      ensures n == Tally(counts, t) && n <= sum
    {
      if t in counts then
        SumRemove(counts, t);
        counts[t]
      else 0
    }

    /** `empty()` of the source: true when the running total is zero. */
    predicate IsEmpty(): (b: bool)
      reads this
      requires Valid()
      ensures b ==> counts == map[]
      ensures Exact() ==> (b <==> counts == map[])
    {
      SumZero(counts);
      sum == 0
    }

    method Insert(t: T, n: nat)
      requires Valid()
      modifies this
      ensures Valid()
      ensures n == 0 ==> sum == old(sum) && counts == old(counts)
      ensures n > 0 ==> sum == old(sum) + n && counts == old(counts)[t := old(Count(t)) + n]
      ensures Sum(counts) == old(Sum(counts)) + n
      ensures old(Exact()) ==> Exact()
    {
      if n == 0 {
        return;
      }
      SumUpdate(counts, t, Count(t) + n);
      sum := sum + n;
      if t in counts {
        counts := counts[t := counts[t] + n];
      } else {
        counts := counts[t := n];
      }
    }

    method Erase(t: T, n: nat) returns (r: Outcome)
      requires Valid()
      modifies this
      ensures Valid()
      ensures r == Fail(AbsentKey) <==> n > 0 && t !in old(counts)
      ensures r == Fail(ExceedsCount) <==> n > 0 && t in old(counts) && n > old(counts[t])
      ensures r.Fail? ==> sum == old(sum) && counts == old(counts)
      ensures r.Pass? && n == 0 ==> sum == old(sum) && counts == old(counts)
      ensures r.Pass? && n > 0 ==>
        && sum == old(sum) - n
        && counts == (if n == old(counts[t]) then old(counts) - {t}
                      else old(counts)[t := old(counts[t]) - n])
      ensures r.Pass? ==> Sum(counts) == old(Sum(counts)) - n
      ensures old(Exact()) ==> Exact()
    {
      if n == 0 {
        return Pass;
      }
      if t !in counts {
        return Fail(AbsentKey);
      }
      if n > counts[t] {
        return Fail(ExceedsCount);
      }
      SumUpdate(counts, t, counts[t] - n);
      sum := sum - n;
      if counts[t] == n {
        counts := counts - {t};
      } else {
        counts := counts[t := counts[t] - n];
      }
      r := Pass;
    }

    /** Drops the entry of `t` and returns its count; the running total is left as it was. */
    method Clear(t: T) returns (num: nat)
      requires Valid()
      modifies this
      ensures Valid()
      ensures num == old(Count(t))
      ensures counts == old(counts) - {t} && sum == old(sum)
      ensures Sum(counts) == old(Sum(counts)) - num
    {
      num := Count(t);
      SumUpdate(counts, t, num);
      counts := counts - {t};
    }

    /** Transfers the count of `t` to `other` by clearing it here and inserting it there. */
    method Move(other: CountedSet<T>, t: T)
      requires Valid() && other.Valid()
      modifies this, other
      ensures Valid() && other.Valid()
      ensures other != this ==>
        && counts == old(counts) - {t}
        && sum == old(sum)
        && other.sum == old(other.sum) + old(Count(t))
        && other.Count(t) == old(other.Count(t)) + old(Count(t))
        && other.counts - {t} == old(other.counts) - {t}
        && Sum(counts) == old(Sum(counts)) - old(Count(t))
      ensures other != this && old(Count(t)) > 0 ==> !Exact()
      ensures other == this ==> counts == old(counts) && sum == old(sum) + old(Count(t))
    {
      var num := Clear(t);
      other.Insert(t, num);
    }

    /** Adds the count of `t` to `other` and keeps it here. */
    method Copy(other: CountedSet<T>, t: T)
      requires Valid() && other.Valid()
      modifies other
      ensures Valid() && other.Valid()
      ensures other != this ==> sum == old(sum) && counts == old(counts)
      ensures other.sum == old(other.sum) + old(Count(t))
      ensures other.Count(t) == old(other.Count(t)) + old(Count(t))
      ensures other.counts - {t} == old(other.counts) - {t}
    {
      other.Insert(t, Count(t));
    }
  }

  /**
   Two calls in transit for one route, one `Move` of that route elsewhere: the
   moved count arrives at the destination while the source keeps reporting it
   in its total, so `Total()` no longer equals the sum of the counts.
   */
  method MoveKeepsSourceTotal() returns (sourceTotal: nat, sourceCount: nat, targetTotal: nat, sourceEmpty: bool)
    ensures sourceTotal == 2 && sourceCount == 0 && targetTotal == 2
    ensures !sourceEmpty
  {
    var source := new CountedSet<string>();
    var target := new CountedSet<string>();
    source.Insert("r", 2);
    source.Move(target, "r");
    sourceTotal := source.Total();
    sourceCount := source.Count("r");
    targetTotal := target.Total();
    sourceEmpty := source.IsEmpty();
  }
}
