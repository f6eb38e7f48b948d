/**
 * The error tally of error_log_analyzer.py:125 and 138: a `defaultdict(int)`
 * from message to count. Python dictionaries iterate in first-insertion
 * order, and Top-K selection depends on that order for ties, so the tally
 * keeps its keys in insertion order beside the map of counts.
 */
module Tallies {

  datatype Tally = Tally(keys: seq<string>, counts: map<string, int>)
  {
    /** The keys are distinct and are exactly the domain of `counts`. */
    ghost predicate Valid()
    {
      && (forall i, j :: 0 <= i < j < |keys| ==> keys[i] != keys[j])
      && (forall m :: m in counts <==> m in keys)
    }

    /** What the aggregator keeps: every entry was incremented at least once. */
    ghost predicate Positive()
    {
      forall m :: m in counts ==> counts[m] >= 1
    }
  }

  /** A fresh `defaultdict(int)`. */
  function Empty(): (t: Tally)
    ensures t.Valid() && t.Positive()
    ensures t.keys == [] && t.counts == map[]
  {
    Tally([], map[])
  }

  /** Reading a `defaultdict(int)`: a missing key reads as 0. */
  function Get(t: Tally, m: string): int
  {
    if m in t.counts then t.counts[m] else 0
  }

  /** `error_counter[m] += 1`. */
  function Increment(t: Tally, m: string): (r: Tally)
    ensures m in r.counts
  {
    if m in t.counts then Tally(t.keys, t.counts[m := t.counts[m] + 1])
    else Tally(t.keys + [m], t.counts[m := 1])
  }

  /** An increment changes only the entry for `m`, by one. */
  lemma IncrementGet(t: Tally, m: string)
    ensures forall x :: Get(Increment(t, m), x) == Get(t, x) + (if x == m then 1 else 0)
  {
  }

  /**
   * An increment keeps the tally well formed and its counts positive; a key
   * seen for the first time is inserted after all the others, and the order
   * of the others is kept.
   */
  lemma IncrementValid(t: Tally, m: string)
    requires t.Valid()
    ensures var r := Increment(t, m);
      && r.Valid()
      && (t.Positive() ==> r.Positive())
      && r.keys == if m in t.keys then t.keys else t.keys + [m]
  {
  }

  /** `t.items()`: the (key, count) pairs in insertion order. */
  function Items(t: Tally): (items: seq<(string, int)>)
    requires t.Valid()
    ensures |items| == |t.keys|
    ensures forall i :: 0 <= i < |items| ==> items[i].0 == t.keys[i] && items[i].1 == t.counts[t.keys[i]]
  {
    seq(|t.keys|, i requires 0 <= i < |t.keys| => (t.keys[i], t.counts[t.keys[i]]))
  }

  /**
   * The pairs of `t.items()` are exactly the map's entries, and no key
   * appears in two pairs.
   */
  lemma ItemsEntries(t: Tally)
    requires t.Valid()
    ensures forall e: (string, int) :: e in Items(t) <==> e.0 in t.counts && t.counts[e.0] == e.1
    ensures forall i, j :: 0 <= i < j < |Items(t)| ==> Items(t)[i].0 != Items(t)[j].0
  {
    var items := Items(t);
    forall e: (string, int) | e.0 in t.counts && t.counts[e.0] == e.1
      ensures e in items
    {
      var q :| 0 <= q < |t.keys| && t.keys[q] == e.0;
      assert items[q] == e;
    }
  }

  /** The sum of the counts of the first `n` keys (a missing key counts 0). */
  function SumFirst(keys: seq<string>, counts: map<string, int>, n: nat): int
    requires n <= |keys|
  {
    if n == 0 then 0
    else SumFirst(keys, counts, n - 1) + (if keys[n - 1] in counts then counts[keys[n - 1]] else 0)
  }

  /** The sum of all the counts of a tally. */
  function Total(t: Tally): int
  {
    SumFirst(t.keys, t.counts, |t.keys|)
  }

  /** Changing the count of a key that is not among the first `n` leaves their sum alone. */
  lemma {:induction false} SumFirstOther(keys: seq<string>, counts: map<string, int>, n: nat, m: string, v: int)
    requires n <= |keys|
    requires forall i :: 0 <= i < n ==> keys[i] != m
    ensures SumFirst(keys, counts[m := v], n) == SumFirst(keys, counts, n)
  {
    if n > 0 {
      SumFirstOther(keys, counts, n - 1, m, v);
    }
  }

  /**
   * Changing the count of a key that occurs once among the first `n` moves
   * their sum by the same amount.
   */
  lemma {:induction false} SumFirstUpdate(keys: seq<string>, counts: map<string, int>, n: nat, p: nat, v: int)
    requires p < n <= |keys|
    requires keys[p] in counts
    requires forall i :: 0 <= i < n && i != p ==> keys[i] != keys[p]
    ensures SumFirst(keys, counts[keys[p] := v], n) == SumFirst(keys, counts, n) - counts[keys[p]] + v
  {
    if p == n - 1 {
      SumFirstOther(keys, counts, n - 1, keys[p], v);
    } else {
      SumFirstUpdate(keys, counts, n - 1, p, v);
    }
  }

  /** The first `n` keys of a longer key list sum as they did alone. */
  lemma {:induction false} SumFirstExtend(keys: seq<string>, more: seq<string>, counts: map<string, int>, n: nat)
    requires n <= |keys|
    ensures SumFirst(keys + more, counts, n) == SumFirst(keys, counts, n)
  {
    if n > 0 {
      SumFirstExtend(keys, more, counts, n - 1);
    }
  }

  /** One increment adds exactly one to the total of the tally. */
  lemma IncrementTotal(t: Tally, m: string)
    requires t.Valid()
    ensures Total(Increment(t, m)) == Total(t) + 1
  {
    var n := |t.keys|;
    if m in t.counts {
      var p :| 0 <= p < n && t.keys[p] == m;
      SumFirstUpdate(t.keys, t.counts, n, p, t.counts[m] + 1);
    } else {
      assert forall i :: 0 <= i < n ==> t.keys[i] != m;
      SumFirstExtend(t.keys, [m], t.counts[m := 1], n);
      SumFirstOther(t.keys, t.counts, n, m, 1);
    }
  }
}
