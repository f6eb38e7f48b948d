/**
 * The Top-K selector `find_top_k_errors` (error_log_analyzer.py:152-154):
 * `heapq.nlargest(k, error_counter.items(), key=count)`. Python documents
 * `nlargest` as equivalent to `sorted(items, key=count, reverse=True)[:k]`;
 * that sort is stable, so entries with equal counts keep the order in which
 * the dictionary yields them, which is first-insertion order.
 */
module TopK {
  import opened Tallies

  /** A (message, count) pair of `error_counter.items()`. */
  type Entry = (string, int)

  /** Counts never increase along `s`. */
  predicate SortedByCountDesc(s: seq<Entry>)
  {
    forall i, j :: 0 <= i < j < |s| ==> s[i].1 >= s[j].1
  }

  /** The messages of `s`, in order. */
  function MessagesOf(s: seq<Entry>): (r: seq<string>)
    ensures |r| == |s|
    ensures forall i :: 0 <= i < |s| ==> r[i] == s[i].0
  {
    if s == [] then [] else [s[0].0] + MessagesOf(s[1..])
  }

  predicate DistinctMessages(s: seq<Entry>)
  {
    forall i, j :: 0 <= i < j < |s| ==> s[i].0 != s[j].0
  }

  /** The entries of `s` whose count is `c`, in order. */
  function WithCount(s: seq<Entry>, c: int): seq<Entry>
  {
    if s == [] then []
    else (if s[0].1 == c then [s[0]] else []) + WithCount(s[1..], c)
  }

  /**
   * Insert `e` into a list sorted by descending count, after every entry
   * whose count is at least as large: the later of two equal entries stays
   * later.
   */
  function InsertByCount(e: Entry, s: seq<Entry>): seq<Entry>
  {
    if s == [] then [e]
    else if s[0].1 >= e.1 then [s[0]] + InsertByCount(e, s[1..])
    else [e] + s
  }

  /** `sorted(items, key=count, reverse=True)`: a stable sort by descending count. */
  function SortByCountDesc(items: seq<Entry>): seq<Entry>
  {
    if items == [] then []
    else InsertByCount(items[|items| - 1], SortByCountDesc(items[..|items| - 1]))
  }

  /** Python's `s[:k]` for `k >= 0`. */
  function Take(s: seq<Entry>, k: nat): (r: seq<Entry>)
    ensures |r| == if k < |s| then k else |s|
    ensures r == s[..|r|]
  {
    if k >= |s| then s else s[..k]
  }

  /**
   * `find_top_k_errors(error_counter, k=5)`: the first `k` entries of the
   * items stably sorted by descending count; nothing when `k <= 0`, as
   * `heapq.nlargest` returns for a non-positive `n`.
   */
  function FindTopKErrors(t: Tally, k: int := 5): seq<Entry>
    requires t.Valid()
  {
    if k <= 0 then [] else Take(SortByCountDesc(Items(t)), k)
  }

  /** Inserting adds exactly `e` to the entries. */
  lemma {:induction false} InsertByCountMultiset(e: Entry, s: seq<Entry>)
    ensures multiset(InsertByCount(e, s)) == multiset(s) + multiset{e}
  {
    if s != [] && s[0].1 >= e.1 {
      InsertByCountMultiset(e, s[1..]);
      assert s == [s[0]] + s[1..];
    }
  }

  /** Inserting into a list sorted by descending count keeps it sorted. */
  lemma {:induction false} InsertByCountSorted(e: Entry, s: seq<Entry>)
    requires SortedByCountDesc(s)
    ensures SortedByCountDesc(InsertByCount(e, s))
  {
    if s != [] && s[0].1 >= e.1 {
      var rest := InsertByCount(e, s[1..]);
      InsertByCountSorted(e, s[1..]);
      InsertByCountMembers(e, s[1..]);
      forall j | 0 <= j < |rest| ensures s[0].1 >= rest[j].1 {
        assert rest[j] in rest;
        if rest[j] != e {
          var q :| 0 <= q < |s[1..]| && s[1..][q] == rest[j];
          assert s[q + 1] == rest[j];
        }
      }
      var r := [s[0]] + rest;
      forall i, j | 0 <= i < j < |r| ensures r[i].1 >= r[j].1 {
        assert r[j] == rest[j - 1];
        if i > 0 {
          assert r[i] == rest[i - 1];
        }
      }
    } else if s != [] {
      var r := [e] + s;
      forall i, j | 0 <= i < j < |r| ensures r[i].1 >= r[j].1 {
        assert r[j] == s[j - 1];
        if i > 0 {
          assert r[i] == s[i - 1];
        } else if j > 1 {
          assert s[0].1 >= s[j - 1].1;
        }
      }
    }
  }

  /** Inserting an entry whose message is new keeps the messages distinct. */
  lemma {:induction false} InsertByCountDistinct(e: Entry, s: seq<Entry>)
    requires DistinctMessages(s)
    requires forall i :: 0 <= i < |s| ==> s[i].0 != e.0
    ensures DistinctMessages(InsertByCount(e, s))
  {
    if s != [] && s[0].1 >= e.1 {
      var rest := InsertByCount(e, s[1..]);
      InsertByCountDistinct(e, s[1..]);
      var r := [s[0]] + rest;
      InsertByCountMembers(e, s[1..]);
      forall i, j | 0 <= i < j < |r| ensures r[i].0 != r[j].0 {
        if i == 0 {
          assert r[j] in rest;
          if r[j] != e {
            var q :| 0 <= q < |s[1..]| && s[1..][q] == r[j];
            assert s[q + 1] == r[j];
          }
        }
      }
    }
  }

  /** The entries of an insertion are `e` and those of `s`. */
  lemma {:induction false} InsertByCountMembers(e: Entry, s: seq<Entry>)
    ensures forall x :: x in InsertByCount(e, s) <==> x == e || x in s
  {
    if s != [] && s[0].1 >= e.1 {
      InsertByCountMembers(e, s[1..]);
      assert s == [s[0]] + s[1..];
    }
  }

  /** Filtering a list that starts with `x`. */
  lemma WithCountCons(x: Entry, s: seq<Entry>, c: int)
    ensures WithCount([x] + s, c) == (if x.1 == c then [x] else []) + WithCount(s, c)
  {
    assert ([x] + s)[1..] == s;
  }

  /** Filtering by a count distributes over concatenation. */
  lemma {:induction false} WithCountAppend(a: seq<Entry>, b: seq<Entry>, c: int)
    ensures WithCount(a + b, c) == WithCount(a, c) + WithCount(b, c)
  {
    if a != [] {
      WithCountAppend(a[1..], b, c);
      assert (a + b)[1..] == a[1..] + b;
    } else {
      assert a + b == b;
    }
  }

  /**
   * Stability of one insertion: among the entries of any one count, `e`
   * lands after all those already in the sorted list.
   */
  lemma {:induction false} InsertByCountStable(e: Entry, s: seq<Entry>, c: int)
    requires SortedByCountDesc(s)
    ensures WithCount(InsertByCount(e, s), c) == WithCount(s, c) + (if e.1 == c then [e] else [])
  {
    if s == [] {
    } else if s[0].1 >= e.1 {
      InsertByCountStable(e, s[1..], c);
      WithCountCons(s[0], InsertByCount(e, s[1..]), c);
      WithCountCons(s[0], s[1..], c);
      assert [s[0]] + s[1..] == s;
    } else {
      // every entry of s counts less than e
      NoneWithCount(s, e.1);
      WithCountCons(e, s, c);
    }
  }

  /** In a sorted list whose first count is below `c`, no entry has count `c`. */
  lemma {:induction false} NoneWithCount(s: seq<Entry>, c: int)
    requires SortedByCountDesc(s)
    requires s != [] && s[0].1 < c
    ensures WithCount(s, c) == []
  {
    if |s| > 1 {
      NoneWithCount(s[1..], c);
    }
  }

  /**
   * The sort is a stably ordered permutation: counts are non-increasing, the
   * multiset of entries is unchanged, and the entries of each count keep
   * their input order.
   */
  lemma {:induction false} SortProperties(items: seq<Entry>)
    ensures var r := SortByCountDesc(items);
      && SortedByCountDesc(r)
      && multiset(r) == multiset(items)
      && (forall c :: WithCount(r, c) == WithCount(items, c))
    decreases |items|
  {
    if items != [] {
      var init, last := items[..|items| - 1], items[|items| - 1];
      SortProperties(init);
      var sorted := SortByCountDesc(init);
      InsertByCountSorted(last, sorted);
      InsertByCountMultiset(last, sorted);
      assert items == init + [last];
      forall c ensures WithCount(SortByCountDesc(items), c) == WithCount(items, c) {
        InsertByCountStable(last, sorted, c);
        WithCountAppend(init, [last], c);
      }
    }
  }

  /** Sorting entries with distinct messages keeps them distinct. */
  lemma {:induction false} SortDistinct(items: seq<Entry>)
    requires DistinctMessages(items)
    ensures DistinctMessages(SortByCountDesc(items))
    decreases |items|
  {
    if items != [] {
      var init, last := items[..|items| - 1], items[|items| - 1];
      SortDistinct(init);
      SortProperties(init);
      var sorted := SortByCountDesc(init);
      forall i | 0 <= i < |sorted| ensures sorted[i].0 != last.0 {
        assert sorted[i] in multiset(init);
        var q :| 0 <= q < |init| && init[q] == sorted[i];
        assert items[q] == init[q];
      }
      InsertByCountDistinct(last, sorted);
    }
  }

  /** The entries of a prefix of `s` with count `c` are a prefix of those of `s`. */
  lemma {:induction false} WithCountPrefix(s: seq<Entry>, n: nat, c: int)
    requires n <= |s|
    ensures WithCount(s[..n], c) <= WithCount(s, c)
  {
    if n > 0 {
      WithCountPrefix(s[1..], n - 1, c);
      assert s[..n][1..] == s[1..][..n - 1];
    }
  }

  /** `find_top_k_errors` returns `min(k, len(error_counter))` pairs, none when `k <= 0`. */
  lemma TopKLength(t: Tally, k: int)
    requires t.Valid()
    ensures |FindTopKErrors(t, k)| == if k <= 0 then 0 else if k < |t.keys| then k else |t.keys|
  {
    var items := Items(t);
    SortProperties(items);
    assert |multiset(SortByCountDesc(items))| == |multiset(items)|;
  }

  /**
   * The pairs come by non-increasing count, each is an entry of the tally,
   * and no message appears twice.
   */
  lemma TopKEntries(t: Tally, k: int)
    requires t.Valid()
    ensures var r := FindTopKErrors(t, k);
      && SortedByCountDesc(r)
      && (forall i :: 0 <= i < |r| ==> r[i].0 in t.counts && t.counts[r[i].0] == r[i].1)
      && DistinctMessages(r)
  {
    var items := Items(t);
    var sorted := SortByCountDesc(items);
    var r := FindTopKErrors(t, k);
    SortProperties(items);
    assert DistinctMessages(items);
    SortDistinct(items);
    assert r == sorted[..|r|];
    forall i | 0 <= i < |r| ensures r[i].0 in t.counts && t.counts[r[i].0] == r[i].1 {
      assert r[i] == sorted[i];
      assert sorted[i] in multiset(items);
    }
  }

  /**
   * In a list sorted by descending count, an entry whose message is not
   * among the first `n` counts no more than the `n`-th.
   */
  lemma SortedPrefixBound(s: seq<Entry>, n: nat, x: Entry)
    requires SortedByCountDesc(s)
    requires 0 < n <= |s|
    requires x in s && x.0 !in MessagesOf(s[..n])
    ensures x.1 <= s[n - 1].1
  {
    var p :| 0 <= p < |s| && s[p] == x;
    forall i | 0 <= i < n ensures s[i] != x {
      assert MessagesOf(s[..n])[i] in MessagesOf(s[..n]);
    }
    assert n <= p;
  }

  /** Every entry left out counts no more than the last pair returned. */
  lemma TopKOmittedNoLarger(t: Tally, k: int)
    requires t.Valid()
    ensures var r := FindTopKErrors(t, k);
      forall m :: m in t.counts && m !in MessagesOf(r) && r != [] ==> t.counts[m] <= r[|r| - 1].1
  {
    var items := Items(t);
    var sorted := SortByCountDesc(items);
    var r := FindTopKErrors(t, k);
    SortProperties(items);
    assert r == sorted[..|r|];
    forall m | m in t.counts && m !in MessagesOf(r) && r != [] ensures t.counts[m] <= r[|r| - 1].1 {
      var q :| 0 <= q < |t.keys| && t.keys[q] == m;
      assert items[q] in multiset(sorted);
      SortedPrefixBound(sorted, |r|, items[q]);
    }
  }

  /**
   * Ties follow insertion order: for every count, the pairs returned with
   * that count are the first entries of the tally with that count, in the
   * order they were inserted.
   */
  lemma TopKTiesInInsertionOrder(t: Tally, k: int)
    requires t.Valid()
    ensures var r := FindTopKErrors(t, k);
      forall c :: WithCount(r, c) <= WithCount(Items(t), c)
  {
    var items := Items(t);
    var sorted := SortByCountDesc(items);
    var r := FindTopKErrors(t, k);
    SortProperties(items);
    assert r == sorted[..|r|];
    forall c ensures WithCount(r, c) <= WithCount(items, c) {
      WithCountPrefix(sorted, |r|, c);
    }
  }

  /** A smaller request returns a prefix of a larger one. */
  lemma TopKPrefix(t: Tally, k1: int, k2: int)
    requires t.Valid()
    requires k1 <= k2
    ensures FindTopKErrors(t, k1) <= FindTopKErrors(t, k2)
  {
  }

  /**
   * The scenario of tests/test_error_log_analyzer.py:21-30: from
   * {E1: 10, E2: 5, E3: 1} the top two are E1 then E2.
   */
  lemma TopTwoOfThree()
    ensures FindTopKErrors(Tally(["E1", "E2", "E3"], map["E1" := 10, "E2" := 5, "E3" := 1]), 2)
      == [("E1", 10), ("E2", 5)]
  {
    var t := Tally(["E1", "E2", "E3"], map["E1" := 10, "E2" := 5, "E3" := 1]);
    var s1, s2, s3 := [("E1", 10)], [("E1", 10), ("E2", 5)], [("E1", 10), ("E2", 5), ("E3", 1)];
    assert Items(t) == s3;
    assert s1[..0] == [] && s2[..1] == s1 && s3[..2] == s2;
    assert SortByCountDesc(s1) == s1;
    assert SortByCountDesc(s2) == s2;
    assert SortByCountDesc(s3) == s3;
  }

  /** Asking for more pairs than there are keys returns them all, sorted. */
  lemma AllOfThreeWhenKIsTen()
    ensures FindTopKErrors(Tally(["E3", "E1", "E2"], map["E1" := 10, "E2" := 5, "E3" := 1]), 10)
      == [("E1", 10), ("E2", 5), ("E3", 1)]
  {
    var t := Tally(["E3", "E1", "E2"], map["E1" := 10, "E2" := 5, "E3" := 1]);
    var s1, s2, s3 := [("E3", 1)], [("E3", 1), ("E1", 10)], [("E3", 1), ("E1", 10), ("E2", 5)];
    assert Items(t) == s3;
    assert s1[..0] == [] && s2[..1] == s1 && s3[..2] == s2;
    assert SortByCountDesc(s1) == s1;
    assert SortByCountDesc(s2) == [("E1", 10), ("E3", 1)];
    assert InsertByCount(("E2", 5), [("E3", 1)]) == [("E2", 5), ("E3", 1)];
    assert SortByCountDesc(s3) == [("E1", 10), ("E2", 5), ("E3", 1)];
  }

  /** Equal counts come out in insertion order. */
  lemma TiesInInsertionOrder()
    ensures FindTopKErrors(Tally(["A", "B", "C"], map["A" := 1, "B" := 2, "C" := 1]), 3)
      == [("B", 2), ("A", 1), ("C", 1)]
  {
    var t := Tally(["A", "B", "C"], map["A" := 1, "B" := 2, "C" := 1]);
    var s1, s2, s3 := [("A", 1)], [("A", 1), ("B", 2)], [("A", 1), ("B", 2), ("C", 1)];
    assert Items(t) == s3;
    assert s1[..0] == [] && s2[..1] == s1 && s3[..2] == s2;
    assert SortByCountDesc(s1) == s1;
    assert SortByCountDesc(s2) == [("B", 2), ("A", 1)];
    assert InsertByCount(("C", 1), [("A", 1)]) == [("A", 1), ("C", 1)];
    assert SortByCountDesc(s3) == [("B", 2), ("A", 1), ("C", 1)];
  }

  /** Called without `k`, the selector returns the top five, or all entries when there are fewer. */
  lemma TopKDefaultFive(t: Tally)
    requires t.Valid()
    ensures |FindTopKErrors(t)| == if |t.keys| < 5 then |t.keys| else 5
    ensures FindTopKErrors(t) == FindTopKErrors(t, 5)
  {
    TopKLength(t, 5);
  }

  /** An empty tally, or `k <= 0`, gives nothing. */
  lemma TopKEmpty(t: Tally, k: int)
    requires t.Valid()
    requires t.keys == [] || k <= 0
    ensures FindTopKErrors(t, k) == []
  {
  }
}
