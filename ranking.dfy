/** The ranking inside `display_leaderboard`: `Counter(leaderboard).most_common(n)`.
    For a whole number `n` this is `heapq.nlargest(n, items, key=count)`,
    which returns the same list as a stable sort of the items by count,
    largest first, cut to its first `n` entries; for `n <= 0` it is empty.
    Stability means entries with equal counts keep the leaderboard's
    insertion order. */
module Ranking {
  import opened Base
  import opened Leaderboards

  /** One `(package, count)` item. */
  type Entry = (string, int)

  /** `leaderboard.items()`: every key with its count, in insertion order. */
  function Items(d: Dict): (items: seq<Entry>)
    requires WellFormed(d)
    ensures |items| == |d.order|
    ensures forall i :: 0 <= i < |items| ==> items[i].0 == d.order[i] && items[i].1 == d.counts[d.order[i]]
  {
    seq(|d.order|, i requires 0 <= i < |d.order| => (d.order[i], d.counts[d.order[i]]))
  }

  /** Counts never grow from left to right. */
  predicate NonIncreasing(s: seq<Entry>)
  {
    forall i, j :: 0 <= i < j < |s| ==> s[i].1 >= s[j].1
  }

  /** No package name occurs twice. */
  predicate DistinctNames(s: seq<Entry>)
  {
    forall i, j :: 0 <= i < j < |s| ==> s[i].0 != s[j].0
  }

  /** The entries of `s` whose count is `c`, in their order in `s`. */
  function WithCount(s: seq<Entry>, c: int): seq<Entry>
  {
    if s == [] then []
    else (if s[0].1 == c then [s[0]] else []) + WithCount(s[1..], c)
  }

  /** Puts `x` in front of the first entry whose count is not larger than
      its own. */
  function Insert(x: Entry, s: seq<Entry>): (r: seq<Entry>)
    ensures multiset(r) == multiset(s) + multiset{x}
  {
    if s == [] || x.1 >= s[0].1 then [x] + s
    else
      assert s == [s[0]] + s[1..];
      [s[0]] + Insert(x, s[1..])
  }

  /** Inserting into a sequence sorted by count keeps it sorted. */
  lemma {:induction false} InsertSorted(x: Entry, s: seq<Entry>)
    requires NonIncreasing(s)
    ensures NonIncreasing(Insert(x, s))
  {
    if !(s == [] || x.1 >= s[0].1) {
      var rest := Insert(x, s[1..]);
      InsertSorted(x, s[1..]);
      forall j | 0 <= j < |rest| ensures rest[j].1 <= s[0].1 {
        assert rest[j] in multiset(rest);
        if rest[j] != x {
          var k :| 0 <= k < |s[1..]| && s[1..][k] == rest[j];
          assert s[k + 1] == rest[j];
        }
      }
    }
  }

  /** Stable sort by count, largest first. */
  function SortByCount(s: seq<Entry>): (r: seq<Entry>)
    ensures multiset(r) == multiset(s)
    ensures NonIncreasing(r)
  {
    if s == [] then []
    else
      assert s == [s[0]] + s[1..];
      InsertSorted(s[0], SortByCount(s[1..]));
      Insert(s[0], SortByCount(s[1..]))
  }

  /** The sort neither adds nor drops entries. */
  lemma SortMembers(s: seq<Entry>, e: Entry)
    ensures e in SortByCount(s) <==> e in s
  {
    assert e in SortByCount(s) <==> e in multiset(SortByCount(s));
  }

  /** `Counter(leaderboard).most_common(n)`. */
  function MostCommon(d: Dict, n: int): seq<Entry>
    requires WellFormed(d)
  {
    var ranked := SortByCount(Items(d));
    if n <= 0 then []
    else if n < |ranked| then ranked[..n]
    else ranked
  }

  // ---------------------------------------------------------------------
  // The sort is stable, and it is the only stable sort
  // ---------------------------------------------------------------------

  /** The entries with count `c` are exactly the members of `s` with that
      count. */
  lemma {:induction false} WithCountMembers(s: seq<Entry>, c: int)
    ensures forall e :: e in WithCount(s, c) <==> e in s && e.1 == c
  {
    if s != [] {
      WithCountMembers(s[1..], c);
      assert s == [s[0]] + s[1..];
    }
  }

  /** Inserting `x` puts it in front of every entry of equal count. */
  lemma {:induction false} InsertWithCount(x: Entry, s: seq<Entry>, c: int)
    ensures WithCount(Insert(x, s), c) == (if x.1 == c then [x] else []) + WithCount(s, c)
  {
    if s == [] || x.1 >= s[0].1 {
      assert ([x] + s)[1..] == s;
    } else {
      InsertWithCount(x, s[1..], c);
      assert ([s[0]] + Insert(x, s[1..]))[1..] == Insert(x, s[1..]);
    }
  }

  /** Stability: for every count, the entries with that count come out of
      the sort in the order they went in. */
  lemma {:induction false} SortStable(s: seq<Entry>, c: int)
    ensures WithCount(SortByCount(s), c) == WithCount(s, c)
  {
    if s != [] {
      SortStable(s[1..], c);
      InsertWithCount(s[0], SortByCount(s[1..]), c);
    }
  }

  lemma WithCountOfHead(s: seq<Entry>)
    ensures s != [] ==> WithCount(s, s[0].1) != []
  {
  }

  /** Two sequences sorted by count that agree on the entries of every count
      are equal. */
  lemma {:induction false} SortedByFiltersUnique(t: seq<Entry>, u: seq<Entry>)
    requires NonIncreasing(t) && NonIncreasing(u)
    requires forall c :: WithCount(t, c) == WithCount(u, c)
    ensures t == u
  {
    if t == [] || u == [] {
      if t != [] {
        WithCountOfHead(t);
        assert false;
      }
      if u != [] {
        WithCountOfHead(u);
        assert false;
      }
    } else {
      var m, m' := t[0].1, u[0].1;
      WithCountMembers(t, m');
      WithCountMembers(u, m);
      assert WithCount(t, m) == WithCount(u, m) && t[0] in WithCount(t, m);
      assert WithCount(u, m') == WithCount(t, m') && u[0] in WithCount(u, m');
      assert m == m';
      assert WithCount(t, m) == [t[0]] + WithCount(t[1..], m);
      assert WithCount(u, m) == [u[0]] + WithCount(u[1..], m);
      assert WithCount(t, m)[0] == t[0] && WithCount(u, m)[0] == u[0];
      forall c ensures WithCount(t[1..], c) == WithCount(u[1..], c) {
        var head := if t[0].1 == c then [t[0]] else [];
        assert WithCount(t, c) == head + WithCount(t[1..], c);
        assert WithCount(u, c) == head + WithCount(u[1..], c);
        assert WithCount(t[1..], c) == WithCount(t, c)[|head|..];
        assert WithCount(u[1..], c) == WithCount(u, c)[|head|..];
      }
      SortedByFiltersUnique(t[1..], u[1..]);
      assert t == [t[0]] + t[1..] && u == [u[0]] + u[1..];
    }
  }

  /** `SortByCount` is THE stable sort by count: any arrangement that is
      sorted by count and keeps the order of equal counts is this one. */
  lemma StableSortUnique(s: seq<Entry>, t: seq<Entry>)
    requires NonIncreasing(t)
    requires forall c :: WithCount(t, c) == WithCount(s, c)
    ensures t == SortByCount(s)
  {
    forall c ensures WithCount(t, c) == WithCount(SortByCount(s), c) {
      SortStable(s, c);
    }
    SortedByFiltersUnique(t, SortByCount(s));
  }

  // ---------------------------------------------------------------------
  // Properties of `most_common(n)`
  // ---------------------------------------------------------------------

  lemma {:induction false} InsertDistinct(x: Entry, s: seq<Entry>)
    requires DistinctNames(s)
    requires forall e :: e in s ==> e.0 != x.0
    ensures DistinctNames(Insert(x, s))
  {
    if !(s == [] || x.1 >= s[0].1) {
      var rest := Insert(x, s[1..]);
      InsertDistinct(x, s[1..]);
      forall j | 0 <= j < |rest| ensures rest[j].0 != s[0].0 {
        assert rest[j] in multiset(rest);
        assert rest[j] == x || rest[j] in s[1..];
      }
    }
  }

  lemma {:induction false} SortDistinct(s: seq<Entry>)
    requires DistinctNames(s)
    ensures DistinctNames(SortByCount(s))
  {
    if s != [] {
      var rest := SortByCount(s[1..]);
      SortDistinct(s[1..]);
      forall e | e in rest ensures e.0 != s[0].0 {
        assert e in multiset(rest);
      }
      InsertDistinct(s[0], rest);
    }
  }

  /** A well-formed leaderboard has as many keys as its insertion order
      has names. */
  lemma OrderCardinality(d: Dict)
    requires WellFormed(d)
    ensures |d.counts| == |d.order|
  {
    assert d.counts.Keys == Elements(d.order);
    DistinctCardinality(d.order);
  }

  /** `most_common(n)` has `min(max(n, 0), number of keys)` entries. */
  lemma MostCommonLength(d: Dict, n: int)
    requires WellFormed(d)
    ensures |MostCommon(d, n)| == if n <= 0 then 0 else if n < |d.counts| then n else |d.counts|
  {
    OrderCardinality(d);
    assert |multiset(SortByCount(Items(d)))| == |multiset(Items(d))|;
  }

  /** The counts of `most_common(n)` never grow. */
  lemma MostCommonOrdered(d: Dict, n: int)
    requires WellFormed(d)
    ensures NonIncreasing(MostCommon(d, n))
  {
  }

  /** Every item is a key with its own count. */
  lemma ItemsMembers(d: Dict, e: Entry)
    requires WellFormed(d)
    ensures e in Items(d) <==> e.0 in d.counts && d.counts[e.0] == e.1
  {
    if e.0 in d.counts && d.counts[e.0] == e.1 {
      var i :| 0 <= i < |d.order| && d.order[i] == e.0;
      assert Items(d)[i] == e;
    }
  }

  /** Every entry of `most_common(n)` is a key of the leaderboard with its
      own count, and no key is listed twice. */
  lemma MostCommonEntries(d: Dict, n: int)
    requires WellFormed(d)
    ensures var r := MostCommon(d, n);
      && (forall i :: 0 <= i < |r| ==> r[i].0 in d.counts && d.counts[r[i].0] == r[i].1)
      && DistinctNames(r)
  {
    var items := Items(d);
    var ranked := SortByCount(items);
    var r := MostCommon(d, n);
    assert r == ranked[..|r|];
    forall i | 0 <= i < |r| ensures r[i].0 in d.counts && d.counts[r[i].0] == r[i].1 {
      assert r[i] == ranked[i];
      SortMembers(items, ranked[i]);
      ItemsMembers(d, ranked[i]);
    }
    SortDistinct(items);
  }

  /** Top-N selection: a key left out of `most_common(n)` has a count no
      larger than any count that was selected. */
  lemma MostCommonSelectsLargest(d: Dict, n: int, k: string)
    requires WellFormed(d)
    requires k in d.counts
    requires forall i :: 0 <= i < |MostCommon(d, n)| ==> MostCommon(d, n)[i].0 != k
    ensures forall i :: 0 <= i < |MostCommon(d, n)| ==> d.counts[k] <= MostCommon(d, n)[i].1
  {
    var items := Items(d);
    var ranked := SortByCount(items);
    var r := MostCommon(d, n);
    assert |r| <= |ranked| && r == ranked[..|r|];
    var p :| 0 <= p < |d.order| && d.order[p] == k;
    SortMembers(items, items[p]);
    var j :| 0 <= j < |ranked| && ranked[j] == items[p];
    forall i | 0 <= i < |r| ensures ranked[i] == r[i] {}
    CutDominates(ranked, |r|, j, k);
  }

  /** In a ranking cut after `m` entries, an entry past the cut whose name
      no kept entry has counts no more than any kept entry. */
  lemma CutDominates(ranked: seq<Entry>, m: nat, j: nat, k: string)
    requires NonIncreasing(ranked) && m <= |ranked| && j < |ranked|
    requires ranked[j].0 == k
    requires forall i :: 0 <= i < m ==> ranked[i].0 != k
    ensures forall i :: 0 <= i < m ==> ranked[j].1 <= ranked[i].1
  {
    assert j >= m;
  }

  /** The entries of one count that a cut keeps are the first ones. */
  lemma {:induction false} WithCountTake(s: seq<Entry>, n: nat, c: int)
    requires n <= |s|
    ensures WithCount(s[..n], c) <= WithCount(s, c)
  {
    if n > 0 {
      WithCountTake(s[1..], n - 1, c);
      assert s[..n][1..] == s[1..][..n - 1];
    }
  }

  /** Ties: for every count, the entries of that count in `most_common(n)`
      are the first ones of that count in insertion order. */
  lemma MostCommonTies(d: Dict, n: int, c: int)
    requires WellFormed(d)
    ensures WithCount(MostCommon(d, n), c) <= WithCount(Items(d), c)
  {
    var ranked := SortByCount(Items(d));
    SortStable(Items(d), c);
    if n <= 0 {
    } else if n < |ranked| {
      WithCountTake(ranked, n, c);
    }
  }

  // ---------------------------------------------------------------------
  // The older script: `dict(Counter(leaderboard).most_common(n)).items()`
  // ---------------------------------------------------------------------

  /** `dict(pairs)`: the pairs stored one after the other. */
  function FromPairs(pairs: seq<Entry>): Dict
  {
    if pairs == [] then Empty
    else Put(FromPairs(pairs[..|pairs| - 1]), pairs[|pairs| - 1].0, pairs[|pairs| - 1].1)
  }

  lemma {:induction false} FromPairsContents(pairs: seq<Entry>)
    requires DistinctNames(pairs)
    ensures WellFormed(FromPairs(pairs))
    ensures |FromPairs(pairs).order| == |pairs|
    ensures forall i :: 0 <= i < |pairs| ==>
      FromPairs(pairs).order[i] == pairs[i].0 && FromPairs(pairs).counts[pairs[i].0] == pairs[i].1
  {
    if pairs != [] {
      var init := pairs[..|pairs| - 1];
      var last := pairs[|pairs| - 1];
      FromPairsContents(init);
      var d := FromPairs(init);
      PutEffect(d, last.0, last.1);
    }
  }

  /** Since the names of `most_common(n)` are distinct, the dict round trip
      gives back the same entries in the same order. */
  lemma ItemsFromPairs(pairs: seq<Entry>)
    requires DistinctNames(pairs)
    ensures WellFormed(FromPairs(pairs)) && Items(FromPairs(pairs)) == pairs
  {
    FromPairsContents(pairs);
  }

  /** The ranking of the older script. */
  function MostCommonRoot(d: Dict, n: int): seq<Entry>
    requires WellFormed(d)
  {
    var top := MostCommon(d, n);
    MostCommonEntries(d, n);
    FromPairsContents(top);
    Items(FromPairs(top))
  }

  /** Both versions rank the same entries in the same order. */
  lemma RankingsAgree(d: Dict, n: int)
    requires WellFormed(d)
    ensures MostCommonRoot(d, n) == MostCommon(d, n)
  {
    MostCommonEntries(d, n);
    ItemsFromPairs(MostCommon(d, n));
  }
}
