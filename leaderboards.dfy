/** The leaderboard: a `defaultdict(int)` from package name to the number of
    files that name is listed for. A Python dict remembers the order in which
    its keys were first inserted, and that order later decides ties in the
    ranking, so the model keeps it next to the mapping. */
module Leaderboards {
  import opened Base

  /** A dict from package name to count, as a value: the mapping and the
      order in which its keys were first inserted. */
  datatype Dict = Dict(counts: map<string, int>, order: seq<string>)

  const Empty: Dict := Dict(map[], [])

  /** `order` lists every key of `counts` exactly once. */
  ghost predicate WellFormed(d: Dict)
  {
    && Distinct(d.order)
    && (forall k :: k in d.counts <==> k in d.order)
  }

  /** Every stored count is at least 1. */
  ghost predicate Positive(d: Dict)
  {
    forall k :: k in d.counts ==> d.counts[k] >= 1
  }

  /** Reading `d[k]` from a defaultdict(int): the stored count, or 0 for a
      key that is not there. */
  function Get(d: Dict, k: string): int
  {
    if k in d.counts then d.counts[k] else 0
  }

  /** `d[k] = v`: an existing key keeps its place and takes the new value, a
      new key goes to the end of the insertion order. */
  function Put(d: Dict, k: string, v: int): Dict
  {
    Dict(d.counts[k := v], if k in d.counts then d.order else d.order + [k])
  }

  /** `d[k] = v` stores `v` under `k`, changes no other key, keeps the old
      insertion order as a prefix and keeps the dict well formed. */
  lemma PutEffect(d: Dict, k: string, v: int)
    ensures k in Put(d, k, v).counts && Put(d, k, v).counts[k] == v
    ensures forall k' :: k' != k ==>
      (k' in Put(d, k, v).counts <==> k' in d.counts) && Get(Put(d, k, v), k') == Get(d, k')
    ensures d.order <= Put(d, k, v).order
    ensures WellFormed(d) ==> WellFormed(Put(d, k, v))
  {
    var r := Put(d, k, v);
    if WellFormed(d) && k !in d.counts {
      forall i, j | 0 <= i < j < |r.order| ensures r.order[i] != r.order[j] {
        if j == |d.order| {
          assert r.order[i] == d.order[i];
        } else {
          assert r.order[i] == d.order[i] && r.order[j] == d.order[j];
        }
      }
    }
  }

  /** `d[k] += 1` on a defaultdict(int): the key is created with count 0 if
      it is missing, then incremented. */
  function Bump(d: Dict, k: string): Dict
  {
    Put(d, k, Get(d, k) + 1)
  }

  /** `d[k] += 1` raises the count of `k` by one, creating the key if needed,
      and changes nothing else; the dict stays well formed and positive. */
  lemma BumpEffect(d: Dict, k: string)
    ensures k in Bump(d, k).counts && Get(Bump(d, k), k) == Get(d, k) + 1
    ensures forall k' :: k' != k ==>
      (k' in Bump(d, k).counts <==> k' in d.counts) && Get(Bump(d, k), k') == Get(d, k')
    ensures WellFormed(d) ==> WellFormed(Bump(d, k))
    ensures Positive(d) ==> Positive(Bump(d, k))
  {
    PutEffect(d, k, Get(d, k) + 1);
  }

  /** Incrementing `d` once for every element of `ps`, in order. */
  function AddAll(d: Dict, ps: seq<string>): Dict
  {
    if ps == [] then d
    else Bump(AddAll(d, ps[..|ps| - 1]), ps[|ps| - 1])
  }

  /** The leaderboard a fresh defaultdict(int) becomes after one `+= 1` per
      element of `ps`. */
  function Tally(ps: seq<string>): Dict
  {
    AddAll(Empty, ps)
  }

  /** Adding two lists of names one after the other is adding their
      concatenation. */
  lemma {:induction false} AddAllAppend(d: Dict, p: seq<string>, q: seq<string>)
    ensures AddAll(d, p + q) == AddAll(AddAll(d, p), q)
  {
    if q != [] {
      assert (p + q)[..|p + q| - 1] == p + q[..|q| - 1];
      AddAllAppend(d, p, q[..|q| - 1]);
    } else {
      assert p + q == p;
    }
  }

  /** Each name gains exactly one per occurrence in `ps`; no key is created
      that is not in `ps`; the dict stays well formed and positive. */
  lemma {:induction false} AddAllCounts(d: Dict, ps: seq<string>)
    ensures forall k :: Get(AddAll(d, ps), k) == Get(d, k) + multiset(ps)[k]
    ensures forall k :: k in AddAll(d, ps).counts <==> k in d.counts || k in ps
    ensures WellFormed(d) ==> WellFormed(AddAll(d, ps))
    ensures Positive(d) ==> Positive(AddAll(d, ps))
  {
    if ps != [] {
      var init := ps[..|ps| - 1];
      AddAllCounts(d, init);
      BumpEffect(AddAll(d, init), ps[|ps| - 1]);
      assert ps == init + [ps[|ps| - 1]];
    }
  }

  /** The leaderboard of a list of names: the keys are exactly the names in
      the list, each counted as often as it occurs, so every count is at
      least 1. */
  lemma TallyCounts(ps: seq<string>)
    ensures forall k :: k in Tally(ps).counts <==> k in ps
    ensures forall k :: Get(Tally(ps), k) == multiset(ps)[k]
    ensures WellFormed(Tally(ps)) && Positive(Tally(ps))
  {
    AddAllCounts(Empty, ps);
  }

  /** Counting `q` after `p` adds one per occurrence in `q` to the counts of
      `p`, adds the names of `q` as keys, and raises the total by `|q|`. */
  lemma TallyAppend(p: seq<string>, q: seq<string>)
    ensures WellFormed(Tally(p)) && WellFormed(Tally(p + q))
    ensures forall k :: Get(Tally(p + q), k) == Get(Tally(p), k) + multiset(q)[k]
    ensures forall k :: k in Tally(p + q).counts <==> k in Tally(p).counts || k in q
    ensures Total(Tally(p + q)) == Total(Tally(p)) + |q|
  {
    AddAllAppend(Empty, p, q);
    TallyCounts(p);
    AddAllCounts(Tally(p), q);
    TotalAddAll(Tally(p), q);
  }

  /** The position of the first occurrence of `x` in `s`. */
  function FirstIndex(s: seq<string>, x: string): (i: nat)
    requires x in s
    ensures i < |s| && s[i] == x && x !in s[..i]
  {
    var init := s[..|s| - 1];
    if x in init then
      var i := FirstIndex(init, x);
      assert s[..i] == init[..i];
      i
    else |s| - 1
  }

  /** Every name of `order` occurs in `ps`, and `order` lists the names in
      the order of their first occurrence in `ps`. */
  ghost predicate FirstOccurrenceOrder(order: seq<string>, ps: seq<string>)
  {
    && (forall k :: k in order ==> k in ps)
    && (forall i, j :: 0 <= i < j < |order| ==> FirstIndex(ps, order[i]) < FirstIndex(ps, order[j]))
  }

  lemma FirstIndexAppend(p: seq<string>, x: string, k: string)
    requires k in p
    ensures FirstIndex(p + [x], k) == FirstIndex(p, k)
  {
    assert (p + [x])[..|p|] == p;
  }

  lemma FirstOccurrenceStep(order: seq<string>, p: seq<string>, x: string)
    requires FirstOccurrenceOrder(order, p)
    ensures x in p ==> FirstOccurrenceOrder(order, p + [x])
    ensures x !in p ==> FirstOccurrenceOrder(order + [x], p + [x])
  {
    forall k | k in p ensures FirstIndex(p + [x], k) == FirstIndex(p, k) {
      FirstIndexAppend(p, x, k);
    }
    if x !in p {
      assert FirstIndex(p + [x], x) == |p|;
    }
  }

  /** The insertion order of the leaderboard is the order in which the
      names first occur in the list. */
  lemma {:induction false} TallyOrder(ps: seq<string>)
    ensures FirstOccurrenceOrder(Tally(ps).order, ps)
  {
    if ps != [] {
      var init := ps[..|ps| - 1];
      var x := ps[|ps| - 1];
      TallyOrder(init);
      TallyCounts(init);
      assert ps == init + [x];
      FirstOccurrenceStep(Tally(init).order, init, x);
    }
  }

  /** The sum of the counts of `keys`. */
  function SumCounts(keys: seq<string>, m: map<string, int>): int
    requires forall k :: k in keys ==> k in m
  {
    if keys == [] then 0
    else SumCounts(keys[..|keys| - 1], m) + m[keys[|keys| - 1]]
  }

  /** The total of all counts in the leaderboard. */
  function Total(d: Dict): int
    requires WellFormed(d)
  {
    SumCounts(d.order, d.counts)
  }

  lemma {:induction false} SumCountsUpdate(keys: seq<string>, m: map<string, int>, k: string, v: int)
    requires forall x :: x in keys ==> x in m
    requires Distinct(keys)
    ensures SumCounts(keys, m[k := v]) == SumCounts(keys, m) + (if k in keys then v - m[k] else 0)
  {
    if keys != [] {
      var init := keys[..|keys| - 1];
      var last := keys[|keys| - 1];
      assert keys == init + [last];
      assert Distinct(init);
      SumCountsUpdate(init, m, k, v);
      if k == last {
        assert k !in init by {
          forall i | 0 <= i < |init| ensures init[i] != last {
            assert keys[i] == init[i];
          }
        }
      }
    }
  }

  /** One increment raises the total by one. */
  lemma TotalBump(d: Dict, k: string)
    requires WellFormed(d)
    ensures WellFormed(Bump(d, k)) && Total(Bump(d, k)) == Total(d) + 1
  {
    var r := Bump(d, k);
    BumpEffect(d, k);
    if k in d.counts {
      SumCountsUpdate(d.order, d.counts, k, d.counts[k] + 1);
    } else {
      assert r.order[..|r.order| - 1] == d.order;
      SumCountsUpdate(d.order, d.counts, k, 1);
    }
  }

  /** Adding a list of names raises the total by the length of the list. */
  lemma {:induction false} TotalAddAll(d: Dict, ps: seq<string>)
    requires WellFormed(d)
    ensures WellFormed(AddAll(d, ps)) && Total(AddAll(d, ps)) == Total(d) + |ps|
  {
    if ps != [] {
      TotalAddAll(d, ps[..|ps| - 1]);
      TotalBump(AddAll(d, ps[..|ps| - 1]), ps[|ps| - 1]);
    }
  }

  /** The mutable leaderboard `parse_contents_file` builds: a
      defaultdict(int) updated in place, one `+= 1` at a time. */
  class Leaderboard {
    var counts: map<string, int>
    var order: seq<string>

    /** The current contents, as a value. */
    function Snapshot(): Dict
      reads this
    {
      Dict(counts, order)
    }

    ghost predicate Valid()
      reads this
    {
      WellFormed(Snapshot()) && Positive(Snapshot())
    }

    /** `defaultdict(int)`: an empty leaderboard. */
    constructor ()
      ensures Snapshot() == Empty && Valid()
    {
      counts := map[];
      order := [];
    }

    /** `leaderboard[name] += 1`. */
    method Increment(name: string)
      modifies this
      ensures Snapshot() == Bump(old(Snapshot()), name)
      ensures old(Valid()) ==> Valid()
    {
      var current := if name in counts then counts[name] else 0;
      if name !in counts {
        order := order + [name];
      }
      counts := counts[name := current + 1];
    }

    /** `for name in names: leaderboard[name] += 1`. */
    method IncrementAll(names: seq<string>)
      modifies this
      ensures Snapshot() == AddAll(old(Snapshot()), names)
      ensures old(Valid()) ==> Valid()
    {
      for j := 0 to |names|
        invariant Snapshot() == AddAll(old(Snapshot()), names[..j])
        invariant old(Valid()) ==> Valid()
      {
        assert names[..j + 1][..j] == names[..j];
        Increment(names[j]);
      }
      assert names[..|names|] == names;
    }
  }
}
