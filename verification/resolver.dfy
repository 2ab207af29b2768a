/**
 * The batch half of PriceServiceImpl.updatePrices: the stream pipeline that
 * drops unsupported prices, sorts the rest by id (ascending, stable) and
 * keeps the first price per instrument (distinctByKey).
 */
module Resolver {
  import opened Wrappers
  import opened Instruments
  import opened Prices

  /** The first price in `ps` whose instrument is `k`, if any. */
  function FirstWith(ps: seq<Price>, k: Option<Instrument>): (r: Option<Price>)
    ensures r.Some? ==> r.value in ps && r.value.instrumentName == k
    ensures r.Some? ==> exists j :: 0 <= j < |ps| && ps[j] == r.value && forall j' :: 0 <= j' < j ==> ps[j'].instrumentName != k
    ensures r.None? <==> forall p :: p in ps ==> p.instrumentName != k
  {
    if |ps| == 0 then None
    else if ps[0].instrumentName == k then Some(ps[0])
    else FirstWith(ps[1..], k)
  }

  // ---------------------------------------------------------------------------
  // The reference: which candidate the pipeline keeps, stated without sorting.

  /**
   * `p` if it is for `k` and its id does not exceed that of the current
   * choice `f`; otherwise `f`.
   */
  function Prefer(p: Price, f: Option<Price>, k: Option<Instrument>): Option<Price>
  {
    if p.instrumentName == k && (f.None? || p.id <= f.value.id) then Some(p) else f
  }

  /**
   * Among the prices of `ps` for instrument `i`, the one with the lowest id,
   * the earliest in `ps` on a tie.
   */
  function Lowest(ps: seq<Price>, i: Instrument): (r: Option<Price>)
    ensures r.Some? ==> r.value in ps && r.value.instrumentName == Some(i)
    ensures r.None? <==> forall p :: p in ps ==> p.instrumentName != Some(i)
    ensures r.Some? ==> forall p :: p in ps && p.instrumentName == Some(i) ==> r.value.id <= p.id
  {
    if |ps| == 0 then None
    else
      assert forall p :: p in ps ==> p == ps[0] || p in ps[1..];
      Prefer(ps[0], Lowest(ps[1..], i), Some(i))
  }

  /**
   * `ps[k]` is the candidate the pipeline keeps for `i`: no price for `i`
   * has a smaller id, and every price for `i` before it has a larger one.
   */
  ghost predicate IsLowestEarliest(ps: seq<Price>, i: Instrument, k: int)
  {
    && 0 <= k < |ps|
    && ps[k].instrumentName == Some(i)
    && (forall j :: 0 <= j < |ps| && ps[j].instrumentName == Some(i) ==> ps[k].id <= ps[j].id)
    && (forall j :: 0 <= j < k && ps[j].instrumentName == Some(i) ==> ps[k].id < ps[j].id)
  }

  /** Lowest picks the earliest of the lowest-id candidates. */
  lemma {:induction false} LowestIsEarliest(ps: seq<Price>, i: Instrument)
    requires Lowest(ps, i).Some?
    ensures exists k :: IsLowestEarliest(ps, i, k) && ps[k] == Lowest(ps, i).value
    decreases |ps|
  {
    var tail := ps[1..];
    var rest := Lowest(tail, i);
    if ps[0].instrumentName == Some(i) && (rest.None? || ps[0].id <= rest.value.id) {
      HeadIsLowestEarliest(ps, i);
    } else {
      LowestIsEarliest(tail, i);
      var k :| IsLowestEarliest(tail, i, k) && tail[k] == rest.value;
      TailIsLowestEarliest(ps, i, k);
    }
  }

  lemma HeadIsLowestEarliest(ps: seq<Price>, i: Instrument)
    requires |ps| > 0 && ps[0].instrumentName == Some(i)
    requires Lowest(ps[1..], i).None? || ps[0].id <= Lowest(ps[1..], i).value.id
    ensures IsLowestEarliest(ps, i, 0)
  {
    var tail := ps[1..];
    forall j | 0 < j < |ps| && ps[j].instrumentName == Some(i) ensures ps[0].id <= ps[j].id {
      assert ps[j] == tail[j - 1];
      assert ps[j] in tail;
    }
  }

  lemma TailIsLowestEarliest(ps: seq<Price>, i: Instrument, k: int)
    requires |ps| > 0 && IsLowestEarliest(ps[1..], i, k)
    requires ps[0].instrumentName == Some(i) ==> ps[k + 1].id < ps[0].id
    ensures IsLowestEarliest(ps, i, k + 1)
  {
    var tail := ps[1..];
    forall j | 0 < j < |ps| ensures ps[j] == tail[j - 1] {
    }
  }

  /** The candidate for `i` singled out by IsLowestEarliest is unique. */
  lemma LowestEarliestUnique(ps: seq<Price>, i: Instrument, k1: int, k2: int)
    requires IsLowestEarliest(ps, i, k1) && IsLowestEarliest(ps, i, k2)
    ensures k1 == k2
  {
  }

  /**
   * A candidate for `i` whose id is below that of every other candidate
   * for `i` is the one Lowest picks, wherever it sits in the batch.
   */
  lemma LowestOfStrictMinimum(ps: seq<Price>, i: Instrument, q: Price)
    requires q in ps && q.instrumentName == Some(i)
    requires forall p :: p in ps && p.instrumentName == Some(i) && p != q ==> q.id < p.id
    ensures Lowest(ps, i) == Some(q)
  {
    var r := Lowest(ps, i);
    assert r.Some? && r.value in ps && r.value.instrumentName == Some(i) && r.value.id <= q.id;
  }

  // ---------------------------------------------------------------------------
  // Step 1: .filter(p -> InstrumentName.contains(p.getInstrumentName()))

  function Supported(ps: seq<Price>): (r: seq<Price>)
    ensures forall p :: p in r <==> p in ps && p.instrumentName.Some?
    ensures |r| <= |ps|
  {
    if |ps| == 0 then []
    else
      var rest := Supported(ps[1..]);
      assert forall p :: p in ps <==> p == ps[0] || p in ps[1..];
      if Contains(ps[0].instrumentName) then [ps[0]] + rest else rest
  }

  /** The filter keeps order: filtering a concatenation concatenates the filtered parts. */
  lemma {:induction false} SupportedAppend(a: seq<Price>, b: seq<Price>)
    ensures Supported(a + b) == Supported(a) + Supported(b)
    decreases |a|
  {
    if |a| > 0 {
      assert (a + b)[0] == a[0] && (a + b)[1..] == a[1..] + b;
      SupportedAppend(a[1..], b);
    } else {
      assert a + b == b;
    }
  }

  /** The filter keeps a single price iff it has an instrument. */
  lemma SupportedSingle(p: Price)
    ensures Supported([p]) == if p.instrumentName.Some? then [p] else []
  {
    assert [p][1..] == [];
  }

  /** Filtering out unsupported prices does not change any instrument's candidate. */
  lemma {:induction false} LowestOfSupported(ps: seq<Price>, i: Instrument)
    ensures Lowest(Supported(ps), i) == Lowest(ps, i)
    decreases |ps|
  {
    if |ps| > 0 {
      LowestOfSupported(ps[1..], i);
      if Contains(ps[0].instrumentName) {
        assert ([ps[0]] + Supported(ps[1..]))[1..] == Supported(ps[1..]);
      }
    }
  }

  // ---------------------------------------------------------------------------
  // Step 2: .sorted(Comparator.comparingInt(Price::getId)), a stable sort

  predicate SortedById(ps: seq<Price>)
  {
    forall i, j :: 0 <= i < j < |ps| ==> ps[i].id <= ps[j].id
  }

  /** Inserts `p` ahead of the first price whose id is not smaller. */
  function Insert(p: Price, ps: seq<Price>): seq<Price>
  {
    if |ps| == 0 || p.id <= ps[0].id then [p] + ps
    else [ps[0]] + Insert(p, ps[1..])
  }

  /** Insertion adds exactly `p`. */
  lemma {:induction false} InsertPermutes(p: Price, ps: seq<Price>)
    ensures multiset(Insert(p, ps)) == multiset(ps) + multiset{p}
    decreases |ps|
  {
    if |ps| > 0 && p.id > ps[0].id {
      InsertPermutes(p, ps[1..]);
      assert ps == [ps[0]] + ps[1..];
    }
  }

  /** A bound below `p` and every price of `ps` stays below every price after insertion. */
  lemma {:induction false} InsertLowerBound(p: Price, ps: seq<Price>, bound: int)
    requires bound <= p.id
    requires forall j :: 0 <= j < |ps| ==> bound <= ps[j].id
    ensures forall j :: 0 <= j < |Insert(p, ps)| ==> bound <= Insert(p, ps)[j].id
    decreases |ps|
  {
    if |ps| > 0 && p.id > ps[0].id {
      var tail := ps[1..];
      assert forall j :: 0 <= j < |tail| ==> tail[j] == ps[j + 1];
      InsertLowerBound(p, tail, bound);
      var rest := Insert(p, tail);
      var r := [ps[0]] + rest;
      assert forall j :: 0 < j < |r| ==> r[j] == rest[j - 1];
    }
  }

  /** Insertion into a sorted list keeps it sorted. */
  lemma {:induction false} InsertSorted(p: Price, ps: seq<Price>)
    requires SortedById(ps)
    ensures SortedById(Insert(p, ps))
    decreases |ps|
  {
    if |ps| == 0 || p.id <= ps[0].id {
      var r := [p] + ps;
      forall a, b | 0 <= a < b < |r| ensures r[a].id <= r[b].id {
        assert r[b] == ps[b - 1];
        if a > 0 {
          assert r[a] == ps[a - 1];
        }
      }
    } else {
      var tail := ps[1..];
      assert SortedById(tail);
      InsertSorted(p, tail);
      InsertLowerBound(p, tail, ps[0].id);
      var rest := Insert(p, tail);
      var r := [ps[0]] + rest;
      forall a, b | 0 <= a < b < |r| ensures r[a].id <= r[b].id {
        assert r[b] == rest[b - 1];
        if a > 0 {
          assert r[a] == rest[a - 1];
        }
      }
    }
  }

  /**
   * Insertion sort by id. An earlier price is inserted ahead of every later
   * price with the same id, so prices with equal ids keep their batch order,
   * as the stream sort of an ordered list does.
   */
  function SortById(ps: seq<Price>): seq<Price>
  {
    if |ps| == 0 then [] else Insert(ps[0], SortById(ps[1..]))
  }

  /** The sort orders by id. */
  lemma {:induction false} SortByIdSorted(ps: seq<Price>)
    ensures SortedById(SortById(ps))
    decreases |ps|
  {
    if |ps| > 0 {
      SortByIdSorted(ps[1..]);
      InsertSorted(ps[0], SortById(ps[1..]));
    }
  }

  /** The sort is a permutation of its input. */
  lemma {:induction false} SortByIdPermutes(ps: seq<Price>)
    ensures multiset(SortById(ps)) == multiset(ps)
    decreases |ps|
  {
    if |ps| > 0 {
      SortByIdPermutes(ps[1..]);
      InsertPermutes(ps[0], SortById(ps[1..]));
      assert ps == [ps[0]] + ps[1..];
    }
  }

  /** The first price for `k` after an insertion into a sorted list. */
  lemma {:induction false} FirstWithInsert(p: Price, ps: seq<Price>, k: Option<Instrument>)
    requires SortedById(ps)
    ensures FirstWith(Insert(p, ps), k) == Prefer(p, FirstWith(ps, k), k)
    decreases |ps|
  {
    var f := FirstWith(ps, k);
    if |ps| == 0 || p.id <= ps[0].id {
      var r := [p] + ps;
      assert r[1..] == ps;
      if p.instrumentName == k && f.Some? {
        var j :| 0 <= j < |ps| && ps[j] == f.value;
        assert ps[0].id <= ps[j].id;
      }
    } else {
      var tail := ps[1..];
      var rest := Insert(p, tail);
      var r := [ps[0]] + rest;
      assert r[1..] == rest;
      if ps[0].instrumentName != k {
        assert SortedById(tail);
        FirstWithInsert(p, tail, k);
      }
    }
  }

  /**
   * Stability plus ascending order: the first price for `i` in the sorted
   * list is the lowest-id, earliest candidate of the unsorted list.
   */
  lemma {:induction false} FirstWithSorted(ps: seq<Price>, i: Instrument)
    ensures FirstWith(SortById(ps), Some(i)) == Lowest(ps, i)
    decreases |ps|
  {
    if |ps| > 0 {
      FirstWithSorted(ps[1..], i);
      SortByIdSorted(ps[1..]);
      FirstWithInsert(ps[0], SortById(ps[1..]), Some(i));
    }
  }

  // ---------------------------------------------------------------------------
  // Step 3: .filter(distinctByKey(p -> p.getInstrumentName()))

  /**
   * The stateful distinctByKey predicate applied in encounter order: `seen`
   * is the set of keys putIfAbsent has recorded so far; a price passes iff
   * its key was not yet recorded.
   */
  function DistinctByInstrument(ps: seq<Price>, seen: set<Option<Instrument>>): (r: seq<Price>)
    ensures forall i, j :: 0 <= i < j < |r| ==> r[i].instrumentName != r[j].instrumentName
    ensures forall q :: q in r ==> q in ps && q.instrumentName !in seen
    ensures forall k :: FirstWith(r, k) == if k in seen then None else FirstWith(ps, k)
  {
    if |ps| == 0 then []
    else if ps[0].instrumentName in seen then DistinctByInstrument(ps[1..], seen)
    else
      var rest := DistinctByInstrument(ps[1..], seen + {ps[0].instrumentName});
      assert ([ps[0]] + rest)[1..] == rest;
      [ps[0]] + rest
  }

  // ---------------------------------------------------------------------------
  // The whole pipeline (lines 84-88)

  /** The prices updatePrices offers to the store, in the order it offers them. */
  function Resolve(ps: seq<Price>): (r: seq<Price>)
    ensures forall q :: q in r ==> q in ps && q.instrumentName.Some?
    ensures forall i, j :: 0 <= i < j < |r| ==> r[i].instrumentName != r[j].instrumentName
    ensures FirstWith(r, None) == None
    ensures forall i :: FirstWith(r, Some(i)) == Lowest(ps, i)
  {
    var supported := Supported(ps);
    var sorted := SortById(supported);
    SortedFromSupported(ps);
    ResolvePicksLowest(ps);
    DistinctByInstrument(sorted, {})
  }

  lemma SortedFromSupported(ps: seq<Price>)
    ensures forall q :: q in SortById(Supported(ps)) ==> q in ps && q.instrumentName.Some?
  {
    var sorted := SortById(Supported(ps));
    SortByIdPermutes(Supported(ps));
    forall q | q in sorted ensures q in Supported(ps) {
      assert q in multiset(sorted);
    }
  }

  lemma ResolvePicksLowest(ps: seq<Price>)
    ensures forall i :: FirstWith(SortById(Supported(ps)), Some(i)) == Lowest(ps, i)
  {
    forall i ensures FirstWith(SortById(Supported(ps)), Some(i)) == Lowest(ps, i) {
      FirstWithSorted(Supported(ps), i);
      LowestOfSupported(ps, i);
    }
  }

  /** Every whitelisted instrument with a candidate in the batch is offered exactly once. */
  lemma ResolveCoversBatch(ps: seq<Price>, i: Instrument)
    ensures (exists q :: q in Resolve(ps) && q.instrumentName == Some(i)) <==>
            (exists p :: p in ps && p.instrumentName == Some(i))
  {
    var r := Resolve(ps);
    assert FirstWith(r, Some(i)) == Lowest(ps, i);
  }

  /**
   * The offered candidate for an instrument is its lowest-id candidate, the
   * earliest on a tie, and not the highest-id one the Javadoc describes.
   */
  lemma ResolveKeepsLowest(ps: seq<Price>, q: Price)
    requires q in Resolve(ps)
    ensures q.instrumentName.Some?
    ensures exists k :: IsLowestEarliest(ps, q.instrumentName.value, k) && ps[k] == q
  {
    var i := q.instrumentName.value;
    var r := Resolve(ps);
    var n :| 0 <= n < |r| && r[n] == q;
    assert FirstWith(r, Some(i)) == Some(q) by {
      FirstWithIsUnique(r, n);
    }
    LowestIsEarliest(ps, i);
  }

  /** In a list with one price per instrument, each price is the first with its instrument. */
  lemma {:induction false} FirstWithIsUnique(r: seq<Price>, n: int)
    requires 0 <= n < |r|
    requires forall i, j :: 0 <= i < j < |r| ==> r[i].instrumentName != r[j].instrumentName
    ensures FirstWith(r, r[n].instrumentName) == Some(r[n])
    decreases n
  {
    if n > 0 {
      assert r[0].instrumentName != r[n].instrumentName;
      FirstWithIsUnique(r[1..], n - 1);
    }
  }
}
