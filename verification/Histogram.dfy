/** The control plane's histograms: observations kept per bucket and rendered cumulatively. Values are reals. */
module Histogram {
  // ----- Counting observations -----

  predicate Ascending(s: seq<real>) { forall i, j | 0 <= i < j < |s| :: s[i] <= s[j] }

  /** The first bucket whose bound is not below `v`; one past the last bound when there is none. */
  function FirstBucket(bounds: seq<real>, v: real): (r: nat)
    ensures r <= |bounds|
    ensures forall j | 0 <= j < r :: bounds[j] < v
    ensures r < |bounds| ==> v <= bounds[r]
  {
    if bounds == [] || v <= bounds[0] then 0 else 1 + FirstBucket(bounds[1..], v)
  }

  /** What a scraper is promised: the number of observations that are at most `bound`. */
  function CountAtMost(obs: seq<real>, bound: real): nat {
    if obs == [] then 0
    else CountAtMost(obs[..|obs| - 1], bound) + (if obs[|obs| - 1] <= bound then 1 else 0)
  }

  function CountIn(obs: seq<real>, bounds: seq<real>, bucket: nat): nat {
    if obs == [] then 0
    else CountIn(obs[..|obs| - 1], bounds, bucket) + (if FirstBucket(bounds, obs[|obs| - 1]) == bucket then 1 else 0)
  }

  function CountBelow(obs: seq<real>, bounds: seq<real>, n: nat): nat {
    if obs == [] then 0
    else CountBelow(obs[..|obs| - 1], bounds, n) + (if FirstBucket(bounds, obs[|obs| - 1]) < n then 1 else 0)
  }

  function Total(obs: seq<real>): real {
    if obs == [] then 0.0 else Total(obs[..|obs| - 1]) + obs[|obs| - 1]
  }

  lemma {:induction false} OneMoreBucket(obs: seq<real>, bounds: seq<real>, n: nat)
    ensures CountBelow(obs, bounds, n + 1) == CountBelow(obs, bounds, n) + CountIn(obs, bounds, n)
  {
    if obs != [] {
      OneMoreBucket(obs[..|obs| - 1], bounds, n);
    }
  }

  lemma {:induction false} NoBucket(obs: seq<real>, bounds: seq<real>)
    ensures CountBelow(obs, bounds, 0) == 0
  {
    if obs != [] {
      NoBucket(obs[..|obs| - 1], bounds);
    }
  }

  /** Being in one of the buckets up to `i` is being at most its bound. */
  lemma {:induction false} BelowIsAtMost(obs: seq<real>, bounds: seq<real>, i: nat)
    requires Ascending(bounds) && i <= |bounds|
    ensures i < |bounds| ==> CountBelow(obs, bounds, i + 1) == CountAtMost(obs, bounds[i])
    ensures i == |bounds| ==> CountBelow(obs, bounds, i + 1) == |obs|
  {
    if obs != [] {
      BelowIsAtMost(obs[..|obs| - 1], bounds, i);
      var v := obs[|obs| - 1];
      if i < |bounds| { assert FirstBucket(bounds, v) <= i <==> v <= bounds[i]; }
    }
  }

  // ----- The registry -----

  /** Sorted as the standard library sorts. */
  function Insert(s: seq<real>, v: real): seq<real> {
    if s == [] || v <= s[0] then [v] + s else [s[0]] + Insert(s[1..], v)
  }

  function Sort(s: seq<real>): seq<real> {
    if s == [] then [] else Insert(Sort(s[1..]), s[0])
  }

  lemma AscendingCons(x: real, rest: seq<real>)
    requires Ascending(rest) && (rest != [] ==> x <= rest[0])
    ensures Ascending([x] + rest)
  {
  }

  lemma {:induction false} InsertSorts(s: seq<real>, v: real)
    requires Ascending(s)
    ensures Ascending(Insert(s, v))
    ensures Insert(s, v) != [] && (Insert(s, v)[0] == v || (s != [] && Insert(s, v)[0] == s[0]))
  {
    if s == [] || v <= s[0] {
      AscendingCons(v, s);
    } else {
      InsertSorts(s[1..], v);
      AscendingCons(s[0], Insert(s[1..], v));
    }
  }

  lemma {:induction false} InsertKeeps(s: seq<real>, v: real)
    ensures multiset(Insert(s, v)) == multiset(s) + multiset{v}
  {
    if s != [] && v > s[0] {
      InsertKeeps(s[1..], v);
      assert s == [s[0]] + s[1..];
    }
  }

  lemma {:induction false} SortSorts(s: seq<real>)
    ensures Ascending(Sort(s)) && multiset(Sort(s)) == multiset(s)
  {
    if s != [] {
      SortSorts(s[1..]);
      InsertSorts(Sort(s[1..]), s[0]);
      InsertKeeps(Sort(s[1..]), s[0]);
      assert s == [s[0]] + s[1..];
    }
  }

  /** `counts` has one entry per bucket and one more for what exceeds every bound. */
  datatype Series = Series(count: nat, sum: real, counts: seq<nat>)

  /** One series of one histogram. */
  datatype Id = Id(name: string, labels: string)

  datatype Sample = Sample(id: Id, value: real)

  function ValuesOf(history: seq<Sample>, id: Id): seq<real> {
    if history == [] then []
    else ValuesOf(history[..|history| - 1], id) + (if history[|history| - 1].id == id then [history[|history| - 1].value] else [])
  }

  ghost predicate Agrees(s: Series, bounds: seq<real>, obs: seq<real>) {
    && s.count == |obs| && s.sum == Total(obs) && |s.counts| == |bounds| + 1
    && forall i | 0 <= i < |s.counts| :: s.counts[i] == CountIn(obs, bounds, i)
  }

  lemma OneMoreAgrees(s: Series, bounds: seq<real>, obs: seq<real>, v: real)
    requires Agrees(s, bounds, obs)
    ensures var b := FirstBucket(bounds, v);
      Agrees(Series(s.count + 1, s.sum + v, s.counts[b := s.counts[b] + 1]), bounds, obs + [v])
  {
    assert (obs + [v])[..|obs|] == obs;
  }

  /** Every series counts the observations of its own id, and every observation has a series. */
  ghost predicate AllAgree(buckets: map<string, seq<real>>, histograms: map<Id, Series>, history: seq<Sample>) {
    && (forall id | id in histograms :: id.name in buckets && Agrees(histograms[id], buckets[id.name], ValuesOf(history, id)))
    && (forall i | 0 <= i < |history| :: history[i].id in histograms)
  }

  lemma ObservedAgrees(
      buckets: map<string, seq<real>>, histograms: map<Id, Series>, history: seq<Sample>, id: Id, value: real, series: Series)
    requires AllAgree(buckets, histograms, history) && id.name in buckets
    requires Agrees(series, buckets[id.name], ValuesOf(history, id) + [value])
    ensures AllAgree(buckets, histograms[id := series], history + [Sample(id, value)])
  {
    var histograms', history' := histograms[id := series], history + [Sample(id, value)];
    forall other | other in histograms'
      ensures other.name in buckets && Agrees(histograms'[other], buckets[other.name], ValuesOf(history', other))
    {
      SampleAdded(history, Sample(id, value), other);
    }
    forall i | 0 <= i < |history'| ensures history'[i].id in histograms' {
      if i < |history| { assert history[i].id in histograms; }
    }
  }

  class Registry {
    var buckets: map<string, seq<real>>
    var histograms: map<Id, Series>
    /** Every observation that was taken. */
    ghost var history: seq<Sample>

    ghost predicate Valid() reads this {
      (forall name | name in buckets :: Ascending(buckets[name])) && AllAgree(buckets, histograms, history)
    }

    constructor ()
      ensures Valid() && history == [] && buckets == map[]
    {
      buckets, histograms, history := map[], map[], [];
    }

    /** Sorts the bounds. Registering a name again with other bounds while it has observations leaves series whose
        counts belong to the earlier bounds; the registry's own constructor registers every name once. */
    method RegisterHistogram(name: string, bounds: seq<real>)
      requires Valid()
      modifies this
      ensures name in buckets && Ascending(buckets[name]) && multiset(buckets[name]) == multiset(bounds)
      ensures buckets == old(buckets)[name := buckets[name]] && histograms == old(histograms) && history == old(history)
      ensures (forall id | id in histograms :: id.name != name) || buckets == old(buckets) ==> Valid()
    {
      SortSorts(bounds);
      buckets := buckets[name := Sort(bounds)];
    }

    method Bucket(bounds: seq<real>, value: real) returns (bucket: nat)
      ensures bucket == FirstBucket(bounds, value)
    {
      for i := 0 to |bounds|
        invariant forall j | 0 <= j < i :: bounds[j] < value
      {
        if value <= bounds[i] {
          return i;
        }
      }
      return |bounds|;
    }

    /** Observations of an unregistered name are dropped. */
    method ObserveHistogram(id: Id, value: real)
      requires Valid()
      modifies this
      ensures Valid() && buckets == old(buckets)
      ensures history == old(history) + (if id.name in buckets then [Sample(id, value)] else [])
    {
      if id.name !in buckets {
        return;
      }
      var bounds := buckets[id.name];
      NewSeriesAgrees(bounds, id);
      var series := if id in histograms then histograms[id] else Series(0, 0.0, seq(|bounds| + 1, i => 0));
      var bucket := Bucket(bounds, value);
      OneMoreAgrees(series, bounds, ValuesOf(history, id), value);
      series := Series(series.count + 1, series.sum + value, series.counts[bucket := series.counts[bucket] + 1]);
      ObservedAgrees(buckets, histograms, history, id, value, series);
      histograms := histograms[id := series];
      history := history + [Sample(id, value)];
    }

    lemma NewSeriesAgrees(bounds: seq<real>, id: Id)
      requires Valid()
      ensures id !in histograms ==> ValuesOf(history, id) == [] && Agrees(Series(0, 0.0, seq(|bounds| + 1, i => 0)), bounds, [])
    {
      if id !in histograms { NoValues(history, id); }
    }

    /** The cumulative values a scrape renders for one series, one per bound and the last for +Inf. */
    method RenderBuckets(id: Id) returns (rendered: seq<nat>)
      requires Valid() && id in histograms
      ensures |rendered| == |buckets[id.name]| + 1
      ensures forall i | 0 <= i < |buckets[id.name]| ::
        rendered[i] == CountAtMost(ValuesOf(history, id), buckets[id.name][i])
      ensures rendered[|rendered| - 1] == histograms[id].count == |ValuesOf(history, id)|
      ensures forall i, j | 0 <= i < j < |rendered| :: rendered[i] <= rendered[j]
    {
      var counts, cumulative := histograms[id].counts, 0;
      rendered := [];
      for i := 0 to |counts|
        invariant |rendered| == i && cumulative == SumTo(counts, i)
        invariant forall j | 0 <= j < i :: rendered[j] == SumTo(counts, j + 1)
      {
        cumulative := cumulative + counts[i];
        rendered := rendered + [cumulative];
      }
      RenderedCounts(histograms[id], buckets[id.name], ValuesOf(history, id), rendered);
    }
  }

  function SumTo(counts: seq<nat>, n: nat): nat
    requires n <= |counts|
  {
    if n == 0 then 0 else SumTo(counts, n - 1) + counts[n - 1]
  }

  lemma {:induction false} SumToGrows(counts: seq<nat>, m: nat, n: nat)
    requires m <= n <= |counts|
    ensures SumTo(counts, m) <= SumTo(counts, n)
  {
    if m < n {
      SumToGrows(counts, m, n - 1);
    }
  }

  /** The sum over the first buckets is the number of observations in them. */
  lemma {:induction false} SumIsCount(s: Series, bounds: seq<real>, obs: seq<real>, n: nat)
    requires Agrees(s, bounds, obs) && n <= |s.counts|
    ensures SumTo(s.counts, n) == CountBelow(obs, bounds, n)
  {
    if n == 0 {
      NoBucket(obs, bounds);
    } else {
      SumIsCount(s, bounds, obs, n - 1);
      OneMoreBucket(obs, bounds, n - 1);
    }
  }

  lemma RenderedCounts(s: Series, bounds: seq<real>, obs: seq<real>, rendered: seq<nat>)
    requires Agrees(s, bounds, obs) && Ascending(bounds) && |rendered| == |s.counts|
    requires forall i | 0 <= i < |rendered| :: rendered[i] == SumTo(s.counts, i + 1)
    ensures forall i | 0 <= i < |bounds| :: rendered[i] == CountAtMost(obs, bounds[i])
    ensures rendered[|rendered| - 1] == |obs|
    ensures forall i, j | 0 <= i < j < |rendered| :: rendered[i] <= rendered[j]
  {
    forall i | 0 <= i <= |bounds|
      ensures i < |bounds| ==> rendered[i] == CountAtMost(obs, bounds[i])
      ensures i == |bounds| ==> rendered[i] == |obs|
    {
      SumIsCount(s, bounds, obs, i + 1);
      BelowIsAtMost(obs, bounds, i);
    }
    forall i, j | 0 <= i < j < |rendered| ensures rendered[i] <= rendered[j] { SumToGrows(s.counts, i + 1, j + 1); }
  }

  lemma {:induction false} NoValues(history: seq<Sample>, id: Id)
    requires forall i | 0 <= i < |history| :: history[i].id != id
    ensures ValuesOf(history, id) == []
  {
    if history != [] {
      NoValues(history[..|history| - 1], id);
    }
  }

  lemma SampleAdded(history: seq<Sample>, s: Sample, id: Id)
    ensures ValuesOf(history + [s], id) == if id == s.id then ValuesOf(history, id) + [s.value] else ValuesOf(history, id)
  {
    assert (history + [s])[..|history|] == history;
  }
}
