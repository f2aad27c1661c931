/**
 Histogram statistics of backend/config/metrics.js: percentiles read off a sorted copy of the recorded
 values, and the `name:tags` keys that getAllMetrics takes apart again.  Numbers are reals; a fraction
 of the count is taken exactly.
 */
module Histogram {
  import opened Wrappers

  datatype Stats = Stats(count: nat, sum: real, avg: real, min: real, max: real, p50: real, p95: real, p99: real)

  const NO_STATS := Stats(0, 0.0, 0.0, 0.0, 0.0, 0.0, 0.0, 0.0)

  // ---------- sorting ----------

  predicate IsSorted(s: seq<real>) {
    forall i, j | 0 <= i < j < |s| :: s[i] <= s[j]
  }

  function Insert(x: real, s: seq<real>): (r: seq<real>)
    ensures multiset(r) == multiset(s) + multiset{x}
  {
    if s == [] || x <= s[0] then [x] + s
    else
      assert s == [s[0]] + s[1..];
      [s[0]] + Insert(x, s[1..])
  }

  // The copy that values.sort((a, b) => a - b) makes; sorted permutations are unique, see SortedUnique.
  function Sort(s: seq<real>): (r: seq<real>)
    ensures multiset(r) == multiset(s) && |r| == |s|
  {
    if s == [] then []
    else
      assert s == [s[0]] + s[1..];
      var r := Insert(s[0], Sort(s[1..]));
      assert |multiset(r)| == |r| && |multiset(s)| == |s|;
      r
  }

  lemma {:induction false} InsertMembers(x: real, s: seq<real>)
    ensures forall i | 0 <= i < |Insert(x, s)| :: Insert(x, s)[i] == x || Insert(x, s)[i] in s
  {
    if !(s == [] || x <= s[0]) {
      InsertMembers(x, s[1..]);
    }
  }

  lemma {:induction false} InsertSorted(x: real, s: seq<real>)
    requires IsSorted(s)
    ensures IsSorted(Insert(x, s))
  {
    if !(s == [] || x <= s[0]) {
      InsertSorted(x, s[1..]);
      InsertMembers(x, s[1..]);
    }
  }

  lemma {:induction false} SortSorted(s: seq<real>)
    ensures IsSorted(Sort(s))
  {
    if s != [] {
      SortSorted(s[1..]);
      InsertSorted(s[0], Sort(s[1..]));
    }
  }

  lemma HeadIsLeast(s: seq<real>, x: real)
    requires IsSorted(s) && x in s
    ensures s[0] <= x
  {
  }

  lemma SameHead(a: seq<real>, b: seq<real>)
    requires IsSorted(a) && IsSorted(b) && multiset(a) == multiset(b) && a != []
    ensures b != [] && a[0] == b[0]
  {
    assert a[0] in multiset(b);
    assert b[0] in multiset(a);
    HeadIsLeast(a, b[0]);
    HeadIsLeast(b, a[0]);
  }

  lemma SameTail(a: seq<real>, b: seq<real>)
    requires a != [] && b != [] && a[0] == b[0] && multiset(a) == multiset(b)
    ensures multiset(a[1..]) == multiset(b[1..])
  {
    assert a == [a[0]] + a[1..] && b == [b[0]] + b[1..];
    assert multiset(a[1..]) == multiset(a) - multiset{a[0]};
    assert multiset(b[1..]) == multiset(b) - multiset{b[0]};
  }

  // Whatever the sorting algorithm, there is one result.
  lemma {:induction false} SortedUnique(a: seq<real>, b: seq<real>)
    requires IsSorted(a) && IsSorted(b) && multiset(a) == multiset(b)
    ensures a == b
  {
    if a == [] {
      assert |multiset(b)| == |b|;
    } else {
      SameHead(a, b);
      SameTail(a, b);
      SortedUnique(a[1..], b[1..]);
      assert a == [a[0]] + a[1..] && b == [b[0]] + b[1..];
    }
  }

  lemma SortMembers(s: seq<real>)
    ensures forall x :: x in s <==> x in Sort(s)
  {
    forall x
      ensures x in s <==> x in Sort(s)
    {
      assert x in s <==> x in multiset(s);
      assert x in Sort(s) <==> x in multiset(Sort(s));
    }
  }

  // ---------- statistics ----------

  function Sum(s: seq<real>): real {
    if s == [] then 0.0 else Sum(s[..|s| - 1]) + s[|s| - 1]
  }

  // sorted[Math.floor(count * percent / 100)]
  function Percentile(values: seq<real>, percent: nat): real
    requires values != [] && percent < 100
  {
    RankInRange(|values|, percent);
    Sort(values)[|values| * percent / 100]
  }

  function StatsOf(values: seq<real>): Stats {
    if values == [] then NO_STATS
    else
      var n, sorted, sum := |values|, Sort(values), Sum(values);
      Stats(n, sum, sum / n as real, sorted[0], sorted[n - 1],
            Percentile(values, 50), Percentile(values, 95), Percentile(values, 99))
  }

  function CountAtMost(s: seq<real>, x: real): nat {
    if s == [] then 0 else CountAtMost(s[1..], x) + if s[0] <= x then 1 else 0
  }

  function CountAtLeast(s: seq<real>, x: real): nat {
    if s == [] then 0 else CountAtLeast(s[1..], x) + if s[0] >= x then 1 else 0
  }

  lemma {:induction false} CountInsert(y: real, s: seq<real>, x: real)
    ensures CountAtMost(Insert(y, s), x) == CountAtMost(s, x) + if y <= x then 1 else 0
    ensures CountAtLeast(Insert(y, s), x) == CountAtLeast(s, x) + if y >= x then 1 else 0
  {
    var r := Insert(y, s);
    if s == [] || y <= s[0] {
      assert r[1..] == s;
    } else {
      CountInsert(y, s[1..], x);
      assert r[1..] == Insert(y, s[1..]);
    }
  }

  lemma {:induction false} CountSort(s: seq<real>, x: real)
    ensures CountAtMost(Sort(s), x) == CountAtMost(s, x)
    ensures CountAtLeast(Sort(s), x) == CountAtLeast(s, x)
  {
    if s != [] {
      CountSort(s[1..], x);
      CountInsert(s[0], Sort(s[1..]), x);
    }
  }

  lemma {:induction false} CountSorted(s: seq<real>, k: nat, x: real)
    requires IsSorted(s) && k < |s|
    ensures s[k] <= x ==> CountAtMost(s, x) >= k + 1
    ensures s[k] >= x ==> CountAtLeast(s, x) >= |s| - k
  {
    if k > 0 {
      CountSorted(s[1..], k - 1, x);
    } else if s[0] >= x {
      AllAtLeast(s, x);
    }
  }

  lemma {:induction false} AllAtLeast(s: seq<real>, x: real)
    requires forall i | 0 <= i < |s| :: s[i] >= x
    ensures CountAtLeast(s, x) == |s|
  {
    if s != [] {
      AllAtLeast(s[1..], x);
    }
  }

  // A percentile has its rank: more than percent of the values are at most it, and the rest and itself
  // are at least it.
  lemma PercentileRank(values: seq<real>, percent: nat)
    requires values != [] && percent < 100
    ensures var k := |values| * percent / 100;
      && k < |values|
      && Percentile(values, percent) in values
      && CountAtMost(values, Percentile(values, percent)) >= k + 1
      && CountAtLeast(values, Percentile(values, percent)) >= |values| - k
  {
    hide Sort, CountAtMost, CountAtLeast, IsSorted;
    RankInRange(|values|, percent);
    var k := |values| * percent / 100;
    var p := Sort(values)[k];
    SortSorted(values);
    CountSorted(Sort(values), k, p);
    CountSort(values, p);
    SortMembers(values);
  }

  lemma RankInRange(n: nat, percent: nat)
    requires n > 0 && percent < 100
    ensures 0 <= n * percent / 100 < n
  {
    assert n * percent < n * 100;
  }

  lemma {:induction false} SumBetween(s: seq<real>, lo: real, hi: real)
    requires forall i | 0 <= i < |s| :: lo <= s[i] <= hi
    ensures |s| as real * lo <= Sum(s) <= |s| as real * hi
  {
    if s != [] {
      SumBetween(s[..|s| - 1], lo, hi);
    }
  }

  lemma PercentilesInOrder(s: seq<real>)
    requires IsSorted(s) && s != []
    ensures var n := |s|;
      && 0 <= n * 50 / 100 <= n * 95 / 100 <= n * 99 / 100 < n
      && s[0] <= s[n * 50 / 100] <= s[n * 95 / 100] <= s[n * 99 / 100] <= s[n - 1]
  {
  }

  lemma ExtremesAreValues(values: seq<real>)
    requires values != []
    ensures var s := Sort(values);
      s[0] in values && s[|s| - 1] in values && forall v | v in values :: s[0] <= v <= s[|s| - 1]
  {
    hide Sort, IsSorted;
    var s := Sort(values);
    SortSorted(values);
    SortMembers(values);
    LastIsGreatest(s);
    assert s[0] in s && s[|s| - 1] in s;
  }

  lemma AverageBetween(values: seq<real>, lo: real, hi: real)
    requires values != [] && forall v | v in values :: lo <= v <= hi
    ensures lo <= Sum(values) / |values| as real <= hi
  {
    hide Sum;
    var n := |values| as real;
    assert forall i | 0 <= i < |values| :: values[i] in values;
    SumBetween(values, lo, hi);
    AtLeastAverage(Sum(values), n, lo);
    AtLeastAverage(-Sum(values), n, -hi);
    assert -Sum(values) / n == -(Sum(values) / n);
  }

  // The statistics of any recording are in order, and the extremes are those of the values.
  lemma StatsInOrder(values: seq<real>)
    requires values != []
    ensures var t := StatsOf(values);
      && t.min <= t.p50 <= t.p95 <= t.p99 <= t.max && t.min <= t.avg <= t.max
      && t.min in values && t.max in values && forall v | v in values :: t.min <= v <= t.max
  {
    hide Sort, Sum, IsSorted;
    SortSorted(values);
    PercentilesInOrder(Sort(values));
    ExtremesAreValues(values);
    AverageBetween(values, Sort(values)[0], Sort(values)[|values| - 1]);
  }

  lemma LastIsGreatest(s: seq<real>)
    requires IsSorted(s) && s != []
    ensures forall x | x in s :: s[0] <= x <= s[|s| - 1]
  {
  }

  lemma AtLeastAverage(sum: real, n: real, lo: real)
    requires n > 0.0 && n * lo <= sum
    ensures lo <= sum / n
  {
    var d := sum / n - lo;
    assert d * n == sum - lo * n;
    if d < 0.0 {
      NegativeProduct(d, n);
    }
  }

  lemma NegativeProduct(d: real, n: real)
    requires d < 0.0 && n > 0.0
    ensures d * n < 0.0
  {
  }

  lemma {:induction false} SumInsert(x: real, s: seq<real>)
    ensures Sum(Insert(x, s)) == Sum(s) + x
  {
    var r := Insert(x, s);
    if s == [] || x <= s[0] {
      SumCons(x, s);
    } else {
      SumInsert(x, s[1..]);
      SumCons(s[0], s[1..]);
      SumCons(s[0], Insert(x, s[1..]));
      assert s == [s[0]] + s[1..];
    }
  }

  lemma {:induction false} SumCons(x: real, s: seq<real>)
    ensures Sum([x] + s) == x + Sum(s)
  {
    if s == [] {
      assert ([x] + s)[..0] == [];
    } else {
      SumCons(x, s[..|s| - 1]);
      assert ([x] + s)[..|s|] == [x] + s[..|s| - 1];
    }
  }

  lemma {:induction false} SumSort(s: seq<real>)
    ensures Sum(Sort(s)) == Sum(s)
  {
    if s != [] {
      SumSort(s[1..]);
      SumInsert(s[0], Sort(s[1..]));
      SumCons(s[0], s[1..]);
      assert s == [s[0]] + s[1..];
    }
  }

  // The order of recording does not matter.
  lemma StatsOfMultiset(a: seq<real>, b: seq<real>)
    requires multiset(a) == multiset(b)
    ensures StatsOf(a) == StatsOf(b)
  {
    assert |multiset(a)| == |a| && |multiset(b)| == |b|;
    SortSorted(a);
    SortSorted(b);
    SortedUnique(Sort(a), Sort(b));
    SumSort(a);
    SumSort(b);
  }

  lemma {:induction false} SumAppend(a: seq<real>, b: seq<real>)
    ensures Sum(a + b) == Sum(a) + Sum(b)
  {
    if b == [] {
      assert a + b == a;
    } else {
      assert (a + b)[..|a + b| - 1] == a + b[..|b| - 1];
      SumAppend(a, b[..|b| - 1]);
    }
  }

  lemma SumOne(x: real)
    ensures Sum([x]) == x && Sum([]) == 0.0
  {
    assert [x][..0] == [];
  }

  // More than percent of the values are at most x, and at least the rest of them are at least x.
  predicate HasRank(values: seq<real>, x: real, percent: nat)
    requires percent < 100
  {
    && x in values && CountAtMost(values, x) * 100 > |values| * percent
    && CountAtLeast(values, x) * 100 >= |values| * (100 - percent)
  }

  lemma RankCounts(n: nat, percent: nat, most: nat, least: nat)
    requires percent < 100 && most >= n * percent / 100 + 1 && least >= n - n * percent / 100
    ensures most * 100 > n * percent && least * 100 >= n * (100 - percent)
  {
  }

  lemma PercentileHasRank(values: seq<real>, percent: nat)
    requires values != [] && percent < 100
    ensures HasRank(values, Percentile(values, percent), percent)
  {
    hide Percentile, CountAtMost, CountAtLeast;
    var x := Percentile(values, percent);
    PercentileRank(values, percent);
    RankCounts(|values|, percent, CountAtMost(values, x), CountAtLeast(values, x));
  }

  lemma DividedTimes(sum: real, n: real)
    requires n > 0.0
    ensures sum / n * n == sum
  {
  }

  // What each statistic is: p50, p95 and p99 have these ranks, and the average is the sum divided by the
  // count; without values everything is 0.
  lemma StatsMean(values: seq<real>)
    ensures values == [] ==> StatsOf(values) == Stats(0, 0.0, 0.0, 0.0, 0.0, 0.0, 0.0, 0.0)
    ensures values != [] ==> var t := StatsOf(values);
      HasRank(values, t.p50, 50) && HasRank(values, t.p95, 95) && HasRank(values, t.p99, 99)
  {
    if values != [] {
      PercentileHasRank(values, 50);
      PercentileHasRank(values, 95);
      PercentileHasRank(values, 99);
      hide Percentile, HasRank, Sort, Sum;
    }
  }

  lemma AverageTimesCount(values: seq<real>)
    ensures StatsOf(values).count == |values| && StatsOf(values).avg * |values| as real == StatsOf(values).sum
  {
    hide Percentile, Sort, Sum;
    if values != [] {
      DividedTimes(Sum(values), |values| as real);
    }
  }

  // Recordings add up: the count and the sum of two of them, one behind the other.
  lemma StatsAddUp(a: seq<real>, b: seq<real>)
    ensures StatsOf(a + b).count == StatsOf(a).count + StatsOf(b).count
    ensures StatsOf(a + b).sum == StatsOf(a).sum + StatsOf(b).sum
  {
    hide Percentile, Sort, Sum;
    SumAppend(a, b);
    assert Sum([]) == 0.0 by { SumOne(0.0); }
  }

  // A single value is its own sum, average, extremes and percentiles.
  lemma StatsOfOne(x: real)
    ensures StatsOf([x]) == Stats(1, x, x, x, x, x, x, x)
  {
    SumOne(x);
    StatsInOrder([x]);
    hide Percentile, Sort, Sum;
  }

  // ---------- keys ----------

  function Key(name: string, tags: string): string { name + ":" + tags }

  // key.split(":")
  function Split(s: string): (r: seq<string>)
    ensures r != []
  {
    if s == [] then [""]
    else
      var rest := Split(s[1..]);
      if s[0] == ':' then [""] + rest else [[s[0]] + rest[0]] + rest[1..]
  }

  // parts.join(":")
  function Join(parts: seq<string>): string {
    if parts == [] then "" else if |parts| == 1 then parts[0] else parts[0] + ":" + Join(parts[1..])
  }

  lemma {:induction false} JoinSplit(s: string)
    ensures Join(Split(s)) == s
  {
    if s != [] {
      JoinSplit(s[1..]);
      var rest := Split(s[1..]);
      if s[0] == ':' {
        assert ([""] + rest)[1..] == rest;
        assert s == ":" + s[1..];
      } else {
        var parts := [[s[0]] + rest[0]] + rest[1..];
        assert parts[1..] == rest[1..];
        assert s == [s[0]] + s[1..];
      }
    }
  }

  lemma {:induction false} SplitKey(name: string, tags: string)
    requires forall i | 0 <= i < |name| :: name[i] != ':'
    ensures Split(Key(name, tags)) == [name] + Split(tags)
  {
    var k := Key(name, tags);
    if name == [] {
      assert k[1..] == tags;
    } else {
      assert k[1..] == Key(name[1..], tags);
      SplitKey(name[1..], tags);
      assert name == [name[0]] + name[1..];
      var rest := [name[1..]] + Split(tags);
      assert rest[1..] == Split(tags);
    }
  }

  lemma {:induction false} FirstPartHasNoColon(s: string)
    ensures forall i | 0 <= i < |Split(s)[0]| :: Split(s)[0][i] != ':'
  {
    if s != [] {
      FirstPartHasNoColon(s[1..]);
    }
  }

  // getAllMetrics takes a key apart into the name and tags it was made of exactly if the name has no colon.
  lemma KeyTakenApart(name: string, tags: string)
    ensures (Split(Key(name, tags))[0] == name && Join(Split(Key(name, tags))[1..]) == tags)
            <==> forall i | 0 <= i < |name| :: name[i] != ':'
  {
    FirstPartHasNoColon(Key(name, tags));
    if forall i | 0 <= i < |name| :: name[i] != ':' {
      SplitKey(name, tags);
      JoinSplit(tags);
      assert ([name] + Split(tags))[1..] == Split(tags);
    }
  }

  // ---------- the metrics table ----------

  class Metrics {
    var histograms: map<string, seq<real>>

    constructor ()
      ensures histograms == map[]
    {
      histograms := map[];
    }

    // tags is the text JSON.stringify makes of the tags.
    method RecordHistogram(name: string, value: real, tags: string)
      modifies this
      ensures var old_ := if Key(name, tags) in old(histograms) then old(histograms)[Key(name, tags)] else [];
        histograms == old(histograms)[Key(name, tags) := old_ + [value]]
    {
      var key := name + ":" + tags;
      if key !in histograms {
        histograms := histograms[key := []];
      }
      histograms := histograms[key := histograms[key] + [value]];
    }

    function Recorded(name: string, tags: string): seq<real>
      reads this
    {
      if Key(name, tags) in histograms then histograms[Key(name, tags)] else []
    }

    method GetHistogram(name: string, tags: string) returns (r: Stats)
      ensures r == StatsOf(Recorded(name, tags))
    {
      var key := name + ":" + tags;
      var values := if key in histograms then histograms[key] else [];
      if |values| == 0 {
        return NO_STATS;
      }
      var sorted := Sort(values);
      var sum, count := 0.0, |values|;
      for i := 0 to count
        invariant sum == Sum(values[..i])
      {
        assert values[..i + 1][..i] == values[..i];
        sum := sum + values[i];
      }
      assert values[..count] == values;
      r := Stats(count, sum, sum / count as real, sorted[0], sorted[count - 1],
                 sorted[count * 50 / 100], sorted[count * 95 / 100], sorted[count * 99 / 100]);
    }

    // reparse is JSON.stringify after JSON.parse, None where parsing throws; then so does the method.
    method GetAllMetrics(reparse: string -> Option<string>) returns (r: Option<map<string, Stats>>)
      ensures r.None? <==> exists key :: key in histograms && reparse(Join(Split(key)[1..])).None?
      ensures r.Some? ==>
                && r.value.Keys == histograms.Keys
                && forall key | key in histograms && reparse(Join(Split(key)[1..])).Some? ::
                     r.value[key] == StatsOf(Recorded(Split(key)[0], reparse(Join(Split(key)[1..])).value))
      ensures (forall key | key in histograms :: OwnKey(key, reparse)) ==>
                r.Some? && forall key | key in histograms :: r.value[key] == StatsOf(histograms[key])
    {
      var out: map<string, Stats> := map[];
      var keys := histograms.Keys;
      while keys != {}
        invariant keys <= histograms.Keys && out.Keys == histograms.Keys - keys
        invariant forall key | key in out ::
                    && reparse(Join(Split(key)[1..])).Some?
                    && out[key] == StatsOf(Recorded(Split(key)[0], reparse(Join(Split(key)[1..])).value))
        decreases keys
      {
        var key :| key in keys;
        var parts := Split(key);
        var tags := reparse(Join(parts[1..]));
        if tags.None? {
          return None;
        }
        var stats := GetHistogram(parts[0], tags.value);
        out := out[key := stats];
        keys := keys - {key};
      }
      r := Some(out);
    }
  }

  // The key is that of a name without a colon and of tags that survive reparsing.
  ghost predicate OwnKey(key: string, reparse: string -> Option<string>) {
    var parts := Split(key);
    reparse(Join(parts[1..])).Some? && Key(parts[0], reparse(Join(parts[1..])).value) == key
  }

  // So every histogram is reported with its own statistics if names have no colon and tags are JSON text.
  lemma OwnKeyOf(name: string, tags: string, reparse: string -> Option<string>)
    requires (forall i | 0 <= i < |name| :: name[i] != ':') && reparse(tags) == Some(tags)
    ensures OwnKey(Key(name, tags), reparse)
  {
    KeyTakenApart(name, tags);
  }
}
