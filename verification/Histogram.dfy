/** Cumulative latency histograms (bench/scale/lane-e-evidence.py, bench/summarize.py): differencing two
    scrapes, merging subscribers, and the bucket bound reported as a percentile. */
module Histogram {
  import opened Results

  /** A bucket's upper bound. */
  datatype Bound = Finite(value: real) | Infinity

  predicate AtMost(a: Bound, b: Bound) {
    b.Infinity? || (a.Finite? && a.value <= b.value)
  }

  type Buckets = map<Bound, int>

  // ---------------------------------------------------------------------------
  // The histogram of a list of samples
  // ---------------------------------------------------------------------------

  /** How many samples a bucket with this bound counts. */
  function Under(samples: seq<real>, le: Bound): (n: nat)
    ensures n <= |samples|
  {
    if samples == [] then 0
    else Under(samples[..|samples| - 1], le) + if AtMost(Finite(samples[|samples| - 1]), le) then 1 else 0
  }

  /** These buckets are the histogram of the samples. */
  ghost predicate IsHistogram(buckets: Buckets, samples: seq<real>) {
    forall le :: le in buckets ==> buckets[le] == Under(samples, le)
  }

  lemma {:induction false} UnderConcat(a: seq<real>, b: seq<real>, le: Bound)
    ensures Under(a + b, le) == Under(a, le) + Under(b, le)
  {
    if b == [] {
      assert a + b == a;
    } else {
      UnderConcat(a, b[..|b| - 1], le);
      assert (a + b)[..|a + b| - 1] == a + b[..|b| - 1];
    }
  }

  lemma {:induction false} UnderRises(samples: seq<real>, a: Bound, b: Bound)
    requires AtMost(a, b)
    ensures Under(samples, a) <= Under(samples, b)
  {
    if samples != [] { UnderRises(samples[..|samples| - 1], a, b); }
  }

  lemma {:induction false} UnderAll(samples: seq<real>, le: Bound)
    requires forall k :: 0 <= k < |samples| ==> AtMost(Finite(samples[k]), le)
    ensures Under(samples, le) == |samples|
  {
    if samples != [] { UnderAll(samples[..|samples| - 1], le); }
  }

  /** A bucket that counts something has a largest sample, and counts no more than that sample's own. */
  lemma {:induction false} Largest(samples: seq<real>, le: Bound) returns (k: nat)
    requires Under(samples, le) > 0
    ensures k < |samples| && AtMost(Finite(samples[k]), le) && Under(samples, Finite(samples[k])) == Under(samples, le)
  {
    var n := |samples| - 1;
    var init, last := samples[..n], samples[n];
    if !AtMost(Finite(last), le) {
      k := Largest(init, le);
    } else if Under(init, le) == 0 {
      k := n;
      UnderRises(init, Finite(last), le);
    } else {
      k := Largest(init, le);
      if last > samples[k] {
        UnderRises(init, Finite(samples[k]), Finite(last));
        UnderRises(init, Finite(last), le);
        k := n;
      }
    }
  }

  // ---------------------------------------------------------------------------
  // histogram: the difference of two scrapes
  // ---------------------------------------------------------------------------

  /** One scrape's buckets and its count. */
  datatype Scrape = Scrape(buckets: Buckets, count: int)

  predicate Rising(buckets: Buckets) {
    forall a, b :: a in buckets && b in buckets && AtMost(a, b) ==> buckets[a] <= buckets[b]
  }

  predicate Differs(a: Scrape, b: Scrape) {
    && a.buckets != map[] && a.buckets.Keys == b.buckets.Keys && b.count >= a.count
    && (forall le :: le in a.buckets ==> b.buckets[le] >= a.buckets[le])
  }

  function Difference(a: Buckets, b: Buckets): (d: Buckets)
    requires a.Keys == b.Keys
    ensures d.Keys == a.Keys
  {
    map le | le in a :: b[le] - a[le]
  }

  predicate Consistent(d: Buckets, count: int) {
    Rising(d) && Infinity in d && d[Infinity] == count
  }

  /** In the order of their bounds the counts never fall: each bucket against the one before it. */
  method CheckRising(d: Buckets) returns (ok: bool)
    ensures ok <==> Rising(d)
  {
    var todo := d.Keys;
    ghost var done: set<Bound> := {};
    while todo != {}
      invariant done + todo == d.Keys
      invariant forall a, b :: a in done && b in d && AtMost(a, b) ==> d[a] <= d[b]
    {
      var a :| a in todo;
      var rest := d.Keys;
      ghost var seen: set<Bound> := {};
      while rest != {}
        invariant seen + rest == d.Keys
        invariant forall b :: b in seen && AtMost(a, b) ==> d[a] <= d[b]
      {
        var b :| b in rest;
        if (b.Infinity? || (a.Finite? && a.value <= b.value)) && d[b] < d[a] {
          return false;
        }
        seen, rest := seen + {b}, rest - {b};
      }
      done, todo := done + {a}, todo - {a};
    }
    ok := true;
  }

  /** `histogram`: raises exactly on missing, different or reset buckets, or ones that do not add up. */
  method Subtract(a: Scrape, b: Scrape) returns (r: Result<Scrape>)
    ensures r.Ok? <==> Differs(a, b) && Consistent(Difference(a.buckets, b.buckets), b.count - a.count)
    ensures r.Ok? ==> r.value == Scrape(Difference(a.buckets, b.buckets), b.count - a.count)
  {
    if a.buckets == map[] || a.buckets.Keys != b.buckets.Keys {
      return Raised;
    }
    if b.count < a.count {
      return Raised;
    }
    var d: Buckets := map[];
    var todo := a.buckets.Keys;
    while todo != {}
      invariant todo <= a.buckets.Keys
      invariant d.Keys == a.buckets.Keys - todo
      invariant forall le :: le in d ==> b.buckets[le] >= a.buckets[le] && d[le] == b.buckets[le] - a.buckets[le]
    {
      var le :| le in todo;
      if b.buckets[le] < a.buckets[le] {
        return Raised;
      }
      d := d[le := b.buckets[le] - a.buckets[le]];
      todo := todo - {le};
    }
    assert d == Difference(a.buckets, b.buckets);
    var rising := CheckRising(d);
    if !rising || Infinity !in d || d[Infinity] != b.count - a.count {
      return Raised;
    }
    r := Ok(Scrape(d, b.count - a.count));
  }

  /** The samples between two scrapes: what `histogram` accepts and returns is exactly their histogram. */
  lemma WindowHistogram(a: Scrape, b: Scrape, before: seq<real>, window: seq<real>)
    requires a.buckets.Keys == b.buckets.Keys && Infinity in a.buckets
    requires IsHistogram(a.buckets, before) && a.count == |before|
    requires IsHistogram(b.buckets, before + window) && b.count == |before + window|
    ensures Differs(a, b) && Consistent(Difference(a.buckets, b.buckets), b.count - a.count)
    ensures IsHistogram(Difference(a.buckets, b.buckets), window) && b.count - a.count == |window|
  {
    var d := Difference(a.buckets, b.buckets);
    forall le | le in d ensures d[le] == Under(window, le) {
      UnderConcat(before, window, le);
    }
    forall x, y | x in d && y in d && AtMost(x, y) ensures d[x] <= d[y] {
      UnderRises(window, x, y);
    }
    UnderAll(window, Infinity);
  }

  // ---------------------------------------------------------------------------
  // Merging subscribers
  // ---------------------------------------------------------------------------

  function Joined(parts: seq<seq<real>>): (r: seq<real>) {
    if parts == [] then [] else Joined(parts[..|parts| - 1]) + parts[|parts| - 1]
  }

  /** The subscribers' loop: raises when their schemas differ, and otherwise the sums are the histogram of
      all their samples together. */
  method Merge(hs: seq<Buckets>, ghost parts: seq<seq<real>>) returns (r: Result<Buckets>)
    requires |parts| == |hs| && forall k :: 0 <= k < |hs| ==> hs[k] != map[] && IsHistogram(hs[k], parts[k])
    ensures r.Ok? <==> forall k :: 0 <= k < |hs| ==> hs[k].Keys == hs[0].Keys
    ensures r.Ok? ==> IsHistogram(r.value, Joined(parts)) && (hs != [] ==> r.value.Keys == hs[0].Keys)
  {
    var buckets: Buckets := map[];
    for k := 0 to |hs|
      invariant forall i :: 0 <= i < k ==> hs[i].Keys == hs[0].Keys
      invariant buckets.Keys == if k == 0 then {} else hs[0].Keys
      invariant IsHistogram(buckets, Joined(parts[..k]))
    {
      if buckets != map[] && buckets.Keys != hs[k].Keys {
        return Raised;
      }
      assert parts[..k + 1][..k] == parts[..k];
      ghost var all := Joined(parts[..k]);
      assert Joined(parts[..k + 1]) == all + parts[k];
      var next := map le | le in hs[k] :: (if le in buckets then buckets[le] else 0) + hs[k][le];
      forall le | le in next ensures next[le] == Under(all + parts[k], le) {
        UnderConcat(all, parts[k], le);
        if k == 0 { assert all == []; }
      }
      buckets := next;
    }
    assert parts[..|parts|] == parts;
    r := Ok(buckets);
  }

  // ---------------------------------------------------------------------------
  // Percentiles
  // ---------------------------------------------------------------------------

  /** `n` is at least a share `p` of `total`. */
  predicate Reaches(n: int, p: real, total: int) {
    n as real >= p * total as real
  }

  ghost predicate Ascends(s: seq<real>) {
    forall i, j :: 0 <= i < j < |s| ==> s[i] <= s[j]
  }

  /** `x` stands at `rank` when the samples are put in order, and `rank` is the first position from which on
      the samples up to there are at least a share `p` of them all. */
  ghost predicate StandsAt(samples: seq<real>, p: real, x: real, sorted: seq<real>, rank: nat) {
    && multiset(sorted) == multiset(samples) && Ascends(sorted)
    && rank < |sorted| && sorted[rank] == x
    && rank as real < p * |samples| as real <= (rank + 1) as real
  }

  /** The nearest-rank quantile of the samples. */
  ghost predicate IsQuantile(samples: seq<real>, p: real, x: real) {
    exists sorted, rank :: StandsAt(samples, p, x, sorted, rank)
  }

  lemma {:induction false} UnderBag(a: seq<real>, b: seq<real>, le: Bound)
    requires multiset(a) == multiset(b)
    ensures Under(a, le) == Under(b, le) && |a| == |b|
    decreases |a|
  {
    assert |a| == |multiset(a)| == |multiset(b)| == |b|;
    if a != [] {
      var n := |a| - 1;
      assert a == a[..n] + [a[n]];
      assert a[n] in multiset(b);
      var k :| 0 <= k < |b| && b[k] == a[n];
      var rest := b[..k] + b[k + 1..];
      assert b == b[..k] + [b[k]] + b[k + 1..];
      assert multiset(rest) == multiset(b) - multiset{b[k]} == multiset(a[..n]);
      UnderBag(a[..n], rest, le);
      UnderConcat(b[..k], [b[k]], le);
      UnderConcat(b[..k] + [b[k]], b[k + 1..], le);
      UnderConcat(b[..k], b[k + 1..], le);
      UnderConcat(a[..n], [a[n]], le);
    }
  }

  /** In ascending samples a bucket counts those before `rank` and no more when its bound lies below the one
      there, and that one too when it does not. */
  lemma UnderAtRank(sorted: seq<real>, rank: nat, le: Bound)
    requires Ascends(sorted) && rank < |sorted|
    ensures if AtMost(Finite(sorted[rank]), le) then Under(sorted, le) > rank else Under(sorted, le) <= rank
  {
    hide Under;
    if AtMost(Finite(sorted[rank]), le) {
      UnderFront(sorted, rank + 1, le);
    } else {
      UnderBack(sorted, rank, le);
    }
  }

  lemma UnderFront(sorted: seq<real>, n: nat, le: Bound)
    requires Ascends(sorted) && 0 < n <= |sorted| && AtMost(Finite(sorted[n - 1]), le)
    ensures Under(sorted, le) >= n
  {
    hide Under;
    var front, back := sorted[..n], sorted[n..];
    forall k | 0 <= k < n ensures AtMost(Finite(front[k]), le) {
      assert k < n - 1 ==> sorted[k] <= sorted[n - 1];
    }
    UnderAll(front, le);
    UnderConcat(front, back, le);
    assert sorted == front + back;
  }

  lemma UnderBack(sorted: seq<real>, n: nat, le: Bound)
    requires Ascends(sorted) && n < |sorted| && !AtMost(Finite(sorted[n]), le)
    ensures Under(sorted, le) <= n
  {
    hide Under;
    var front, back := sorted[..n], sorted[n..];
    forall k | 0 <= k < |back| ensures !AtMost(Finite(back[k]), le) {
      assert 0 < k ==> sorted[n] <= sorted[n + k];
    }
    UnderNone(back, le);
    UnderConcat(front, back, le);
    assert sorted == front + back;
  }

  lemma {:induction false} UnderNone(samples: seq<real>, le: Bound)
    requires forall k :: 0 <= k < |samples| ==> !AtMost(Finite(samples[k]), le)
    ensures Under(samples, le) == 0
  {
    if samples != [] { UnderNone(samples[..|samples| - 1], le); }
  }

  /** A bucket reaches its share exactly when it bounds the quantile. */
  lemma ReachesIff(samples: seq<real>, p: real, x: real, le: Bound)
    requires IsQuantile(samples, p, x)
    ensures Reaches(Under(samples, le), p, |samples|) <==> AtMost(Finite(x), le)
  {
    hide Under;
    var sorted, rank :| StandsAt(samples, p, x, sorted, rank);
    UnderBag(sorted, samples, le);
    UnderAtRank(sorted, rank, le);
  }

  lemma SomethingReaches(n: int, p: real, total: int)
    requires 0.0 < p && total > 0 && Reaches(n, p, total)
    ensures n > 0
  {
    assert p * total as real > 0.0;
  }

  /** Buckets in order of their bounds. */
  predicate InOrder(bs: seq<(Bound, int)>) {
    forall i, j :: 0 <= i < j < |bs| ==> AtMost(bs[i].0, bs[j].0)
  }

  /** The first bucket that reaches its share, or no bound at all. */
  method FirstReaching(bs: seq<(Bound, int)>, p: real, total: int) returns (le: Bound)
    requires InOrder(bs)
    ensures LeastReaching(multiset(bs), p, total, le)
  {
    for k := 0 to |bs|
      invariant forall i :: 0 <= i < k ==> !Reaches(bs[i].1, p, total)
    {
      if Reaches(bs[k].1, p, total) {
        SortedLeast(bs, p, total, bs[k].0);
        return bs[k].0;
      }
    }
    SortedLeast(bs, p, total, Infinity);
    le := Infinity;
  }

  predicate NotAfter(a: (Bound, int), b: (Bound, int)) {
    AtMost(a.0, b.0) && (a.0 == b.0 ==> a.1 <= b.1)
  }

  predicate Sorted(bs: seq<(Bound, int)>) {
    forall i, j :: 0 <= i < j < |bs| ==> NotAfter(bs[i], bs[j])
  }

  lemma InsertSorted(bs: seq<(Bound, int)>, b: (Bound, int), k: nat)
    requires Sorted(bs) && k <= |bs|
    requires k > 0 ==> NotAfter(bs[k - 1], b)
    requires forall i :: k <= i < |bs| ==> NotAfter(b, bs[i])
    ensures Sorted(bs[..k] + [b] + bs[k..])
  {
    forall i | 0 <= i < k ensures NotAfter(bs[i], b) {
      if i < k - 1 { assert NotAfter(bs[i], bs[k - 1]); }
    }
    hide NotAfter;
    var r := bs[..k] + [b] + bs[k..];
    forall i, j | 0 <= i < j < |r| ensures NotAfter(r[i], r[j]) {
    }
  }

  method Insert(bs: seq<(Bound, int)>, b: (Bound, int)) returns (r: seq<(Bound, int)>)
    requires Sorted(bs)
    ensures Sorted(r) && multiset(r) == multiset(bs) + multiset{b}
  {
    var k := |bs|;
    while k > 0 && !NotAfter(bs[k - 1], b)
      invariant 0 <= k <= |bs|
      invariant forall i :: k <= i < |bs| ==> NotAfter(b, bs[i])
    {
      k := k - 1;
    }
    InsertSorted(bs, b, k);
    hide Sorted, NotAfter;
    r := bs[..k] + [b] + bs[k..];
    assert bs == bs[..k] + bs[k..];
  }

  method Sort(bs: seq<(Bound, int)>) returns (r: seq<(Bound, int)>)
    ensures Sorted(r) && multiset(r) == multiset(bs)
  {
    r := [];
    for k := 0 to |bs|
      invariant Sorted(r) && multiset(r) == multiset(bs[..k])
    {
      assert bs[..k + 1] == bs[..k] + [bs[k]];
      r := Insert(r, bs[k]);
    }
    assert bs[..|bs|] == bs;
  }

  /** The least bound among the buckets that reach the share. */
  ghost predicate LeastReaching(bs: multiset<(Bound, int)>, p: real, total: int, le: Bound) {
    && (forall b :: b in bs && Reaches(b.1, p, total) ==> AtMost(le, b.0))
    && ((exists b :: b in bs && b.0 == le && Reaches(b.1, p, total))
        || (le == Infinity && forall b :: b in bs ==> !Reaches(b.1, p, total)))
  }

  lemma SortedLeast(bs: seq<(Bound, int)>, p: real, total: int, le: Bound)
    requires forall k :: 0 <= k < |bs| && Reaches(bs[k].1, p, total) ==> AtMost(le, bs[k].0)
    requires (exists k :: 0 <= k < |bs| && bs[k].0 == le && Reaches(bs[k].1, p, total))
             || (le == Infinity && forall k :: 0 <= k < |bs| ==> !Reaches(bs[k].1, p, total))
    ensures LeastReaching(multiset(bs), p, total, le)
  {
    hide Reaches;
    assert forall b :: b in multiset(bs) <==> exists k :: 0 <= k < |bs| && bs[k] == b;
    if k :| 0 <= k < |bs| && bs[k].0 == le && Reaches(bs[k].1, p, total) { assert bs[k] in multiset(bs); }
  }

  lemma LastIsHighest(bs: seq<(Bound, int)>)
    requires Sorted(bs) && bs != []
    ensures forall b :: b in bs ==> AtMost(b.0, bs[|bs| - 1].0)
  {
  }

  /** The count of a bucket with the highest bound. */
  ghost predicate IsLast(bs: multiset<(Bound, int)>, n: int) {
    exists last :: last in bs && last.1 == n && forall b :: b in bs ==> AtMost(b.0, last.0)
  }

  lemma LastIsLast(bs: seq<(Bound, int)>)
    requires Sorted(bs) && bs != []
    ensures IsLast(multiset(bs), bs[|bs| - 1].1)
  {
    LastIsHighest(bs);
    assert forall b :: b in multiset(bs) <==> b in bs;
    assert bs[|bs| - 1] in multiset(bs);
  }

  /** The bucket bound reported for share `p`; nothing when there are no buckets or no samples. A count of
      zero or none is read off the last bucket instead. */
  method Percentile(lines: seq<(Bound, int)>, count: int, p: real) returns (r: Option<Bound>, total: int)
    ensures lines == [] ==> r.None?
    ensures lines != [] ==> (r.Some? <==> total != 0)
    ensures lines != [] ==> if count != 0 then total == count else IsLast(multiset(lines), total)
    ensures r.Some? ==> LeastReaching(multiset(lines), p, total, r.value)
  {
    if lines == [] {
      return None, count;
    }
    var bs := Sort(lines);
    assert |bs| == |multiset(bs)| == |multiset(lines)| == |lines|;
    LastIsLast(bs);
    hide LeastReaching, IsLast;
    total := if count == 0 then bs[|bs| - 1].1 else count;
    if total == 0 {
      return None, total;
    }
    var le := FirstReaching(bs, p, total);
    r := Some(le);
  }

  /** The reported bound never flatters, and is as good as the buckets allow: a bucket bounds the true
      quantile if and only if the reported bound does not exceed it. */
  lemma PercentileBounds(bs: multiset<(Bound, int)>, samples: seq<real>, p: real, x: real, le: Bound)
    requires 0.0 < p <= 1.0 && IsQuantile(samples, p, x)
    requires forall b :: b in bs ==> b.1 == Under(samples, b.0)
    requires LeastReaching(bs, p, |samples|, le)
    ensures AtMost(Finite(x), le)
    ensures forall b :: b in bs ==> (AtMost(Finite(x), b.0) <==> AtMost(le, b.0))
  {
    forall b | b in bs ensures AtMost(Finite(x), b.0) <==> Reaches(b.1, p, |samples|) {
      ReachesIff(samples, p, x, b.0);
    }
    hide IsQuantile, Under, Reaches;
    forall b | b in bs && AtMost(le, b.0) ensures AtMost(Finite(x), b.0) {
      if c :| c in bs && c.0 == le && Reaches(c.1, p, |samples|) { }
    }
  }

  lemma {:induction false} InOrderOf(samples: seq<real>) returns (sorted: seq<real>)
    ensures multiset(sorted) == multiset(samples) && Ascends(sorted)
  {
    sorted := [];
    for n := 0 to |samples|
      invariant multiset(sorted) == multiset(samples[..n]) && Ascends(sorted)
    {
      assert samples[..n + 1] == samples[..n] + [samples[n]];
      sorted := Inserted(sorted, samples[n]);
    }
    assert samples[..|samples|] == samples;
  }

  lemma AscendsInsert(s: seq<real>, x: real, k: nat)
    requires Ascends(s) && k <= |s| && (k > 0 ==> s[k - 1] <= x) && (forall i :: k <= i < |s| ==> x <= s[i])
    ensures Ascends(s[..k] + [x] + s[k..])
  {
    var r := s[..k] + [x] + s[k..];
    assert forall i :: 0 <= i < k ==> s[i] <= s[k - 1];
    forall i, j | 0 <= i < j < |r| ensures r[i] <= r[j] {
      assert r[i] == if i < k then s[i] else if i == k then x else s[i - 1];
      assert r[j] == if j < k then s[j] else if j == k then x else s[j - 1];
    }
  }

  lemma InsertedBag(s: seq<real>, x: real, k: nat)
    requires k <= |s|
    ensures multiset(s[..k] + [x] + s[k..]) == multiset(s) + multiset{x}
  {
    assert s == s[..k] + s[k..];
  }

  lemma Inserted(s: seq<real>, x: real) returns (r: seq<real>)
    requires Ascends(s)
    ensures multiset(r) == multiset(s) + multiset{x} && Ascends(r)
  {
    hide Ascends;
    var k := |s|;
    while k > 0 && s[k - 1] > x
      invariant 0 <= k <= |s| && forall i :: k <= i < |s| ==> x <= s[i]
    {
      k := k - 1;
    }
    AscendsInsert(s, x, k);
    r := s[..k] + [x] + s[k..];
    InsertedBag(s, x, k);
  }

  /** The first position that makes up the share. */
  lemma RankOf(p: real, n: nat) returns (rank: nat)
    requires n > 0 && 0.0 < p <= 1.0
    ensures rank < n && rank as real < p * n as real <= (rank + 1) as real
  {
    assert 0.0 < p * n as real <= n as real;
    rank := n - 1;
    while rank as real >= p * n as real
      invariant 0 <= rank < n && p * n as real <= (rank + 1) as real
    {
      rank := rank - 1;
    }
  }

  /** Every list of samples has its quantile, for every share. */
  lemma QuantileExists(samples: seq<real>, p: real) returns (x: real)
    requires samples != [] && 0.0 < p <= 1.0
    ensures IsQuantile(samples, p, x)
  {
    var sorted := InOrderOf(samples);
    assert |sorted| == |multiset(sorted)| == |samples|;
    var rank := RankOf(p, |samples|);
    x := sorted[rank];
    assert StandsAt(samples, p, x, sorted, rank);
  }

  /** And only one. */
  lemma QuantileUnique(samples: seq<real>, p: real, x: real, y: real)
    requires IsQuantile(samples, p, x) && IsQuantile(samples, p, y)
    ensures x == y
  {
    hide IsQuantile, Under, Reaches;
    ReachesIff(samples, p, x, Finite(x));
    ReachesIff(samples, p, y, Finite(x));
    ReachesIff(samples, p, x, Finite(y));
    ReachesIff(samples, p, y, Finite(y));
  }

  lemma ShareKept(p: real, a: nat, b: nat, u: nat)
    requires p <= 1.0 && Reaches(u, p, b)
    ensures Reaches(a + u, p, a + b)
  {
    Spread(p, a as real, b as real);
    assert (a + b) as real == a as real + b as real;
  }

  lemma Spread(p: real, x: real, y: real)
    requires p <= 1.0 && x >= 0.0
    ensures p * (x + y) <= x + p * y
  {
    assert (1.0 - p) * x >= 0.0;
    assert p * (x + y) == p * x + p * y;
    assert (1.0 - p) * x == x - p * x;
  }

  /** Leaving out the fastest samples, however many, can only raise what is reported: a bucket that reaches
      its share without them reaches it with them. */
  lemma ExcludingRaises(excluded: seq<real>, kept: seq<real>, p: real, le: Bound)
    requires 0.0 < p <= 1.0 && kept != []
    requires forall i, j :: 0 <= i < |excluded| && 0 <= j < |kept| ==> excluded[i] <= kept[j]
    requires Reaches(Under(kept, le), p, |kept|)
    ensures Reaches(Under(excluded + kept, le), p, |excluded + kept|)
  {
    SomethingReaches(Under(kept, le), p, |kept|);
    hide Reaches;
    var k := Largest(kept, le);
    forall i | 0 <= i < |excluded| ensures AtMost(Finite(excluded[i]), le) {
      assert excluded[i] <= kept[k];
    }
    UnderAll(excluded, le);
    UnderConcat(excluded, kept, le);
    ShareKept(p, |excluded|, |kept|, Under(kept, le));
  }

  /** So the bound reported from the kept samples bounds the quantile of all of them. */
  lemma NeverFlatters(excluded: seq<real>, kept: seq<real>, p: real, x: real, bs: multiset<(Bound, int)>, le: Bound)
    requires 0.0 < p <= 1.0 && kept != [] && IsQuantile(excluded + kept, p, x)
    requires forall i, j :: 0 <= i < |excluded| && 0 <= j < |kept| ==> excluded[i] <= kept[j]
    requires (forall b :: b in bs ==> b.1 == Under(kept, b.0)) && LeastReaching(bs, p, |kept|, le)
    ensures AtMost(Finite(x), le)
  {
    hide Reaches, IsQuantile, Under;
    if le != Infinity {
      var b :| b in bs && b.0 == le && Reaches(b.1, p, |kept|);
      ExcludingRaises(excluded, kept, p, le);
      ReachesIff(excluded + kept, p, x, le);
    }
  }

  /** And the bound itself can only rise: reported from the kept samples it is no lower than the one
      reported from all of them. */
  lemma ExcludingRaisesBound(excluded: seq<real>, kept: seq<real>, p: real, all: multiset<(Bound, int)>,
                             bs: multiset<(Bound, int)>, leAll: Bound, leKept: Bound)
    requires 0.0 < p <= 1.0 && kept != []
    requires forall i, j :: 0 <= i < |excluded| && 0 <= j < |kept| ==> excluded[i] <= kept[j]
    requires forall b :: b in bs ==> b.1 == Under(kept, b.0)
    requires forall b :: b in bs ==> (b.0, Under(excluded + kept, b.0)) in all
    requires LeastReaching(all, p, |excluded + kept|, leAll) && LeastReaching(bs, p, |kept|, leKept)
    ensures AtMost(leAll, leKept)
  {
    hide Reaches, Under;
    if leKept != Infinity {
      var b :| b in bs && b.0 == leKept && Reaches(b.1, p, |kept|);
      ExcludingRaises(excluded, kept, p, leKept);
      assert (leKept, Under(excluded + kept, leKept)) in all;
    }
  }
}
