/** Rates between two stamped scrapes (bench/scale/lane-e-evidence.py, bench/scale/extract-lane-e.py):
    a counter was read somewhere between the stamps around its scrape, so a rate has bounds. */
module Rates {
  import opened Results
  import opened WindowTable

  /** What one endpoint counted between two scrapes, and the stamps around each, in milliseconds. */
  datatype Span = Span(site: string, count: int, first: Stamp, then_: Stamp)

  function Shortest(s: Span): (d: int) { s.then_.start - s.first.end }
  function Longest(s: Span): (d: int) { s.then_.end - s.first.start }

  /** Nothing was reset and the second scrape began after the first ended, so that rates can be computed. */
  predicate Computable(s: Span) {
    s.count >= 0 && Shortest(s) > 0 && Longest(s) != 0
  }

  type AnySpan = s: Span | Computable(s) witness Span("", 0, Stamp(0, 0), Stamp(1, 1))

  /** The stamps around each scrape are in order. */
  predicate StampsInOrder(s: Span) {
    s.first.start <= s.first.end && s.then_.start <= s.then_.end
  }

  type GoodSpan = s: AnySpan | StampsInOrder(s) witness Span("", 0, Stamp(0, 0), Stamp(1, 1))

  /** A rate per second over a duration in milliseconds. */
  function PerSecond(count: int, ms: real): (r: real)
    requires ms != 0.0
  {
    count as real * 1000.0 / ms
  }

  /** The unit: so many a second, over so many seconds, make the count. */
  lemma PerSecondIs(count: int, ms: real)
    requires ms != 0.0
    ensures PerSecond(count, ms) * (ms / 1000.0) == count as real
  {
    var c, p := count as real * 1000.0, PerSecond(count, ms);
    assert p * ms == c;
    assert p * (ms / 1000.0) == p * ms / 1000.0;
  }

  lemma LongerIsSlower(count: int, x: real, y: real)
    requires count >= 0 && 0.0 < x <= y
    ensures PerSecond(count, y) <= PerSecond(count, x)
  {
    var c, p, q := count as real * 1000.0, PerSecond(count, x), PerSecond(count, y);
    assert p * x == c && q * y == c;
    Ratio(c, p, q, x, y);
  }

  lemma Ratio(c: real, p: real, q: real, x: real, y: real)
    requires c >= 0.0 && 0.0 < x <= y && p * x == c && q * y == c
    ensures q <= p
  {
  }

  // ---------------------------------------------------------------------------
  // Sums over a site's endpoints
  // ---------------------------------------------------------------------------

  function Low(spans: seq<AnySpan>, site: string): (r: real) {
    if spans == [] then 0.0
    else
      var s := spans[|spans| - 1];
      Low(spans[..|spans| - 1], site) + if s.site == site then PerSecond(s.count, Longest(s) as real) else 0.0
  }

  function High(spans: seq<AnySpan>, site: string): (r: real) {
    if spans == [] then 0.0
    else
      var s := spans[|spans| - 1];
      High(spans[..|spans| - 1], site) + if s.site == site then PerSecond(s.count, Shortest(s) as real) else 0.0
  }

  /** A reading between its stamps. */
  predicate Between(s: Stamp, at: real) {
    s.start as real <= at <= s.end as real
  }

  /** When each endpoint's two readings really happened. */
  type Instants = seq<(real, real)>

  predicate InstantsOf(s: GoodSpan, at: (real, real)) {
    Between(s.first, at.0) && Between(s.then_, at.1)
  }

  /** Each reading happened between its stamps. */
  predicate Possible(spans: seq<GoodSpan>, at: Instants) {
    |at| == |spans| && forall k :: 0 <= k < |spans| ==> InstantsOf(spans[k], at[k])
  }

  /** A site's true rate, given when the readings happened. */
  function TrueRate(spans: seq<GoodSpan>, at: Instants, site: string): (r: real)
    requires Possible(spans, at)
  {
    if spans == [] then 0.0
    else
      var n := |spans| - 1;
      assert InstantsOf(spans[n], at[n]);
      TrueRate(spans[..n], at[..n], site)
      + if spans[n].site == site then PerSecond(spans[n].count, at[n].1 - at[n].0) else 0.0
  }

  lemma {:induction false} TrueRateBounded(spans: seq<GoodSpan>, at: Instants, site: string)
    requires Possible(spans, at)
    ensures Low(spans, site) <= TrueRate(spans, at, site) <= High(spans, site)
  {
    if spans != [] {
      var n := |spans| - 1;
      TrueRateBounded(spans[..n], at[..n], site);
      var s, d := spans[n], at[n].1 - at[n].0;
      assert InstantsOf(s, at[n]);
      LongerIsSlower(s.count, Shortest(s) as real, d);
      LongerIsSlower(s.count, d, Longest(s) as real);
    }
  }

  function Slowest(spans: seq<GoodSpan>): (at: Instants)
    ensures |at| == |spans|
    ensures forall k :: 0 <= k < |spans| ==> at[k] == (spans[k].first.start as real, spans[k].then_.end as real)
  {
    seq(|spans|, k requires 0 <= k < |spans| => (spans[k].first.start as real, spans[k].then_.end as real))
  }

  function Fastest(spans: seq<GoodSpan>): (at: Instants)
    ensures |at| == |spans|
    ensures forall k :: 0 <= k < |spans| ==> at[k] == (spans[k].first.end as real, spans[k].then_.start as real)
  {
    seq(|spans|, k requires 0 <= k < |spans| => (spans[k].first.end as real, spans[k].then_.start as real))
  }

  /** Both bounds are rates that could have happened: they are as tight as the stamps allow. */
  lemma {:induction false} BoundsReached(spans: seq<GoodSpan>, site: string)
    ensures Possible(spans, Slowest(spans)) && TrueRate(spans, Slowest(spans), site) == Low(spans, site)
    ensures Possible(spans, Fastest(spans)) && TrueRate(spans, Fastest(spans), site) == High(spans, site)
  {
    if spans != [] {
      var n := |spans| - 1;
      BoundsReached(spans[..n], site);
      assert Slowest(spans)[..n] == Slowest(spans[..n]) && Fastest(spans)[..n] == Fastest(spans[..n]);
    }
  }

  // ---------------------------------------------------------------------------
  // timed_poll
  // ---------------------------------------------------------------------------

  /** One subscriber endpoint's poll. */
  datatype Poll = Poll(name: string, site: string, count: int, stamp: Stamp)

  datatype Steadiness = Steadiness(bounds: map<string, (real, real)>, steady: bool)

  function SpanOf(was: Poll, now: Poll): (s: Span) {
    Span(now.site, now.count - was.count, was.stamp, now.stamp)
  }

  /** The two polls of an endpoint fit together: same site, no reset, in order. */
  predicate Joins(was: Poll, now: Poll) {
    was.site == now.site && Computable(SpanOf(was, now))
  }

  predicate AllJoin(previous: map<string, Poll>, current: seq<Poll>, n: nat)
    requires n <= |current|
  {
    forall k :: 0 <= k < n ==> current[k].name in previous && Joins(previous[current[k].name], current[k])
  }

  function Spans(previous: map<string, Poll>, current: seq<Poll>, n: nat): (r: seq<AnySpan>)
    requires n <= |current| && AllJoin(previous, current, n)
    ensures |r| == n
    ensures forall k :: 0 <= k < n ==> r[k] == SpanOf(previous[current[k].name], current[k])
  {
    if n == 0 then []
    else
      assert Joins(previous[current[n - 1].name], current[n - 1]);
      var last: AnySpan := SpanOf(previous[current[n - 1].name], current[n - 1]);
      Spans(previous, current, n - 1) + [last]
  }

  predicate HasSite(spans: seq<AnySpan>, site: string) {
    exists k :: 0 <= k < |spans| && spans[k].site == site
  }

  ghost predicate BoundsAre(bounds: map<string, (real, real)>, spans: seq<AnySpan>) {
    && (forall s :: s in bounds <==> HasSite(spans, s))
    && (forall s :: s in bounds ==> bounds[s] == (Low(spans, s), High(spans, s)))
  }

  lemma NoSite(spans: seq<AnySpan>, site: string)
    requires !HasSite(spans, site)
    ensures Low(spans, site) == High(spans, site) == 0.0
  {
    if spans != [] {
      var n := |spans| - 1;
      forall k | 0 <= k < n ensures spans[k].site != site {}
      NoSite(spans[..n], site);
    }
  }

  function Widened(bounds: map<string, (real, real)>, site: string, lo: real, hi: real)
    : (r: map<string, (real, real)>)
  {
    var was := if site in bounds then bounds[site] else (0.0, 0.0);
    bounds[site := (was.0 + lo, was.1 + hi)]
  }

  lemma BoundsStep(bounds: map<string, (real, real)>, spans: seq<AnySpan>, s: AnySpan)
    requires BoundsAre(bounds, spans)
    ensures BoundsAre(Widened(bounds, s.site,
                              PerSecond(s.count, Longest(s) as real), PerSecond(s.count, Shortest(s) as real)),
                      spans + [s])
  {
    var all := spans + [s];
    assert all[..|spans|] == spans && all[|spans|] == s;
    if !HasSite(spans, s.site) { NoSite(spans, s.site); }
    forall x ensures HasSite(all, x) <==> HasSite(spans, x) || x == s.site {
      if k :| 0 <= k < |spans| && spans[k].site == x { assert all[k].site == x; }
    }
  }

  predicate Ordered(p: Poll) {
    p.stamp.start <= p.stamp.end
  }

  function Names(current: seq<Poll>): (r: set<string>) {
    set k | 0 <= k < |current| :: current[k].name
  }

  /** The polls are readable and, against an earlier poll, of the same endpoints without a reset. */
  ghost predicate Comparable(previous: Option<map<string, Poll>>, current: seq<Poll>) {
    && (forall k :: 0 <= k < |current| ==> Ordered(current[k]))
    && (previous.Some? ==> previous.value.Keys == Names(current) && AllJoin(previous.value, current, |current|))
  }

  predicate Steady(bounds: map<string, (real, real)>, offer: real) {
    bounds != map[] && forall s :: s in bounds ==> offer * 0.95 <= bounds[s].0 && bounds[s].1 <= offer * 1.05
  }

  method Bounds(previous: map<string, Poll>, current: seq<Poll>) returns (ok: bool, bounds: map<string, (real, real)>)
    requires forall k :: 0 <= k < |current| ==> current[k].name in previous
    ensures ok <==> AllJoin(previous, current, |current|)
    ensures ok ==> BoundsAre(bounds, Spans(previous, current, |current|))
  {
    bounds := map[];
    ghost var spans: seq<AnySpan> := [];
    for k := 0 to |current|
      invariant AllJoin(previous, current, k)
      invariant spans == Spans(previous, current, k) && BoundsAre(bounds, spans)
    {
      var v := current[k];
      var was := previous[v.name];
      var shortest, longest := v.stamp.start - was.stamp.end, v.stamp.end - was.stamp.start;
      var count := v.count - was.count;
      if shortest <= 0 || count < 0 || was.site != v.site {
        assert !Joins(previous[current[k].name], current[k]);
        return false, bounds;
      }
      if longest == 0 {
        // the division by it raises
        assert !Joins(previous[current[k].name], current[k]);
        return false, bounds;
      }
      assert AllJoin(previous, current, k + 1);
      ghost var s: AnySpan := SpanOf(was, v);
      assert s.site == v.site && s.count == count && Shortest(s) == shortest && Longest(s) == longest;
      assert Spans(previous, current, k + 1) == spans + [s];
      hide AllJoin, Spans, BoundsAre, PerSecond, Joins, Computable, SpanOf, Shortest, Longest;
      BoundsStep(bounds, spans, s);
      hide Widened;
      bounds := Widened(bounds, v.site, PerSecond(count, longest as real), PerSecond(count, shortest as real));
      spans := spans + [s];
    }
    ok := true;
  }

  /** `timed_poll` on read endpoints: raises exactly when the polls cannot be compared. */
  method TimedPoll(previous: Option<map<string, Poll>>, current: seq<Poll>, offer: real) returns (r: Result<Steadiness>)
    ensures r.Ok? <==> Comparable(previous, current)
    ensures r.Ok? && previous.None? ==> r.value == Steadiness(map[], false)
    ensures r.Ok? && previous.Some? ==>
              && BoundsAre(r.value.bounds, Spans(previous.value, current, |current|))
              && (r.value.steady <==> Steady(r.value.bounds, offer))
  {
    for k := 0 to |current|
      invariant forall i :: 0 <= i < k ==> Ordered(current[i])
    {
      if current[k].stamp.end < current[k].stamp.start {
        return Raised;
      }
    }
    if previous.None? {
      return Ok(Steadiness(map[], false));
    }
    if previous.value.Keys != Names(current) {
      return Raised;
    }
    assert forall k :: 0 <= k < |current| ==> current[k].name in Names(current);
    var ok, bounds := Bounds(previous.value, current);
    if !ok {
      return Raised;
    }
    r := Ok(Steadiness(bounds, Steady(bounds, offer)));
  }

  /** In this choice of instants every site's rate is within five percent of the offer. */
  ghost predicate OnOffer(spans: seq<GoodSpan>, at: Instants, offer: real)
    requires Possible(spans, at)
  {
    forall s :: HasSite(spans, s) ==> offer * 0.95 <= TrueRate(spans, at, s) <= offer * 1.05
  }

  /** Steady means exactly this: there is something to measure, and whenever within their stamps the
      readings happened, every site's true rate was within five percent of the offer. */
  lemma SteadyIff(bounds: map<string, (real, real)>, spans: seq<GoodSpan>, offer: real)
    requires BoundsAre(bounds, spans)
    ensures Steady(bounds, offer) <==> spans != [] && forall at :: Possible(spans, at) ==> OnOffer(spans, at, offer)
  {
    if spans != [] { assert spans[0].site in bounds; }
    if Steady(bounds, offer) {
      forall at | Possible(spans, at) ensures OnOffer(spans, at, offer) {
        forall s | HasSite(spans, s) ensures offer * 0.95 <= TrueRate(spans, at, s) <= offer * 1.05 {
          assert s in bounds;
          TrueRateBounded(spans, at, s);
        }
      }
    }
    if spans != [] && forall at :: Possible(spans, at) ==> OnOffer(spans, at, offer) {
      forall s | s in bounds ensures offer * 0.95 <= bounds[s].0 && bounds[s].1 <= offer * 1.05 {
        BoundsReached(spans, s);
        assert OnOffer(spans, Slowest(spans), offer) && OnOffer(spans, Fastest(spans), offer);
      }
    }
  }

  /** The spans of two polls whose stamps are in order, as the tool writes them. */
  function PollSpans(previous: map<string, Poll>, current: seq<Poll>): (r: seq<GoodSpan>)
    requires Comparable(Some(previous), current) && forall n :: n in previous ==> Ordered(previous[n])
    ensures r == Spans(previous, current, |current|)
  {
    var spans := Spans(previous, current, |current|);
    assert forall k :: 0 <= k < |spans| ==> Ordered(current[k]) && Ordered(previous[current[k].name]);
    assert forall k :: 0 <= k < |spans| ==> StampsInOrder(spans[k]);
    spans
  }

  /** What a poll's verdict means: steady if and only if there is an endpoint and, whenever within their
      stamps the readings happened, every site's true rate was within five percent of the offer. */
  lemma PollMeans(previous: map<string, Poll>, current: seq<Poll>, bounds: map<string, (real, real)>, offer: real)
    requires Comparable(Some(previous), current) && forall n :: n in previous ==> Ordered(previous[n])
    requires BoundsAre(bounds, Spans(previous, current, |current|))
    ensures var spans := PollSpans(previous, current);
            Steady(bounds, offer) <==> current != [] && forall at :: Possible(spans, at) ==> OnOffer(spans, at, offer)
  {
    SteadyIff(bounds, PollSpans(previous, current), offer);
  }

  // ---------------------------------------------------------------------------
  // endpoint_seconds
  // ---------------------------------------------------------------------------

  /** The middle of the shortest and the longest window, in milliseconds; raises when the stamps leave
      more than two percent open. */
  function EndpointWindow(first: Stamp, then_: Stamp): (r: Result<real>)
    requires first.start <= first.end && then_.start <= then_.end
  {
    var shortest, longest := (then_.start - first.end) as real, (then_.end - first.start) as real;
    var dt := (shortest + longest) / 2.0;
    if shortest <= 0.0 || (longest - shortest) / (2.0 * dt) > 0.02 then Raised else Ok(dt)
  }

  predicate NearMiddle(ms: real, dt: real) {
    dt * 0.98 <= ms <= dt * 1.02
  }

  lemma Share(x: real, d: real)
    requires d > 0.0
    ensures x / (2.0 * d) > 0.02 <==> x > 0.04 * d
  {
    var q := x / (2.0 * d);
    assert q * (2.0 * d) == x;
    if q > 0.02 { assert (q - 0.02) * (2.0 * d) > 0.0; }
    if q <= 0.02 { assert (0.02 - q) * (2.0 * d) >= 0.0; }
  }

  /** Accepted exactly when the second scrape began after the first ended and, whenever the two readings
      happened, the true window was within two percent of the one used. */
  lemma EndpointWindowIff(first: Stamp, then_: Stamp)
    requires first.start <= first.end && then_.start <= then_.end
    ensures
      var r := EndpointWindow(first, then_);
      var dt := ((then_.start - first.end) as real + (then_.end - first.start) as real) / 2.0;
      && (r.Ok? ==> r.value == dt)
      && (r.Ok? <==>
            && then_.start > first.end
            && forall a: real, b: real :: Between(first, a) && Between(then_, b) ==> NearMiddle(b - a, dt))
  {
    var shortest, longest := (then_.start - first.end) as real, (then_.end - first.start) as real;
    var dt := (shortest + longest) / 2.0;
    if shortest > 0.0 { Share(longest - shortest, dt); }
    assert shortest == then_.start as real - first.end as real;
    assert longest == then_.end as real - first.start as real;
    assert Between(first, first.start as real) && Between(first, first.end as real);
    assert Between(then_, then_.start as real) && Between(then_, then_.end as real);
  }

  // ---------------------------------------------------------------------------
  // The brokers' band
  // ---------------------------------------------------------------------------

  /** `window_seconds`, in milliseconds: from the middle of one scrape to the middle of the other. */
  function MiddleWindow(s: GoodSpan): (ms: real)
    ensures ms > 0.0
  {
    (s.then_.start + s.then_.end) as real / 2.0 - (s.first.start + s.first.end) as real / 2.0
  }

  function MiddleRate(spans: seq<GoodSpan>): (r: real) {
    if spans == [] then 0.0
    else
      var s := spans[|spans| - 1];
      MiddleRate(spans[..|spans| - 1]) + PerSecond(s.count, MiddleWindow(s))
  }

  function Middles(spans: seq<GoodSpan>): (at: Instants)
    ensures |at| == |spans|
    ensures forall k :: 0 <= k < |spans| ==>
              at[k] == ((spans[k].first.start + spans[k].first.end) as real / 2.0,
                        (spans[k].then_.start + spans[k].then_.end) as real / 2.0)
  {
    seq(|spans|, k requires 0 <= k < |spans| => ((spans[k].first.start + spans[k].first.end) as real / 2.0,
                                                 (spans[k].then_.start + spans[k].then_.end) as real / 2.0))
  }

  /** The reported rate is one the stamps allow. */
  lemma {:induction false} MiddleIsPossible(spans: seq<GoodSpan>, site: string)
    requires forall k :: 0 <= k < |spans| ==> spans[k].site == site
    ensures Possible(spans, Middles(spans)) && TrueRate(spans, Middles(spans), site) == MiddleRate(spans)
  {
    if spans != [] {
      var n := |spans| - 1;
      MiddleIsPossible(spans[..n], site);
      assert Middles(spans)[..n] == Middles(spans[..n]);
    }
  }

  /** The brokers' band holds the reported rate and every rate their stamps allow, and nothing smaller
      would: both of its ends are allowed. */
  lemma BandExact(spans: seq<GoodSpan>, site: string)
    requires forall k :: 0 <= k < |spans| ==> spans[k].site == site
    ensures Low(spans, site) <= MiddleRate(spans) <= High(spans, site)
    ensures forall at :: Possible(spans, at) ==> Low(spans, site) <= TrueRate(spans, at, site) <= High(spans, site)
    ensures exists at :: Possible(spans, at) && TrueRate(spans, at, site) == Low(spans, site)
    ensures exists at :: Possible(spans, at) && TrueRate(spans, at, site) == High(spans, site)
  {
    MiddleIsPossible(spans, site);
    forall at | Possible(spans, at) ensures Low(spans, site) <= TrueRate(spans, at, site) <= High(spans, site) {
      TrueRateBounded(spans, at, site);
    }
    BoundsReached(spans, site);
  }
}
