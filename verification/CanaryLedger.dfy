/** The control's ledger (bench/scale/forward-canary.py): `ledger_report` on parsed evidence, and what
    its verdict means for the run that produced the evidence. */
module CanaryLedger {
  import opened Results
  import opened CanaryFlow
  import opened CanaryProtocol
  import opened CanaryInvariant

  /** One validated scrape. A labelled counter that never counted has no series yet. */
  datatype Snapshot = Snapshot(
    sharedRemote: Option<int>, subscriberRemote: Option<int>, received: int, delivered: int, dropped: int,
    links: Option<int>)

  /** A line of clients.tsv after the header. */
  datatype Row = Malformed | Row(pair: PairId, seen: nat, distinct: nat)

  /** The keys of timeline.tsv; `qos` is None when the trailer has none, Some(None) when unreadable. */
  datatype Timeline = Timeline(complete: bool, nodes: Option<int>, count: Option<int>, qos: Option<Option<int>>)

  /** The control's directory. `beyond` says whether it holds scrapes of brokers past the last one. */
  datatype Evidence = Evidence(
    timeline: Option<Timeline>, header: bool, rows: Option<seq<Row>>, beyond: bool,
    pre: map<nat, Snapshot>, post: map<nat, Snapshot>)

  datatype Error = Size | Clock | Clients | Pair(p: PairId) | Extra | Scrapes(b: nat) | Broker(b: nat)

  datatype Floor = Floor(forwarded: int, received: int)

  datatype Status = Fail | PassLocal | Pass

  datatype Report = Report(status: Status, floors: map<nat, Floor>, errors: seq<Error>)

  function OrZero(v: Option<int>): (n: int) {
    if v.Some? then v.value else 0
  }

  // ---------------------------------------------------------------------------
  // The pairs of a size
  // ---------------------------------------------------------------------------

  /** The pairs from `i` to each of the first `n` brokers. */
  function PairsFrom(nodes: nat, i: nat, n: nat): (r: seq<PairId>) {
    if n == 0 then [] else PairsFrom(nodes, i, n - 1) + if nodes == 1 || i != n - 1 then [(i, n - 1)] else []
  }

  function PairsTo(nodes: nat, n: nat): (r: seq<PairId>) {
    if n == 0 then [] else PairsTo(nodes, n - 1) + PairsFrom(nodes, n - 1, nodes)
  }

  function WantPairs(nodes: nat): (r: seq<PairId>) {
    PairsTo(nodes, nodes)
  }

  lemma {:induction false} PairsFromMembers(nodes: nat, i: nat, n: nat, p: PairId)
    ensures p in PairsFrom(nodes, i, n) <==> p.0 == i && p.1 < n && (nodes == 1 || p.0 != p.1)
  {
    if n > 0 { PairsFromMembers(nodes, i, n - 1, p); }
  }

  lemma {:induction false} PairsToMembers(nodes: nat, n: nat, p: PairId)
    ensures p in PairsTo(nodes, n) <==> p.0 < n && p.1 < nodes && (nodes == 1 || p.0 != p.1)
  {
    hide PairsTo, PairsFrom;
    PairsToParts(nodes, n);
    if n > 0 {
      PairsToMembers(nodes, n - 1, p);
      PairsFromMembers(nodes, n - 1, nodes, p);
    }
  }

  lemma WantPairsAre(c: Config, p: PairId)
    ensures p in WantPairs(c.nodes) <==> IsPair(c, p)
  {
    PairsToMembers(c.nodes, c.nodes, p);
  }

  ghost predicate NoRepeats(s: seq<PairId>) {
    forall i, j :: 0 <= i < j < |s| ==> s[i] != s[j]
  }

  lemma NoRepeatsConcat(a: seq<PairId>, b: seq<PairId>)
    requires NoRepeats(a) && NoRepeats(b) && forall i, j :: 0 <= i < |a| && 0 <= j < |b| ==> a[i] != b[j]
    ensures NoRepeats(a + b)
  {
    forall i, j | 0 <= i < j < |a + b| ensures (a + b)[i] != (a + b)[j] {
      if i < |a| <= j { assert a[i] != b[j - |a|]; }
    }
  }

  lemma {:induction false} PairsFromDistinct(nodes: nat, i: nat, n: nat)
    ensures NoRepeats(PairsFrom(nodes, i, n))
  {
    if n > 0 {
      PairsFromDistinct(nodes, i, n - 1);
      var a: seq<PairId>, b: seq<PairId> :=
        PairsFrom(nodes, i, n - 1), if nodes == 1 || i != n - 1 then [(i, n - 1)] else [];
      assert PairsFrom(nodes, i, n) == a + b;
      hide PairsFrom;
      forall x, y | 0 <= x < |a| && 0 <= y < |b| ensures a[x] != b[y] {
        assert a[x] in a;
        PairsFromMembers(nodes, i, n - 1, a[x]);
      }
      NoRepeatsConcat(a, b);
    }
  }

  lemma RowsApart(nodes: nat, n: nat, p: PairId, q: PairId)
    requires p in PairsTo(nodes, n) && q in PairsFrom(nodes, n, nodes)
    ensures p != q
  {
    PairsToMembers(nodes, n, p);
    PairsFromMembers(nodes, n, nodes, q);
  }

  lemma PairsToParts(nodes: nat, n: nat)
    ensures PairsTo(nodes, 0) == []
    ensures n > 0 ==> PairsTo(nodes, n) == PairsTo(nodes, n - 1) + PairsFrom(nodes, n - 1, nodes)
  {
  }

  lemma {:induction false} PairsToDistinct(nodes: nat, n: nat)
    ensures NoRepeats(PairsTo(nodes, n))
  {
    hide PairsFrom, PairsTo;
    PairsToParts(nodes, n);
    if n > 0 {
      var a, b := PairsTo(nodes, n - 1), PairsFrom(nodes, n - 1, nodes);
      PairsToDistinct(nodes, n - 1);
      PairsFromDistinct(nodes, n - 1, nodes);
      forall x, y | 0 <= x < |a| && 0 <= y < |b| ensures a[x] != b[y] { RowsApart(nodes, n - 1, a[x], b[y]); }
      NoRepeatsConcat(a, b);
    }
  }

  // ---------------------------------------------------------------------------
  // What the ledger asks of the evidence
  // ---------------------------------------------------------------------------

  /** Messages each broker must receive, and hand on, in the burst. */
  function Per(nodes: nat, count: nat): (n: nat) {
    if nodes <= 1 then count else count * (nodes - 1)
  }

  function QosOf(t: Timeline): (q: int) {
    if t.qos.Some? && t.qos.value.Some? then t.qos.value.value else 0
  }

  predicate TimelinePasses(t: Timeline, nodes: nat, count: nat) {
    t.complete && t.nodes == Some(nodes) && t.count == Some(count) && t.qos != Some(None)
  }

  /** Distinct sightings are exact at any QoS; repeats are allowed from QoS 1 on. */
  predicate SightingsPass(r: Row, count: nat, qos: int)
    requires r.Row?
  {
    r.distinct == count && r.seen >= count && (r.seen == count || qos >= 1)
  }

  predicate RowPasses(r: Row, nodes: nat, count: nat, qos: int) {
    r.Row? && r.pair in WantPairs(nodes) && SightingsPass(r, count, qos)
  }

  /** The first `k` rows pass and no two of them name the same pair. */
  ghost predicate GoodRows(rows: seq<Row>, k: nat, nodes: nat, count: nat, qos: int)
    requires k <= |rows|
  {
    && (forall i :: 0 <= i < k ==> RowPasses(rows[i], nodes, count, qos))
    && (forall i, j :: 0 <= i < j < k && rows[i].Row? && rows[j].Row? ==> rows[i].pair != rows[j].pair)
  }

  /** Some row among the first `k` names the pair. */
  ghost predicate Named(rows: seq<Row>, k: nat, p: PairId)
    requires k <= |rows|
  {
    exists i :: 0 <= i < k && rows[i].Row? && rows[i].pair == p
  }

  ghost predicate RowsPass(rows: seq<Row>, nodes: nat, count: nat, qos: int) {
    && |rows| == |WantPairs(nodes)|
    && GoodRows(rows, |rows|, nodes, count, qos)
    && (forall p :: p in WantPairs(nodes) ==> Named(rows, |rows|, p))
  }

  predicate BrokerPasses(pre: Snapshot, post: Snapshot, nodes: nat, count: nat, qos: int) {
    && post.received - pre.received == Per(nodes, count)
    && (if qos >= 1 then post.delivered - pre.delivered >= Per(nodes, count)
        else post.delivered - pre.delivered == Per(nodes, count))
    && post.dropped == pre.dropped
    && OrZero(post.subscriberRemote) == OrZero(pre.subscriberRemote)
    && OrZero(post.sharedRemote) - OrZero(pre.sharedRemote) == (if nodes == 1 then 0 else Per(nodes, count))
    && (nodes != 1 ==> post.sharedRemote.Some?)
    && pre.links == Some(nodes - 1) && post.links == Some(nodes - 1)
  }

  ghost predicate BrokersPass(e: Evidence, nodes: nat, count: nat, qos: int, n: nat) {
    forall b :: 0 <= b < n ==> b in e.pre && b in e.post && BrokerPasses(e.pre[b], e.post[b], nodes, count, qos)
  }

  ghost predicate Passes(e: Evidence, nodes: int, count: int) {
    && nodes >= 1 && count >= 1
    && e.timeline.Some? && TimelinePasses(e.timeline.value, nodes, count)
    && var qos := QosOf(e.timeline.value);
    && e.header && e.rows.Some? && RowsPass(e.rows.value, nodes, count, qos)
    && !e.beyond
    && BrokersPass(e, nodes, count, qos, nodes)
  }

  /** A timeline without a QoS is one of a QoS 0 run: nothing may be seen twice, and every delivery count must
      be exact. */
  lemma NoQosIsZero(e: Evidence, nodes: int, count: int)
    requires e.timeline.Some? && e.timeline.value.qos.None? && Passes(e, nodes, count)
    ensures forall k :: 0 <= k < |e.rows.value| ==>
              e.rows.value[k].Row? && e.rows.value[k].seen == e.rows.value[k].distinct == count
    ensures forall b :: 0 <= b < nodes ==>
              && b in e.pre && b in e.post
              && e.post[b].delivered - e.pre[b].delivered == if nodes == 1 then count else count * (nodes - 1)
  {
    hide WantPairs, Named;
    forall k | 0 <= k < |e.rows.value|
      ensures e.rows.value[k].Row? && e.rows.value[k].seen == e.rows.value[k].distinct == count
    {
      assert RowPasses(e.rows.value[k], nodes, count, 0);
    }
  }

  // ---------------------------------------------------------------------------
  // The report
  // ---------------------------------------------------------------------------

  method CheckRows(rows: seq<Row>, nodes: nat, count: nat, qos: int) returns (errors: seq<Error>, got: set<PairId>)
    ensures errors == [] <==> GoodRows(rows, |rows|, nodes, count, qos)
    ensures forall p :: p in got <==> Named(rows, |rows|, p)
  {
    errors, got := [], {};
    var k := 0;
    while k < |rows|
      invariant 0 <= k <= |rows|
      invariant forall p :: p in got <==> Named(rows, k, p)
      invariant errors == [] <==> GoodRows(rows, k, nodes, count, qos)
    {
      var row := rows[k];
      if row.Malformed? {
        errors := errors + [Clients];
      } else {
        if row.pair !in WantPairs(nodes) || row.pair in got {
          errors := errors + [Pair(row.pair)];
        }
        got := got + {row.pair};
        if row.distinct != count || row.seen < count || (row.seen != count && qos < 1) {
          errors := errors + [Pair(row.pair)];
        }
      }
      k := k + 1;
    }
  }

  method CheckMissing(want: seq<PairId>, got: set<PairId>) returns (errors: seq<Error>)
    ensures errors == [] <==> forall p :: p in want ==> p in got
  {
    errors := [];
    var k := 0;
    while k < |want|
      invariant 0 <= k <= |want|
      invariant errors == [] <==> forall i :: 0 <= i < k ==> want[i] in got
    {
      if want[k] !in got {
        errors := errors + [Pair(want[k])];
      }
      k := k + 1;
    }
  }

  method CheckBroker(b: nat, pre: Snapshot, post: Snapshot, nodes: nat, count: nat, qos: int)
    returns (errors: seq<Error>)
    requires nodes >= 1
    ensures errors == [] <==> BrokerPasses(pre, post, nodes, count, qos)
  {
    errors := [];
    var local := nodes == 1;
    var per := if local then count else count * (nodes - 1);
    if !local && post.sharedRemote.None? {
      errors := errors + [Broker(b)];
    }
    if post.received - pre.received != per {
      errors := errors + [Broker(b)];
    }
    var delivered := post.delivered - pre.delivered;
    if if qos >= 1 then delivered < per else delivered != per {
      errors := errors + [Broker(b)];
    }
    if post.dropped - pre.dropped != 0 {
      errors := errors + [Broker(b)];
    }
    if OrZero(post.subscriberRemote) - OrZero(pre.subscriberRemote) != 0 {
      errors := errors + [Broker(b)];
    }
    if OrZero(post.sharedRemote) - OrZero(pre.sharedRemote) != if local then 0 else per {
      errors := errors + [Broker(b)];
    }
    if pre.links != Some(nodes - 1) {
      errors := errors + [Broker(b)];
    }
    if post.links != Some(nodes - 1) {
      errors := errors + [Broker(b)];
    }
  }

  /** The floors the later certificate holds the brokers to: what the post scrape read. */
  function FloorOf(post: Snapshot, nodes: nat): (f: Floor) {
    Floor(if nodes == 1 then 0 else OrZero(post.sharedRemote), post.received)
  }

  ghost predicate FloorsAre(floors: map<nat, Floor>, e: Evidence, nodes: nat, n: nat) {
    && (forall b :: b in floors <==> b < n && b in e.pre && b in e.post)
    && (forall b :: b in floors ==> b in e.post && floors[b] == FloorOf(e.post[b], nodes))
  }

  method CheckBrokers(e: Evidence, nodes: nat, count: nat, qos: int)
    returns (floors: map<nat, Floor>, errors: seq<Error>)
    requires nodes >= 1
    ensures errors == [] <==> BrokersPass(e, nodes, count, qos, nodes)
    ensures FloorsAre(floors, e, nodes, nodes)
  {
    floors, errors := map[], [];
    var b := 0;
    while b < nodes
      invariant 0 <= b <= nodes
      invariant errors == [] <==> BrokersPass(e, nodes, count, qos, b)
      invariant FloorsAre(floors, e, nodes, b)
    {
      if b in e.pre && b in e.post {
        var more := CheckBroker(b, e.pre[b], e.post[b], nodes, count, qos);
        errors := errors + more;
        floors := floors[b := FloorOf(e.post[b], nodes)];
      } else {
        errors := errors + [Scrapes(b)];
      }
      b := b + 1;
    }
  }

  method CheckClients(e: Evidence, nodes: nat, count: nat, qos: int) returns (errors: seq<Error>)
    ensures errors == [] <==> e.rows.Some? && e.header && RowsPass(e.rows.value, nodes, count, qos)
  {
    errors := [];
    if e.rows.None? {
      errors := [Clients];
    } else {
      if !e.header {
        errors := errors + [Clients];
      }
      if |e.rows.value| != |WantPairs(nodes)| {
        errors := errors + [Clients];
      }
      var wrong, got := CheckRows(e.rows.value, nodes, count, qos);
      var missing := CheckMissing(WantPairs(nodes), got);
      errors := errors + wrong + missing;
    }
  }

  method CheckTimeline(t: Option<Timeline>, nodes: nat, count: nat) returns (qos: int, errors: seq<Error>)
    ensures errors == [] <==> t.Some? && TimelinePasses(t.value, nodes, count)
    ensures t.Some? ==> qos == QosOf(t.value)
  {
    qos, errors := 0, [];
    if t.None? {
      errors := [Clock];
    } else {
      if t.value.qos == Some(None) {
        errors := errors + [Clock];
      } else if t.value.qos.Some? {
        qos := t.value.qos.value.value;
      }
      if !t.value.complete || t.value.nodes != Some(nodes) || t.value.count != Some(count) {
        errors := errors + [Clock];
      }
    }
  }

  method LedgerReport(e: Evidence, nodes: int, count: int) returns (report: Report)
    ensures report.status.Fail? <==> report.errors != []
    ensures report.errors == [] <==> Passes(e, nodes, count)
    ensures report.status == (if !Passes(e, nodes, count) then Fail else if nodes == 1 then PassLocal else Pass)
    ensures if nodes < 1 || count < 1 then report.floors == map[] else FloorsAre(report.floors, e, nodes, nodes)
  {
    if nodes < 1 || count < 1 {
      return Report(Fail, map[], [Size]);
    }
    var qos, errors := CheckTimeline(e.timeline, nodes, count);
    var clients := CheckClients(e, nodes, count, qos);
    var extra := if e.beyond then [Extra] else [];
    var floors, brokers := CheckBrokers(e, nodes, count, qos);
    errors := errors + clients + extra + brokers;
    report := Report(if errors != [] then Fail else if nodes == 1 then PassLocal else Pass, floors, errors);
  }

  // ---------------------------------------------------------------------------
  // The evidence a run leaves
  // ---------------------------------------------------------------------------

  /** A broker's scrape: the forwarding series appears with its first count. */
  function SnapshotOf(k: Counters): (r: Snapshot) {
    var forwarded := if k.forwarded == 0 then None else Some(k.forwarded);
    Snapshot(forwarded, None, k.received, k.delivered, k.dropped, Some(k.links))
  }

  function RowOf(s: State, p: PairId): (r: Row) {
    if p in s.flows then Row(p, Bursts(s.flows[p].seen), |BurstSet(s.flows[p].seen)|) else Row(p, 0, 0)
  }

  function RowsOf(s: State, pairs: seq<PairId>): (r: seq<Row>)
    ensures |r| == |pairs| && forall k :: 0 <= k < |r| ==> r[k] == RowOf(s, pairs[k])
  {
    seq(|pairs|, k requires 0 <= k < |pairs| => RowOf(s, pairs[k]))
  }

  function SnapshotsOf(counters: seq<Counters>): (r: map<nat, Snapshot>)
    ensures forall b: nat :: b in r <==> b < |counters|
    ensures forall b: nat :: b in r ==> r[b] == SnapshotOf(counters[b])
  {
    map b: nat | b < |counters| :: SnapshotOf(counters[b])
  }

  function EvidenceOf(c: Config, s: State): (e: Evidence) {
    Evidence(Some(Timeline(s.phase.Complete?, Some(c.nodes), Some(c.count), Some(Some(c.qos)))),
             true, Some(RowsOf(s, WantPairs(c.nodes))), false, SnapshotsOf(s.pre), SnapshotsOf(s.post))
  }

  /** Every member saw every message of the burst. */
  ghost predicate EveryoneSaw(s: State) {
    forall p :: p in s.flows ==> AllSeen(s.flows[p])
  }

  /** The mesh was whole at both scrapes of every broker. */
  ghost predicate MeshWhole(c: Config, s: State) {
    && |s.pre| == |s.post| == c.nodes
    && forall b :: 0 <= b < c.nodes ==> s.pre[b].links == s.post[b].links == c.nodes - 1
  }

  lemma RowOfPasses(c: Config, s: State, p: PairId)
    requires FlowsOk(c, s) && s.phase.Complete? && p in s.flows
    ensures var r := RowOf(s, p); r.Row? && r.pair == p && (SightingsPass(r, c.count, c.qos) <==> AllSeen(s.flows[p]))
  {
    var f := s.flows[p];
    assert FlowOk(f, c.qos) && PhaseOk(c, Complete, f);
    hide FlowsOk, FlowOk, Bursts, BurstSet, AllSeen;
    DistinctIff(f, c.qos);
    Sightings(f, c.qos);
  }

  ghost predicate Aligned(s: State, want: seq<PairId>, rows: seq<Row>, count: nat, qos: int) {
    && |rows| == |want|
    && (forall p :: p in want <==> p in s.flows)
    && (forall k :: 0 <= k < |want| ==>
          && want[k] in s.flows && rows[k].Row? && rows[k].pair == want[k]
          && (SightingsPass(rows[k], count, qos) <==> AllSeen(s.flows[want[k]])))
  }

  lemma WantPairsHeld(c: Config, s: State, p: PairId)
    requires FlowsOk(c, s)
    ensures p in WantPairs(c.nodes) <==> p in s.flows
  {
    hide WantPairs;
    WantPairsAre(c, p);
  }

  lemma RowsAligned(c: Config, s: State)
    requires FlowsOk(c, s) && s.phase.Complete?
    ensures Aligned(s, WantPairs(c.nodes), RowsOf(s, WantPairs(c.nodes)), c.count, c.qos)
  {
    hide WantPairs, RowOf, SightingsPass, AllSeen, FlowsOk;
    var want := WantPairs(c.nodes);
    var rows := RowsOf(s, want);
    forall p: PairId ensures p in want <==> p in s.flows { WantPairsHeld(c, s, p); }
    forall k | 0 <= k < |want|
      ensures want[k] in s.flows && rows[k].Row? && rows[k].pair == want[k]
      ensures SightingsPass(rows[k], c.count, c.qos) <==> AllSeen(s.flows[want[k]])
    {
      assert want[k] in want;
      RowOfPasses(c, s, want[k]);
    }
  }

  lemma RowsFollow(s: State, rows: seq<Row>, nodes: nat, count: nat, qos: int)
    requires Aligned(s, WantPairs(nodes), rows, count, qos) && NoRepeats(WantPairs(nodes))
    ensures RowsPass(rows, nodes, count, qos) <==> EveryoneSaw(s)
  {
    var want := WantPairs(nodes);
    hide WantPairs, SightingsPass, AllSeen;
    if EveryoneSaw(s) {
      forall p | p in want ensures Named(rows, |rows|, p) {
        var k :| 0 <= k < |want| && want[k] == p;
        assert rows[k].pair == p;
      }
    }
    if RowsPass(rows, nodes, count, qos) {
      forall p | p in s.flows ensures AllSeen(s.flows[p]) {
        var k :| 0 <= k < |want| && want[k] == p;
        assert RowPasses(rows[k], nodes, count, qos);
      }
    }
  }

  lemma RowsOfPass(c: Config, s: State)
    requires FlowsOk(c, s) && s.phase.Complete?
    ensures RowsPass(RowsOf(s, WantPairs(c.nodes)), c.nodes, c.count, c.qos) <==> EveryoneSaw(s)
  {
    PairsToDistinct(c.nodes, c.nodes);
    RowsAligned(c, s);
    RowsFollow(s, RowsOf(s, WantPairs(c.nodes)), c.nodes, c.count, c.qos);
  }

  // ---------------------------------------------------------------------------
  // What the counters did
  // ---------------------------------------------------------------------------

  /** Every broker is in as many pairs as the ledger counts on. */
  lemma PerIsPeers(c: Config, b: nat)
    requires b < c.nodes
    ensures Peers(c, b, c.nodes) * c.count == Per(c.nodes, c.count)
    ensures c.count > 0 ==> Per(c.nodes, c.count) > 0
  {
    PeersBelow(c, b, c.nodes);
    var n := Peers(c, b, c.nodes);
    if n > 0 { OneMore(n - 1, c.count); }
  }

  /** A complete control's brokers received the burst exactly, whatever was lost after that. */
  lemma ReceivedExactly(c: Config, s: State, b: nat)
    requires Invariant(c, s) && s.phase.Complete? && b < c.nodes
    ensures |s.pre| == |s.post| == c.nodes
    ensures s.post[b].received - s.pre[b].received == Per(c.nodes, c.count)
  {
    forall p | p in s.flows ensures TallyOf(ReceivedBurst, s.flows[p]) == c.count {
      BurstIsThrough(s.flows[p], c.qos);
    }
    FlowKeys(c, s);
    assert Accounts(c, s.flows, b, s.post[b], s.pre[b]);
    hide FlowsOk, Sum, Booked, TallyOf;
    SumConstant(c, s.flows, b, c.nodes, true, ReceivedBurst, c.count);
    PerIsPeers(c, b);
  }

  lemma AllTallied(c: Config, s: State)
    requires Invariant(c, s) && s.phase.Complete? && EveryoneSaw(s)
    ensures Clean(s.flows)
    ensures forall p, t :: p in s.flows ==> TallyOf(t, s.flows[p]) == c.count
  {
    forall p, t: Tally | p in s.flows ensures TallyOf(t, s.flows[p]) == c.count && Lossless(s.flows[p]) {
      SeenMeansNotLost(s.flows[p], c.qos);
    }
    hide Invariant, TallyOf, EveryoneSaw;
    forall p | p in s.flows ensures Lossless(s.flows[p]) {
      assert TallyOf(ReceivedBurst, s.flows[p]) == c.count;
    }
  }

  /** With every message seen, forwarding and delivery are exact too, and nothing was dropped. */
  lemma CountersExact(c: Config, s: State, b: nat)
    requires Invariant(c, s) && s.phase.Complete? && EveryoneSaw(s) && b < c.nodes
    ensures |s.pre| == |s.post| == c.nodes
    ensures s.post[b].forwarded - s.pre[b].forwarded == if c.nodes == 1 then 0 else Per(c.nodes, c.count)
    ensures s.post[b].delivered - s.pre[b].delivered >= Per(c.nodes, c.count)
    ensures c.qos == 0 ==> s.post[b].delivered - s.pre[b].delivered == Per(c.nodes, c.count)
    ensures s.post[b].dropped == s.pre[b].dropped
  {
    AllTallied(c, s);
    FlowKeys(c, s);
    assert Accounts(c, s.flows, b, s.post[b], s.pre[b]);
    hide FlowsOk, Sum, Booked, TallyOf, Clean, EveryoneSaw;
    SumConstant(c, s.flows, b, c.nodes, true, ForwardedBurst, c.count);
    SumConstant(c, s.flows, b, c.nodes, false, DeliveredBurst, c.count);
    PerIsPeers(c, b);
  }

  lemma BrokerOfPasses(c: Config, s: State, b: nat)
    requires Invariant(c, s) && s.phase.Complete? && EveryoneSaw(s) && b < c.nodes && c.count >= 1
    ensures |s.pre| == |s.post| == c.nodes
    ensures BrokerPasses(SnapshotOf(s.pre[b]), SnapshotOf(s.post[b]), c.nodes, c.count, c.qos) <==>
            s.pre[b].links == c.nodes - 1 && s.post[b].links == c.nodes - 1
  {
    hide Invariant, EveryoneSaw, Per;
    ReceivedExactly(c, s, b);
    CountersExact(c, s, b);
    PerIsPeers(c, b);
  }

  lemma BrokersOfPass(c: Config, s: State)
    requires Invariant(c, s) && s.phase.Complete? && EveryoneSaw(s) && c.nodes >= 1 && c.count >= 1
    ensures BrokersPass(EvidenceOf(c, s), c.nodes, c.count, c.qos, c.nodes) <==> MeshWhole(c, s)
  {
    var e := EvidenceOf(c, s);
    hide Invariant, EveryoneSaw, BrokerPasses, SnapshotOf, RowsOf;
    BrokerOfPasses(c, s, 0);
    forall b: nat | b < c.nodes
      ensures BrokerPasses(e.pre[b], e.post[b], c.nodes, c.count, c.qos) <==>
              s.pre[b].links == c.nodes - 1 && s.post[b].links == c.nodes - 1
    {
      BrokerOfPasses(c, s, b);
    }
  }

  // ---------------------------------------------------------------------------
  // What the ledger's verdict means
  // ---------------------------------------------------------------------------

  /** On the evidence of any run, from any start and under any interleaving, losses and redeliveries
      included, the ledger passes exactly when the control completed, every member saw every message of
      the burst, and the mesh was whole at both scrapes of every broker. */
  lemma LedgerMeans(c: Config, s0: State, actions: seq<Action>)
    requires Init(c, s0) && c.nodes >= 1 && c.count >= 1
    ensures var s := Run(c, s0, actions);
            Passes(EvidenceOf(c, s), c.nodes, c.count) <==>
              s.phase.Complete? && EveryoneSaw(s) && MeshWhole(c, s)
  {
    var s := Run(c, s0, actions);
    RunKeeps(c, s0, actions);
    if s.phase.Complete? {
      RowsOfPass(c, s);
      if EveryoneSaw(s) { BrokersOfPass(c, s); }
    }
  }

  /** A passing ledger's floors are what each broker had counted when its post scrape was taken, and
      outside the one-broker case both are positive. */
  lemma FloorsPositive(c: Config, s0: State, actions: seq<Action>, b: nat)
    requires Init(c, s0) && c.nodes >= 1 && c.count >= 1 && b < c.nodes
    requires Passes(EvidenceOf(c, Run(c, s0, actions)), c.nodes, c.count)
    ensures var s := Run(c, s0, actions);
            && |s.post| == c.nodes
            && FloorOf(SnapshotOf(s.post[b]), c.nodes) ==
               Floor(if c.nodes == 1 then 0 else s.post[b].forwarded, s.post[b].received)
            && s.post[b].received > 0 && (c.nodes > 1 ==> s.post[b].forwarded > 0)
  {
    var s := Run(c, s0, actions);
    RunKeeps(c, s0, actions);
    LedgerMeans(c, s0, actions);
    hide Invariant, Passes, EveryoneSaw, Run, Init;
    ReceivedExactly(c, s, b);
    CountersExact(c, s, b);
    PerIsPeers(c, b);
  }
}
