/** What the crossing certificate proves about the brokers' lives (bench/scale/extract-lane-e.py,
    bench/scale/run-curve.sh). */
module CertificateTheorems {
  import opened Results
  import opened BrokerHistory
  import opened CanaryLedger
  import opened Certificate

  /** When one broker was looked at: the control's pre and post scrapes, the control's PID, the PID
      readings of the two window edges, and the scrape behind every label. At each edge the PID is read
      first and the scrape taken after it. */
  datatype Reading = Reading(
    h: History, preAt: nat, floorAt: nat, pidAt: nat, openPidAt: nat, closePidAt: nat, times: seq<nat>)

  const OPEN := 1
  const CLOSE := 2

  ghost predicate InOrder(r: Reading) {
    && FreshPids(r.h) && r.preAt <= r.floorAt <= r.pidAt
    && 0 < |r.times| && r.pidAt <= r.times[0] && r.times[|r.times| - 1] <= |r.h.events|
    && (forall i, j :: 0 <= i < j < |r.times| ==> r.times[i] <= r.times[j])
  }

  /** The scrapes are what the broker showed. */
  ghost predicate Scraped(r: Reading, snaps: Snaps, b: nat)
    requires InOrder(r) && forall k :: 0 <= k < |snaps| ==> b < |snaps[k]|
  {
    && |snaps| == |r.times|
    && (forall k :: 0 <= k < |snaps| ==> r.times[k] <= |r.h.events| && Shows(snaps[k][b].samples, r.h, r.times[k]))
  }

  /** One scrape of the control, as the ledger reads it, is what the broker showed. */
  ghost predicate ControlShows(s: Snapshot, h: History, t: nat)
    requires t <= |h.events|
  {
    OrZero(s.sharedRemote) == Tally(h, SharedRemote, t) && s.received == Tally(h, Received, t)
  }

  /** The control's evidence passes the ledger, was read off this broker, and left this floor. */
  ghost predicate ControlPassed(r: Reading, e: Evidence, nodes: nat, count: nat, canary: Canary, b: nat)
    requires InOrder(r) && canary.Passed? && b < nodes && b < |canary.floors|
  {
    && Passes(e, nodes, count) && b in e.pre && b in e.post && r.floorAt <= |r.h.events|
    && ControlShows(e.pre[b], r.h, r.preAt) && ControlShows(e.post[b], r.h, r.floorAt)
    && canary.floors[b] == FloorOf(e.post[b], nodes)
  }

  lemma PerPositive(nodes: nat, count: nat)
    requires nodes > 1 && count >= 1
    ensures Per(nodes, count) > 0
  {
    assert count * (nodes - 1) >= nodes - 1;
  }

  /** A passing control leaves positive floors: what the process had counted at the post scrape. */
  lemma ControlFloors(r: Reading, e: Evidence, nodes: nat, count: nat, canary: Canary, b: nat)
    requires InOrder(r) && canary.Passed? && b < nodes && b < |canary.floors| && nodes > 1
    requires ControlPassed(r, e, nodes, count, canary, b)
    ensures r.floorAt <= |r.h.events|
    ensures canary.floors[b] == Floor(Tally(r.h, SharedRemote, r.floorAt), Tally(r.h, Received, r.floorAt))
    ensures canary.floors[b].forwarded > 0 && canary.floors[b].received > 0
  {
    hide RowsPass, TimelinePasses, Per, FreshPids, Tally;
    PerPositive(nodes, count);
    assert BrokerPasses(e.pre[b], e.post[b], nodes, count, QosOf(e.timeline.value));
  }

  /** The PIDs are what the process manager said, and window.tsv names one PID at both edges. */
  ghost predicate PidsRead(r: Reading, window: WindowPids, canary: Canary, b: nat)
    requires InOrder(r) && canary.Passed? && b < |canary.mainPid|
  {
    && |r.times| >= 3 && r.times[0] <= r.openPidAt <= r.times[OPEN] <= r.closePidAt <= r.times[CLOSE] <= |r.h.events|
    && b in window && window[b] == Pid(r.h, r.openPidAt) == Pid(r.h, r.closePidAt)
    && (canary.mainPid[b].Some? ==> canary.mainPid[b].value == Pid(r.h, r.pidAt))
  }

  lemma CounterNames()
    ensures IsCounter(RECEIVED) && IsCounter(FORWARDED)
  {
    assert RECEIVED[|RECEIVED| - 6..] == "_total";
    assert FORWARDED[|FORWARDED| - 6..] == "_total";
  }

  function Delta(snaps: Snaps, b: nat, w: Selection, lo: nat, hi: nat): (n: int)
    requires lo < |snaps| && hi < |snaps| && b < |snaps[lo]| && b < |snaps[hi]|
  {
    Sum(snaps[hi][b].samples, w) - Sum(snaps[lo][b].samples, w)
  }

  /** Between any two labels, in any certified rung, bound or unbound: a broker's received and forwarded
      deltas are what it performed if and only if it did not restart between the two scrapes. A restart
      can only make them too small. */
  lemma DeltaMeans(r: Reading, e: Evidence, count: nat, nodes: nat, snaps: Snaps, window: Option<WindowPids>,
                   canary: Canary, b: nat, lo: nat, hi: nat)
    requires Sized(nodes, snaps, Some(canary)) && canary.Passed? && b < nodes && nodes > 1
    requires InOrder(r) && Scraped(r, snaps, b) && ControlPassed(r, e, nodes, count, canary, b)
    requires Certifiable(nodes, snaps, window, Some(canary)) && lo < hi < |snaps|
    ensures r.times[lo] <= r.times[hi] <= |r.h.events|
    ensures forall w :: w == Received || w == Forwarded ==>
              && (Delta(snaps, b, w, lo, hi) == Performed(r.h, w, r.times[lo], r.times[hi]) <==>
                  !RestartIn(r.h, r.times[lo], r.times[hi]))
              && Delta(snaps, b, w, lo, hi) <= Performed(r.h, w, r.times[lo], r.times[hi])
  {
    ControlFloors(r, e, nodes, count, canary, b);
    assert BrokerHeld(snaps, window, canary, b) && FloorHeld(snaps[lo][b], canary.floors[b]);
    CounterNames();
    var first, then_ := snaps[lo][b].samples, snaps[hi][b].samples;
    assert Shows(first, r.h, r.times[lo]) && Shows(then_, r.h, r.times[hi]);
    hide IsCounter, Certifiable, Shows, ControlPassed;
    SumShown(first, r.h, r.times[lo], SharedRemote);
    SumShown(first, r.h, r.times[lo], Forwarded);
    ReasonWithinFamily(r.h, FORWARDED, "shared-remote", r.times[lo]);
    DeltaExactIff(r.h, Received, first, r.times[lo], then_, r.times[hi]);
    DeltaExactIff(r.h, Forwarded, first, r.times[lo], then_, r.times[hi]);
  }

  /** A bound certificate: the process whose PID the control recorded is still there at the close
      edge's PID reading. */
  lemma BoundMeans(r: Reading, nodes: nat, snaps: Snaps, window: WindowPids, canary: Canary, b: nat)
    requires Sized(nodes, snaps, Some(canary)) && canary.Passed? && b < nodes
    requires InOrder(r) && PidsRead(r, window, canary, b)
    requires Certifiable(nodes, snaps, Some(window), Some(canary))
    ensures r.pidAt <= r.closePidAt && !RestartIn(r.h, r.pidAt, r.closePidAt)
    ensures canary.mainPid[b] == Some(Pid(r.h, r.closePidAt))
  {
    assert BrokerHeld(snaps, Some(window), canary, b);
    SamePid(r.h, r.pidAt, r.closePidAt);
  }

  /** A bound certificate's window: its deltas are what the broker performed between the two scrapes
      if and only if the process that answered the close scrape has the certified PID. That PID is
      read just before the scrape, so the certificate itself does not say. */
  lemma BoundWindow(r: Reading, e: Evidence, count: nat, nodes: nat, snaps: Snaps, window: WindowPids,
                    canary: Canary, b: nat)
    requires Sized(nodes, snaps, Some(canary)) && canary.Passed? && b < nodes && nodes > 1
    requires InOrder(r) && Scraped(r, snaps, b) && PidsRead(r, window, canary, b)
    requires ControlPassed(r, e, nodes, count, canary, b)
    requires Certifiable(nodes, snaps, Some(window), Some(canary))
    ensures forall w :: w == Received || w == Forwarded ==>
              && (Delta(snaps, b, w, OPEN, CLOSE) == Performed(r.h, w, r.times[OPEN], r.times[CLOSE]) <==>
                  canary.mainPid[b] == Some(Pid(r.h, r.times[CLOSE])))
              && Delta(snaps, b, w, OPEN, CLOSE) <= Performed(r.h, w, r.times[OPEN], r.times[CLOSE])
  {
    hide ControlPassed;
    BoundMeans(r, nodes, snaps, window, canary, b);
    DeltaMeans(r, e, count, nodes, snaps, Some(window), canary, b, OPEN, CLOSE);
    hide Certifiable, Sized, Scraped;
    SamePid(r.h, r.closePidAt, r.times[CLOSE]);
    assert RestartIn(r.h, r.times[OPEN], r.times[CLOSE]) <==> RestartIn(r.h, r.closePidAt, r.times[CLOSE]) by {
      forall t | r.times[OPEN] <= t < r.closePidAt ensures !r.h.events[t].Restarted? {
        assert r.pidAt <= t < r.closePidAt;
      }
    }
  }

  /** A certified zero is a zero: with the certified process at the close scrape and a forwarded delta
      of nothing, the broker forwarded nothing in the window. */
  lemma CertifiedZero(r: Reading, e: Evidence, count: nat, nodes: nat, snaps: Snaps, window: WindowPids,
                    canary: Canary, b: nat)
    requires Sized(nodes, snaps, Some(canary)) && canary.Passed? && b < nodes && nodes > 1
    requires InOrder(r) && Scraped(r, snaps, b) && PidsRead(r, window, canary, b)
    requires ControlPassed(r, e, nodes, count, canary, b)
    requires Certifiable(nodes, snaps, Some(window), Some(canary))
    requires canary.mainPid[b] == Some(Pid(r.h, r.times[CLOSE])) && Delta(snaps, b, Forwarded, OPEN, CLOSE) == 0
    ensures forall t :: r.times[OPEN] <= t < r.times[CLOSE] ==>
              !(r.h.events[t].Counted? && r.h.events[t].series.name == FORWARDED)
  {
    hide ControlPassed, Certifiable, Scraped, FreshPids, Performed;
    BoundWindow(r, e, count, nodes, snaps, window, canary, b);
    NothingPerformed(r.h, Forwarded, r.times[OPEN], r.times[CLOSE]);
  }

  // ---------------------------------------------------------------------------
  // No false refusal
  // ---------------------------------------------------------------------------

  lemma FloorKept(r: Reading, snaps: Snaps, canary: Canary, b: nat, k: nat)
    requires canary.Passed? && b < |canary.floors| && forall k :: 0 <= k < |snaps| ==> b < |snaps[k]|
    requires InOrder(r) && Scraped(r, snaps, b) && k < |snaps| && r.floorAt <= |r.h.events|
    requires canary.floors[b] == Floor(Tally(r.h, SharedRemote, r.floorAt), Tally(r.h, Received, r.floorAt))
    requires r.floorAt <= r.times[k] && !RestartIn(r.h, r.floorAt, r.times[k])
    ensures FloorHeld(snaps[k][b], canary.floors[b])
  {
    CounterNames();
    hide IsCounter, Shows;
    SumShown(snaps[k][b].samples, r.h, r.times[k], SharedRemote);
    SumShown(snaps[k][b].samples, r.h, r.times[k], Received);
    OneProcess(r.h, SharedRemote, r.floorAt, r.times[k]);
    OneProcess(r.h, Received, r.floorAt, r.times[k]);
  }

  lemma ScrapesContinue(h: History, first: seq<Sample>, a: nat, then_: seq<Sample>, b: nat)
    requires a <= b <= |h.events| && Shows(first, h, a) && Shows(then_, h, b) && !RestartIn(h, a, b)
    ensures Continues(first, then_)
  {
    hide IsCounter;
    forall k | 0 <= k < |first| ensures SampleContinues(first[k], then_) {
      GetPresent(first, k);
      ValueRises(h, first[k].series, a, b);
    }
  }

  /** Label `k + 1` does not look like a reset after label `k`. */
  ghost predicate NextContinues(snaps: Snaps, b: nat, k: nat)
    requires k + 1 < |snaps| && b < |snaps[k]| && b < |snaps[k + 1]|
  {
    Continues(snaps[k][b].samples, snaps[k + 1][b].samples)
  }

  /** Brokers that live from the control's post scrape to the last scrape are certified, and no two
      consecutive labels look like a reset. */
  lemma UnrestartedCertified(rs: seq<Reading>, e: Evidence, count: nat, nodes: nat, snaps: Snaps,
                             window: WindowPids, canary: Canary)
    requires Sized(nodes, snaps, Some(canary)) && canary.Passed? && nodes > 1 && |rs| == nodes
    requires forall b :: 0 <= b < nodes ==> Living(rs[b], e, count, nodes, snaps, window, canary, b)
    ensures Certifiable(nodes, snaps, Some(window), Some(canary))
    ensures forall b, k :: 0 <= b < nodes && 0 <= k < |snaps| - 1 ==> NextContinues(snaps, b, k)
  {
    forall b | 0 <= b < nodes ensures BrokerHeld(snaps, Some(window), canary, b) {
      LivingHeld(rs[b], e, count, nodes, snaps, window, canary, b);
    }
    assert Living(rs[0], e, count, nodes, snaps, window, canary, 0);
    forall b, k | 0 <= b < nodes && 0 <= k < |snaps| - 1
      ensures NextContinues(snaps, b, k)
    {
      assert Living(rs[b], e, count, nodes, snaps, window, canary, b);
      LivingContinues(rs[b], e, count, nodes, snaps, window, canary, b, k);
    }
  }

  ghost predicate Living(
    r: Reading, e: Evidence, count: nat, nodes: nat, snaps: Snaps, window: WindowPids, canary: Canary, b: nat)
    requires canary.Passed? && b < |canary.floors| && b < |canary.mainPid| && b < nodes && nodes > 1
    requires forall k :: 0 <= k < |snaps| ==> b < |snaps[k]|
  {
    && InOrder(r) && Scraped(r, snaps, b) && PidsRead(r, window, canary, b) && canary.mainPid[b].Some?
    && ControlPassed(r, e, nodes, count, canary, b)
    && r.floorAt <= r.times[|r.times| - 1] && !RestartIn(r.h, r.floorAt, r.times[|r.times| - 1])
  }

  lemma LivingHeld(
    r: Reading, e: Evidence, count: nat, nodes: nat, snaps: Snaps, window: WindowPids, canary: Canary, b: nat)
    requires canary.Passed? && b < |canary.floors| && b < |canary.mainPid| && b < nodes && nodes > 1
    requires forall k :: 0 <= k < |snaps| ==> b < |snaps[k]|
    requires Living(r, e, count, nodes, snaps, window, canary, b)
    ensures BrokerHeld(snaps, Some(window), canary, b)
  {
    hide FloorHeld, ControlPassed, Shows, FreshPids;
    ControlFloors(r, e, nodes, count, canary, b);
    forall k | 0 <= k < |snaps| ensures FloorHeld(snaps[k][b], canary.floors[b]) {
      assert r.times[0] <= r.times[k] <= r.times[|r.times| - 1];
      FloorKept(r, snaps, canary, b, k);
    }
    assert r.times[CLOSE] <= r.times[|r.times| - 1];
    SamePid(r.h, r.pidAt, r.openPidAt);
  }

  lemma LivingContinues(
    r: Reading, e: Evidence, count: nat, nodes: nat, snaps: Snaps, window: WindowPids, canary: Canary, b: nat, k: nat)
    requires canary.Passed? && b < |canary.floors| && b < |canary.mainPid| && b < nodes && nodes > 1
    requires forall k :: 0 <= k < |snaps| ==> b < |snaps[k]|
    requires Living(r, e, count, nodes, snaps, window, canary, b) && k + 1 < |snaps|
    ensures NextContinues(snaps, b, k)
  {
    hide ControlPassed, PidsRead, Shows, FreshPids, Continues;
    assert r.times[0] <= r.times[k] <= r.times[k + 1] <= r.times[|r.times| - 1];
    assert !RestartIn(r.h, r.times[k], r.times[k + 1]);
    ScrapesContinue(r.h, snaps[k][b].samples, r.times[k], snaps[k + 1][b].samples, r.times[k + 1]);
  }

  // ---------------------------------------------------------------------------
  // What a certificate does not rule out
  // ---------------------------------------------------------------------------

  const ForwardedSeries: Series := Series(FORWARDED, "shared-remote", "")
  const ReceivedSeries: Series := Series(RECEIVED, "", "")

  /** One message received and forwarded; a restart; one forwarded and two received. */
  const Restarting: History :=
    History(1, [Counted(ForwardedSeries), Counted(ReceivedSeries), Restarted(2),
                Counted(ForwardedSeries), Counted(ReceivedSeries), Counted(ReceivedSeries)])

  function CountsOf(forwarded: int, received: int): (s: seq<Sample>) {
    [Sample(ForwardedSeries, forwarded), Sample(ReceivedSeries, received)]
  }

  lemma NamesDiffer()
    ensures FORWARDED != RECEIVED && FORWARDED != START_TIME && RECEIVED != START_TIME
  {
    assert FORWARDED[14] == 'f' && RECEIVED[14] == 'r';
    assert FORWARDED[0] == RECEIVED[0] == 'm' && START_TIME[0] == 'p';
  }

  lemma CountsOfSums(f: int, g: int)
    ensures Sum(CountsOf(f, g), SharedRemote) == Sum(CountsOf(f, g), Forwarded) == f
    ensures Sum(CountsOf(f, g), Received) == g
  {
    NamesDiffer();
    var t := CountsOf(f, g)[..1];
    assert t[..0] == [];
    forall w: Selection ensures Sum(t, w) == if Selects(w, ForwardedSeries) then f else 0 {
      assert Sum(t[..0], w) == 0;
    }
  }

  lemma CountsOfGet(f: int, g: int, x: Series)
    ensures Get(CountsOf(f, g), x) == if x == ForwardedSeries then f else if x == ReceivedSeries then g else 0
  {
    NamesDiffer();
    var t := CountsOf(f, g)[..1];
    assert t[..0] == [] && Get(t[..0], x) == 0;
  }

  lemma RestartingValues(x: Series)
    ensures Value(Restarting, x, 2) == Value(Restarting, x, 5) == Get(CountsOf(1, 1), x)
    ensures Value(Restarting, x, 6) == Get(CountsOf(1, 2), x)
  {
    NamesDiffer();
    CountsOfGet(1, 1, x);
    CountsOfGet(1, 2, x);
    hide Get;
    var f, g := if x == ForwardedSeries then 1 else 0, if x == ReceivedSeries then 1 else 0;
    assert Value(Restarting, x, 0) == 0 && Value(Restarting, x, 1) == f && Value(Restarting, x, 2) == f + g;
    assert Value(Restarting, x, 3) == 0 && Value(Restarting, x, 4) == f && Value(Restarting, x, 5) == f + g;
  }

  lemma CountsShownAt(g: int, t: nat)
    requires t <= |Restarting.events| && forall x: Series :: Value(Restarting, x, t) == Get(CountsOf(1, g), x)
    ensures Shows(CountsOf(1, g), Restarting, t)
  {
    hide Value, Get, IsCounter;
    NamesDiffer();
  }

  lemma CountsShown()
    ensures Shows(CountsOf(1, 1), Restarting, 2) && Shows(CountsOf(1, 1), Restarting, 5)
    ensures Shows(CountsOf(1, 2), Restarting, 6)
  {
    hide Value, Get, Shows, CountsOf;
    forall x: Series
      ensures Value(Restarting, x, 2) == Value(Restarting, x, 5) == Get(CountsOf(1, 1), x)
      ensures Value(Restarting, x, 6) == Get(CountsOf(1, 2), x)
    {
      RestartingValues(x);
    }
    CountsShownAt(1, 2);
    CountsShownAt(1, 5);
    CountsShownAt(2, 6);
  }

  lemma RestartingRun()
    ensures Tally(Restarting, SharedRemote, 2) == Tally(Restarting, Received, 2) == 1
    ensures Performed(Restarting, Forwarded, 2, 6) == 1
    ensures Pid(Restarting, 2) == 1 && FreshPids(Restarting)
  {
    NamesDiffer();
    CountsShown();
    CountsOfSums(1, 1);
    CounterNames();
    SumShown(CountsOf(1, 1), Restarting, 2, SharedRemote);
    SumShown(CountsOf(1, 1), Restarting, 2, Received);
    hide Shows, Sum, Tally, IsCounter;
    assert Performed(Restarting, Forwarded, 2, 3) == 0 && Performed(Restarting, Forwarded, 2, 4) == 1;
    assert Performed(Restarting, Forwarded, 2, 5) == 1;
    assert Pid(Restarting, 0) == 1 && Pid(Restarting, 1) == 1;
  }

  // -- a control of two brokers and one message, and rungs after it

  const Quiet: Snapshot := Snapshot(None, None, 0, 0, 0, Some(1))
  const Once: Snapshot := Snapshot(Some(1), None, 1, 1, 0, Some(1))

  const ControlEvidence: Evidence := Evidence(
    Some(Timeline(true, Some(2), Some(1), Some(Some(0)))), true, Some([Row((0, 1), 1, 1), Row((1, 0), 1, 1)]), false,
    map[0 := Quiet, 1 := Quiet], map[0 := Once, 1 := Once])

  const Control: Canary := Passed([Floor(1, 1), Floor(1, 1)], [Some(1), Some(1)])
  const Edges: WindowPids := map[0 := 1, 1 := 1]

  const Early: Scrape := Scrape(CountsOf(1, 1), None)
  const Late: Scrape := Scrape(CountsOf(1, 2), None)

  /** Before and open are read from the first process, close and after from the second. */
  const Rung: Snaps := [[Early, Early], [Early, Early], [Late, Late], [Late, Late]]

  /** Every label is read from the second process. */
  const RestartedRung: Snaps := [[Early, Early], [Early, Early], [Early, Early], [Early, Early]]

  lemma TwoPairs()
    ensures WantPairs(2) == [(0, 1), (1, 0)]
  {
    assert PairsFrom(2, 0, 1) == [] && PairsFrom(2, 0, 2) == [(0, 1)];
    assert PairsFrom(2, 1, 1) == [(1, 0)] && PairsFrom(2, 1, 2) == [(1, 0)];
    assert PairsTo(2, 1) == [(0, 1)];
  }

  lemma ControlRows(rows: seq<Row>)
    requires rows == [Row((0, 1), 1, 1), Row((1, 0), 1, 1)]
    ensures RowsPass(rows, 2, 1, 0)
  {
    TwoPairs();
    hide WantPairs;
    assert rows[0].pair == (0, 1) && rows[1].pair == (1, 0);
    assert Named(rows, 2, (0, 1)) && Named(rows, 2, (1, 0));
    hide Named;
  }

  lemma ControlPasses()
    ensures Passes(ControlEvidence, 2, 1)
  {
    hide RowsPass, BrokersPass;
    ControlRows(ControlEvidence.rows.value);
    ControlBrokers();
  }

  lemma ControlScrapes(b: nat)
    requires b < 2
    ensures b in ControlEvidence.pre && ControlEvidence.pre[b] == Quiet
    ensures b in ControlEvidence.post && ControlEvidence.post[b] == Once
  {
  }

  lemma OneMessageCounted()
    ensures BrokerPasses(Quiet, Once, 2, 1, 0)
  {
  }

  lemma BothPass(e: Evidence)
    requires forall b: nat :: b < 2 ==> b in e.pre && e.pre[b] == Quiet && b in e.post && e.post[b] == Once
    requires BrokerPasses(Quiet, Once, 2, 1, 0)
    ensures BrokersPass(e, 2, 1, 0, 2)
  {
    hide BrokerPasses;
  }

  lemma ControlBrokers()
    ensures BrokersPass(ControlEvidence, 2, 1, 0, 2)
  {
    hide BrokerPasses, BrokersPass;
    forall b: nat | b < 2
      ensures b in ControlEvidence.pre && ControlEvidence.pre[b] == Quiet
      ensures b in ControlEvidence.post && ControlEvidence.post[b] == Once
    {
      ControlScrapes(b);
    }
    OneMessageCounted();
    BothPass(ControlEvidence);
  }

  lemma LaterContinues(g: int)
    requires g == 1 || g == 2
    ensures Continues(CountsOf(1, 1), CountsOf(1, g)) && Continues(CountsOf(1, g), CountsOf(1, g))
  {
    NamesDiffer();
    CountsOfGet(1, g, ForwardedSeries);
    CountsOfGet(1, g, ReceivedSeries);
    hide IsCounter, Get, Lookup;
  }

  lemma HoldsFloor(g: int)
    requires g >= 1
    ensures FloorHeld(Scrape(CountsOf(1, g), None), Floor(1, 1))
  {
    CountsOfSums(1, g);
  }

  lemma RungHeld(rung: Snaps, late: Scrape, b: nat)
    requires late == Early || late == Late
    requires rung == [[Early, Early], [Early, Early], [late, late], [late, late]] && b < 2
    ensures BrokerHeld(rung, Some(Edges), Control, b)
  {
    HoldsFloor(1);
    HoldsFloor(2);
    hide CountsOf, FloorHeld;
    forall k | 0 <= k < 4 ensures FloorHeld(rung[k][b], Control.floors[b]) {
      assert rung[k][b] == if k < 2 then Early else late;
    }
  }

  lemma RungContinues(rung: Snaps, late: Scrape, b: nat, k: nat)
    requires late == Early || late == Late
    requires rung == [[Early, Early], [Early, Early], [late, late], [late, late]] && b < 2 && k < 3
    ensures NextContinues(rung, b, k)
  {
    LaterContinues(1);
    LaterContinues(2);
    hide CountsOf, Continues;
    assert rung[k][b] == if k < 2 then Early else late;
    assert rung[k + 1][b] == if k < 1 then Early else late;
  }

  lemma RungCertifiable(rung: Snaps, late: Scrape)
    requires late == Early || late == Late
    requires rung == [[Early, Early], [Early, Early], [late, late], [late, late]]
    ensures Sized(2, rung, Some(Control)) && Certifiable(2, rung, Some(Edges), Some(Control))
  {
    hide CountsOf, BrokerHeld;
    forall b | 0 <= b < 2 ensures BrokerHeld(rung, Some(Edges), Control, b) { RungHeld(rung, late, b); }
    assert 0 in Edges;
  }

  const RaceReading: Reading := Reading(Restarting, 0, 2, 2, 2, 2, [2, 2, 6, 6])
  const RestartReading: Reading := Reading(Restarting, 0, 2, 2, 0, 0, [5, 5, 5, 5])

  lemma ReadInOrder(r: Reading)
    requires r == RaceReading || r == RestartReading
    ensures InOrder(r)
  {
    RestartingRun();
    hide FreshPids, Tally, Performed, Pid;
  }

  lemma ReadScraped(r: Reading, rung: Snaps, b: nat)
    requires b < 2 && ((r == RaceReading && rung == Rung) || (r == RestartReading && rung == RestartedRung))
    ensures InOrder(r) && Scraped(r, rung, b)
  {
    ReadInOrder(r);
    CountsShown();
    hide InOrder, Shows, CountsOf;
  }

  lemma ControlReadings()
    ensures ControlShows(Quiet, Restarting, 0) && ControlShows(Once, Restarting, 2)
    ensures FloorOf(Once, 2) == Floor(1, 1)
  {
    RestartingRun();
    assert Tally(Restarting, SharedRemote, 0) == 0 && Tally(Restarting, Received, 0) == 0;
    hide Tally, FreshPids, Performed, Pid;
  }

  lemma ReadControl(r: Reading, b: nat)
    requires b < 2 && (r == RaceReading || r == RestartReading)
    ensures InOrder(r) && ControlPassed(r, ControlEvidence, 2, 1, Control, b)
  {
    hide InOrder, Passes, ControlShows, FloorOf;
    ReadInOrder(r);
    ControlPasses();
    ControlReadings();
    ControlScrapes(b);
    assert Control.floors[b] == Floor(1, 1);
  }

  lemma ReadPids(b: nat)
    requires b < 2
    ensures InOrder(RaceReading) && PidsRead(RaceReading, Edges, Control, b)
  {
    ReadInOrder(RaceReading);
    RestartingRun();
    hide InOrder, Tally, FreshPids, Performed, Pid;
  }

  lemma RaceDeltas(b: nat)
    requires b < 2
    ensures Delta(Rung, b, Received, OPEN, CLOSE) > 0 && Delta(Rung, b, Forwarded, OPEN, CLOSE) == 0
  {
    CountsOfSums(1, 1);
    CountsOfSums(1, 2);
    hide Sum, CountsOf;
    assert Rung[OPEN][b] == Early && Rung[CLOSE][b] == Late;
  }

  /** The restart falls between the close edge's PID reading and its scrape, and the new process has
      caught up. The rung passes the monotonicity check and is certified as bound, its received delta is
      positive, and its forwarded delta is zero although a message was forwarded in the window. */
  lemma RaceUnseen(b: nat)
    requires b < 2
    ensures Sized(2, Rung, Some(Control)) && Certifiable(2, Rung, Some(Edges), Some(Control))
    ensures forall k :: 0 <= k < 3 ==> NextContinues(Rung, b, k)
    ensures InOrder(RaceReading) && Scraped(RaceReading, Rung, b) && PidsRead(RaceReading, Edges, Control, b)
    ensures ControlPassed(RaceReading, ControlEvidence, 2, 1, Control, b)
    ensures Delta(Rung, b, Received, OPEN, CLOSE) > 0 && Delta(Rung, b, Forwarded, OPEN, CLOSE) == 0
    ensures Performed(RaceReading.h, Forwarded, RaceReading.times[OPEN], RaceReading.times[CLOSE]) == 1
  {
    hide Certifiable, NextContinues, InOrder, Scraped, PidsRead, ControlPassed, Delta, Performed, Sized, CountsOf;
    RungCertifiable(Rung, Late);
    forall k | 0 <= k < 3 ensures NextContinues(Rung, b, k) { RungContinues(Rung, Late, b, k); }
    ReadScraped(RaceReading, Rung, b);
    ReadPids(b);
    ReadControl(RaceReading, b);
    RaceDeltas(b);
    RestartingRun();
  }

  /** Dropping the window drops the PID comparison and nothing else. */
  lemma UnboundWeaker(nodes: nat, snaps: Snaps, window: WindowPids, canary: Canary)
    requires Sized(nodes, snaps, Some(canary)) && canary.Passed?
    requires Certifiable(nodes, snaps, Some(window), Some(canary))
    ensures Certifiable(nodes, snaps, None, Some(canary))
  {
    hide FloorHeld;
    forall b | 0 <= b < nodes ensures BrokerHeld(snaps, None, canary, b) {
      assert BrokerHeld(snaps, Some(window), canary, b);
    }
  }

  /** Without a window only the floors are compared, and a restart before the rung goes unseen. */
  lemma UnboundRestart(b: nat)
    requires b < 2
    ensures Sized(2, RestartedRung, Some(Control)) && Certifiable(2, RestartedRung, None, Some(Control))
    ensures InOrder(RestartReading) && Scraped(RestartReading, RestartedRung, b)
    ensures ControlPassed(RestartReading, ControlEvidence, 2, 1, Control, b)
    ensures RestartIn(RestartReading.h, RestartReading.pidAt, RestartReading.times[0])
  {
    assert Restarting.events[2].Restarted?;
    assert RestartIn(Restarting, 2, 5);
    hide Certifiable, InOrder, Scraped, ControlPassed, Sized, CountsOf, RestartIn;
    RungCertifiable(RestartedRung, Early);
    UnboundWeaker(2, RestartedRung, Edges, Control);
    ReadScraped(RestartReading, RestartedRung, b);
    ReadControl(RestartReading, b);
  }
}
