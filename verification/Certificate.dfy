/** The crossing certificate (bench/scale/extract-lane-e.py): when a rung's forwarded counter, zero
    included, is a measurement of the process that passed the forwarding control. */
module Certificate {
  import opened Results
  import opened BrokerHistory
  import opened CanaryLedger

  const RECEIVED := "mqttd_publish_received_total"
  const FORWARDED := "mqttd_publish_forwarded_total"

  const Received: Selection := Family(RECEIVED)
  const Forwarded: Selection := Family(FORWARDED)
  const SharedRemote: Selection := Reason(FORWARDED, "shared-remote")

  /** The control's verdict on a size: its floors, and the PID of each broker that passed, if usable. */
  datatype Canary = Skipped | Passed(floors: seq<Floor>, mainPid: seq<Option<nat>>)

  /** The aligned window's PIDs: empty when window.tsv has no such column. */
  type WindowPids = map<nat, nat>

  datatype Kind = Structural | Bound | Unbound

  datatype Refusal =
    | NoControl | ControlSkipped | NoPids | LinksUp(scrape: nat)
    | BelowFloor(b: nat, scrape: nat) | PidUnusable(b: nat) | PidChanged(b: nat)

  datatype Verdict = Certified(kind: Kind) | Refused(errors: seq<Refusal>)

  /** Each label's scrapes, one per broker, in the order they were taken. */
  type Snaps = seq<seq<Scrape>>

  predicate Covers(snaps: Snaps, nodes: nat) {
    forall k :: 0 <= k < |snaps| ==> |snaps[k]| == nodes
  }

  // ---------------------------------------------------------------------------
  // What certification asks
  // ---------------------------------------------------------------------------

  predicate FloorHeld(scrape: Scrape, floor: Floor) {
    Sum(scrape.samples, SharedRemote) >= floor.forwarded && Sum(scrape.samples, Received) >= floor.received
  }

  predicate PidHeld(window: WindowPids, mainPid: Option<nat>, b: nat) {
    b in window ==> mainPid == Some(window[b])
  }

  ghost predicate BrokerHeld(snaps: Snaps, window: Option<WindowPids>, canary: Canary, b: nat)
    requires canary.Passed? && b < |canary.floors| && b < |canary.mainPid|
    requires forall k :: 0 <= k < |snaps| ==> b < |snaps[k]|
  {
    && (forall k :: 0 <= k < |snaps| ==> FloorHeld(snaps[k][b], canary.floors[b]))
    && (window.Some? ==> PidHeld(window.value, canary.mainPid[b], b))
  }

  predicate Sized(nodes: nat, snaps: Snaps, canary: Option<Canary>) {
    && nodes >= 1 && Covers(snaps, nodes)
    && (canary.Some? && canary.value.Passed? ==> |canary.value.floors| == |canary.value.mainPid| == nodes)
  }

  ghost predicate Holds(nodes: nat, snaps: Snaps, window: Option<WindowPids>, canary: Option<Canary>, n: nat)
    requires Sized(nodes, snaps, canary) && n <= nodes
  {
    canary.Some? && canary.value.Passed? ==>
      forall b :: 0 <= b < n ==> BrokerHeld(snaps, window, canary.value, b)
  }

  ghost predicate Certifiable(nodes: nat, snaps: Snaps, window: Option<WindowPids>, canary: Option<Canary>)
    requires Sized(nodes, snaps, canary)
  {
    && (if nodes == 1 then forall k :: 0 <= k < |snaps| ==> snaps[k][0].links == Some(0)
        else canary.Some? && canary.value.Passed? && (window.Some? ==> window.value != map[]))
    && Holds(nodes, snaps, window, canary, nodes)
  }

  // ---------------------------------------------------------------------------
  // certify
  // ---------------------------------------------------------------------------

  method CheckLinks(snaps: Snaps) returns (errors: seq<Refusal>)
    requires Covers(snaps, 1)
    ensures errors == [] <==> forall k :: 0 <= k < |snaps| ==> snaps[k][0].links == Some(0)
  {
    errors := [];
    for k := 0 to |snaps|
      invariant errors == [] <==> forall i :: 0 <= i < k ==> snaps[i][0].links == Some(0)
    {
      if snaps[k][0].links != Some(0) {
        errors := errors + [LinksUp(k)];
      }
    }
  }

  method CheckHeld(snaps: Snaps, window: Option<WindowPids>, canary: Canary, b: nat) returns (errors: seq<Refusal>)
    requires canary.Passed? && b < |canary.floors| && b < |canary.mainPid|
    requires forall k :: 0 <= k < |snaps| ==> b < |snaps[k]|
    ensures errors == [] <==> BrokerHeld(snaps, window, canary, b)
  {
    errors := [];
    for k := 0 to |snaps|
      invariant errors == [] <==> forall i :: 0 <= i < k ==> FloorHeld(snaps[i][b], canary.floors[b])
    {
      var forwarded := SumSamples(snaps[k][b].samples, SharedRemote);
      var received := SumSamples(snaps[k][b].samples, Received);
      if forwarded < canary.floors[b].forwarded {
        errors := errors + [BelowFloor(b, k)];
      }
      if received < canary.floors[b].received {
        errors := errors + [BelowFloor(b, k)];
      }
    }
    if window.Some? && b in window.value {
      if canary.mainPid[b].None? {
        errors := errors + [PidUnusable(b)];
      } else if window.value[b] != canary.mainPid[b].value {
        errors := errors + [PidChanged(b)];
      }
    }
  }

  method Certify(nodes: nat, snaps: Snaps, window: Option<WindowPids>, canary: Option<Canary>) returns (v: Verdict)
    requires Sized(nodes, snaps, canary)
    ensures v.Certified? <==> Certifiable(nodes, snaps, window, canary)
    ensures v.Certified? ==> v.kind == if nodes == 1 then Structural else if window.None? then Unbound else Bound
    ensures v.Refused? ==> v.errors != []
  {
    var errors := [];
    var kind := Structural;
    if nodes == 1 {
      errors := CheckLinks(snaps);
    } else {
      kind := Bound;
      if canary.None? {
        return Refused([NoControl]);
      }
      if canary.value.Skipped? {
        return Refused([ControlSkipped]);
      }
      if window.None? {
        kind := Unbound;
      } else if window.value == map[] {
        errors := [NoPids];
      }
    }
    if canary.Some? && canary.value.Passed? {
      ghost var before := errors;
      for b := 0 to nodes
        invariant errors == [] <==> before == [] && Holds(nodes, snaps, window, canary, b)
      {
        var more := CheckHeld(snaps, window, canary.value, b);
        errors := errors + more;
      }
    }
    v := if errors != [] then Refused(errors) else Certified(kind);
  }

  // ---------------------------------------------------------------------------
  // The monotonicity check between consecutive scrapes
  // ---------------------------------------------------------------------------

  function Lookup(samples: seq<Sample>, s: Series): (v: Option<int>) {
    if samples == [] then None
    else if samples[|samples| - 1].series == s then Some(samples[|samples| - 1].value)
    else Lookup(samples[..|samples| - 1], s)
  }

  predicate SampleContinues(sample: Sample, after: seq<Sample>) {
    && (IsCounter(sample.series.name) ==> Get(after, sample.series) >= sample.value)
    && (sample.series.name == START_TIME ==> Lookup(after, sample.series) == Some(sample.value))
  }

  ghost predicate Continues(before: seq<Sample>, after: seq<Sample>) {
    forall k :: 0 <= k < |before| ==> SampleContinues(before[k], after)
  }

  /** `validate_deltas`: raises when a counter went down or a process changed between two labels. */
  method ValidateDeltas(before: seq<Scrape>, after: seq<Scrape>) returns (ok: bool)
    requires |before| == |after|
    ensures ok <==> forall b :: 0 <= b < |before| ==> Continues(before[b].samples, after[b].samples)
  {
    hide Get, Lookup, IsCounter;
    for b := 0 to |before|
      invariant forall i :: 0 <= i < b ==> Continues(before[i].samples, after[i].samples)
    {
      var samples := before[b].samples;
      for k := 0 to |samples|
        invariant forall i :: 0 <= i < k ==> SampleContinues(samples[i], after[b].samples)
      {
        var Sample(series, value) := samples[k];
        if IsCounter(series.name) && Get(after[b].samples, series) < value {
          return false;
        }
        if series.name == START_TIME && Lookup(after[b].samples, series) != Some(value) {
          return false;
        }
      }
    }
    ok := true;
  }

  /** What the check sees of a broker's life: two scrapes pass exactly when no counter stood lower at the second
      than at the first, whatever happened between. */
  lemma ResetSeenIff(h: History, first: seq<Sample>, a: nat, then_: seq<Sample>, b: nat)
    requires a <= |h.events| && b <= |h.events| && Shows(first, h, a) && Shows(then_, h, b)
    ensures Continues(first, then_) <==> forall s: Series :: IsCounter(s.name) ==> Value(h, s, a) <= Value(h, s, b)
  {
    hide IsCounter;
    if Continues(first, then_) {
      forall s: Series | IsCounter(s.name) ensures Value(h, s, a) <= Value(h, s, b) {
        assert Get(first, s) == Value(h, s, a) && Get(then_, s) == Value(h, s, b);
        if k :| 0 <= k < |first| && first[k].series == s {
          GetPresent(first, k);
          assert SampleContinues(first[k], then_);
        } else {
          GetAbsent(first, s);
        }
      }
    }
    if forall s: Series :: IsCounter(s.name) ==> Value(h, s, a) <= Value(h, s, b) {
      forall k | 0 <= k < |first| ensures SampleContinues(first[k], then_) {
        GetPresent(first, k);
      }
    }
  }

  lemma {:induction false} LookupFinds(samples: seq<Sample>, s: Series, v: int)
    requires Lookup(samples, s) == Some(v)
    ensures Sample(s, v) in samples
  {
    if samples[|samples| - 1].series != s { LookupFinds(samples[..|samples| - 1], s, v); }
  }

  /** A process start time, where one is exported, must be there again unchanged. */
  lemma StartTimeKept(first: seq<Sample>, then_: seq<Sample>, k: nat)
    requires Continues(first, then_) && k < |first| && first[k].series.name == "process_start_time_seconds"
    ensures first[k] in then_
  {
    assert SampleContinues(first[k], then_);
    LookupFinds(then_, first[k].series, first[k].value);
  }
}
