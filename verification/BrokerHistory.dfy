/** A broker's life as its metrics show it: counters that only rise while a process lives, start again
    at zero with a new process, and have no series before their first count. */
module BrokerHistory {
  import opened Results

  /** One series: metric name, the value of its `reason` label, and the rest of its labels. */
  datatype Series = Series(name: string, reason: string, rest: string)

  datatype Event = Counted(series: Series) | Restarted(pid: nat)

  /** The first process's PID and everything since it started; instant `t` is after `t` events. */
  datatype History = History(first: nat, events: seq<Event>)

  /** What a reader sums: a whole family, or its series with one reason. */
  datatype Selection = Family(name: string) | Reason(name: string, reason: string)

  predicate Selects(w: Selection, s: Series) {
    s.name == w.name && (w.Reason? ==> s.reason == w.reason)
  }

  function Pid(h: History, t: nat): (p: nat)
    requires t <= |h.events|
  {
    if t == 0 then h.first
    else match h.events[t - 1]
         case Restarted(p) => p
         case Counted(_) => Pid(h, t - 1)
  }

  /** The counter behind a series at instant `t`. */
  function Value(h: History, s: Series, t: nat): (n: nat)
    requires t <= |h.events|
  {
    if t == 0 then 0
    else match h.events[t - 1]
         case Restarted(_) => 0
         case Counted(x) => Value(h, s, t - 1) + if x == s then 1 else 0
  }

  /** The selected events of the process alive at instant `t`. */
  function Tally(h: History, w: Selection, t: nat): (n: nat)
    requires t <= |h.events|
  {
    if t == 0 then 0
    else match h.events[t - 1]
         case Restarted(_) => 0
         case Counted(x) => Tally(h, w, t - 1) + if Selects(w, x) then 1 else 0
  }

  /** The selected events the broker performed from `a` to `b`, whichever process performed them. */
  function Performed(h: History, w: Selection, a: nat, b: nat): (n: nat)
    requires a <= b <= |h.events|
    decreases b
  {
    if a == b then 0
    else Performed(h, w, a, b - 1) +
         if h.events[b - 1].Counted? && Selects(w, h.events[b - 1].series) then 1 else 0
  }

  ghost predicate RestartIn(h: History, a: nat, b: nat)
    requires a <= b <= |h.events|
  {
    exists t :: a <= t < b && h.events[t].Restarted?
  }

  /** No process takes a PID that an earlier one had. */
  ghost predicate FreshPids(h: History) {
    && (forall t :: 0 <= t < |h.events| && h.events[t].Restarted? ==> h.events[t].pid != h.first)
    && (forall t, u :: 0 <= t < u < |h.events| && h.events[t].Restarted? && h.events[u].Restarted? ==>
          h.events[t].pid != h.events[u].pid)
  }

  lemma {:induction false} PidSource(h: History, t: nat)
    requires t <= |h.events|
    ensures Pid(h, t) == h.first || exists u :: 0 <= u < t && h.events[u].Restarted? && h.events[u].pid == Pid(h, t)
  {
    if t > 0 && h.events[t - 1].Counted? { PidSource(h, t - 1); }
  }

  /** Two readings of the PID agree exactly when no restart came between them. */
  lemma {:induction false} SamePid(h: History, a: nat, b: nat)
    requires FreshPids(h) && a <= b <= |h.events|
    ensures Pid(h, a) == Pid(h, b) <==> !RestartIn(h, a, b)
    decreases b
  {
    if a < b {
      if h.events[b - 1].Counted? {
        SamePid(h, a, b - 1);
        assert RestartIn(h, a, b) <==> RestartIn(h, a, b - 1);
      } else {
        PidSource(h, a);
      }
    }
  }

  /** One process: its tally grows by what was performed. */
  lemma {:induction false} OneProcess(h: History, w: Selection, a: nat, b: nat)
    requires a <= b <= |h.events| && !RestartIn(h, a, b)
    ensures Tally(h, w, b) == Tally(h, w, a) + Performed(h, w, a, b)
    decreases b
  {
    if a < b {
      assert !RestartIn(h, a, b - 1);
      OneProcess(h, w, a, b - 1);
    }
  }

  /** A new process has only what was performed since it started. */
  lemma {:induction false} NewProcess(h: History, w: Selection, a: nat, b: nat)
    requires a <= b <= |h.events| && RestartIn(h, a, b)
    ensures Tally(h, w, b) <= Performed(h, w, a, b)
    decreases b
  {
    if h.events[b - 1].Counted? {
      assert RestartIn(h, a, b - 1);
      NewProcess(h, w, a, b - 1);
    }
  }

  lemma {:induction false} NothingPerformed(h: History, w: Selection, a: nat, b: nat)
    requires a <= b <= |h.events| && Performed(h, w, a, b) == 0
    ensures forall t :: a <= t < b ==> !(h.events[t].Counted? && Selects(w, h.events[t].series))
    decreases b
  {
    if a < b { NothingPerformed(h, w, a, b - 1); }
  }

  // ---------------------------------------------------------------------------
  // Scrapes
  // ---------------------------------------------------------------------------

  predicate EndsWith(s: string, end: string) {
    |end| <= |s| && s[|s| - |end|..] == end
  }

  predicate IsCounter(name: string) {
    EndsWith(name, "_total") || EndsWith(name, "_count") || EndsWith(name, "_sum") || EndsWith(name, "_bucket")
  }

  const START_TIME := "process_start_time_seconds"

  lemma EndsIff(name: string, end: string)
    ensures EndsWith(name, end) <==> exists stem :: name == stem + end
  {
    if EndsWith(name, end) { assert name == name[..|name| - |end|] + end; }
  }

  /** Which names count: those that end in one of the four suffixes, and so not the process start time. */
  lemma CounterNames(name: string)
    ensures IsCounter(name) <==>
            || (exists stem :: name == stem + "_total") || (exists stem :: name == stem + "_count")
            || (exists stem :: name == stem + "_sum") || (exists stem :: name == stem + "_bucket")
    ensures !IsCounter(START_TIME)
  {
    EndsIff(name, "_total");
    EndsIff(name, "_count");
    EndsIff(name, "_sum");
    EndsIff(name, "_bucket");
  }

  datatype Sample = Sample(series: Series, value: int)

  /** One parsed scrape, samples in file order, and the peer link gauge if it is there. */
  datatype Scrape = Scrape(samples: seq<Sample>, links: Option<int>)

  function Sum(samples: seq<Sample>, w: Selection): (n: int) {
    if samples == [] then 0
    else
      var last := samples[|samples| - 1];
      Sum(samples[..|samples| - 1], w) + if Selects(w, last.series) then last.value else 0
  }

  /** `sum_family` and `by_label`: the loop over the samples. */
  method SumSamples(samples: seq<Sample>, w: Selection) returns (n: int)
    ensures n == Sum(samples, w)
  {
    n := 0;
    for k := 0 to |samples|
      invariant n == Sum(samples[..k], w)
    {
      assert samples[..k + 1][..k] == samples[..k];
      if Selects(w, samples[k].series) {
        n := n + samples[k].value;
      }
    }
    assert samples[..|samples|] == samples;
  }

  ghost predicate Distinct(samples: seq<Sample>) {
    forall i, j :: 0 <= i < j < |samples| ==> samples[i].series != samples[j].series
  }

  /** An absent series reads zero. */
  function Get(samples: seq<Sample>, s: Series): (n: int) {
    if samples == [] then 0
    else if samples[|samples| - 1].series == s then samples[|samples| - 1].value
    else Get(samples[..|samples| - 1], s)
  }

  /** The scrape reads the broker's counters as they are at instant `t`; what gauges it carries beside
      them is open, but mqttd exports no process start time. */
  ghost predicate Shows(samples: seq<Sample>, h: History, t: nat)
    requires t <= |h.events|
  {
    && Distinct(samples)
    && (forall s: Series :: IsCounter(s.name) ==> Get(samples, s) == Value(h, s, t))
    && (forall k :: 0 <= k < |samples| ==> samples[k].series.name != START_TIME)
  }

  lemma {:induction false} GetPresent(samples: seq<Sample>, k: nat)
    requires Distinct(samples) && k < |samples|
    ensures Get(samples, samples[k].series) == samples[k].value
  {
    var n := |samples| - 1;
    if k < n { GetPresent(samples[..n], k); }
  }

  lemma {:induction false} GetAbsent(samples: seq<Sample>, s: Series)
    requires forall k :: 0 <= k < |samples| ==> samples[k].series != s
    ensures Get(samples, s) == 0
  {
    if samples != [] { GetAbsent(samples[..|samples| - 1], s); }
  }

  lemma {:induction false} SumReplace(samples: seq<Sample>, k: nat, v: int, w: Selection)
    requires k < |samples|
    ensures Sum(samples[k := Sample(samples[k].series, v)], w) ==
            Sum(samples, w) + if Selects(w, samples[k].series) then v - samples[k].value else 0
  {
    var n := |samples| - 1;
    var changed := samples[k := Sample(samples[k].series, v)];
    if k < n {
      SumReplace(samples[..n], k, v, w);
      assert changed[..n] == samples[..n][k := Sample(samples[k].series, v)];
    } else {
      assert changed[..n] == samples[..n];
    }
  }

  lemma {:induction false} SumZero(samples: seq<Sample>, w: Selection)
    requires forall k :: 0 <= k < |samples| && Selects(w, samples[k].series) ==> samples[k].value == 0
    ensures Sum(samples, w) == 0
  {
    if samples != [] { SumZero(samples[..|samples| - 1], w); }
  }

  lemma ReplaceShows(samples: seq<Sample>, h: History, t: nat, k: nat)
    requires 0 < t <= |h.events| && Shows(samples, h, t) && h.events[t - 1].Counted?
    requires k < |samples| && samples[k].series == h.events[t - 1].series
    ensures Shows(samples[k := Sample(samples[k].series, samples[k].value - 1)], h, t - 1)
  {
    hide IsCounter;
    var x := h.events[t - 1].series;
    var before := samples[k := Sample(x, samples[k].value - 1)];
    forall s: Series | IsCounter(s.name) ensures Get(before, s) == Value(h, s, t - 1) {
      assert Get(samples, s) == Value(h, s, t);
      if i :| 0 <= i < |samples| && samples[i].series == s {
        GetPresent(samples, i);
        GetPresent(before, i);
      } else {
        GetAbsent(samples, s);
        GetAbsent(before, s);
      }
    }
  }

  /** A scrape's sums are the events of the process that answered it. */
  lemma {:induction false} SumShown(samples: seq<Sample>, h: History, t: nat, w: Selection)
    requires t <= |h.events| && Shows(samples, h, t) && IsCounter(w.name)
    ensures Sum(samples, w) == Tally(h, w, t)
    decreases t
  {
    hide IsCounter;
    if t == 0 || h.events[t - 1].Restarted? {
      forall k | 0 <= k < |samples| && Selects(w, samples[k].series) ensures samples[k].value == 0 {
        GetPresent(samples, k);
      }
      SumZero(samples, w);
    } else if !IsCounter(h.events[t - 1].series.name) {
      assert Shows(samples, h, t - 1);
      SumShown(samples, h, t - 1, w);
    } else {
      var x := h.events[t - 1].series;
      assert Get(samples, x) == Value(h, x, t);
      if k :| 0 <= k < |samples| && samples[k].series == x {
        ReplaceShows(samples, h, t, k);
        SumReplace(samples, k, samples[k].value - 1, w);
        SumShown(samples[k := Sample(samples[k].series, samples[k].value - 1)], h, t - 1, w);
      } else {
        GetAbsent(samples, x);
        assert false;
      }
    }
  }

  /** Between two scrapes, a sum that was positive grew by exactly what the broker performed if and
      only if one process answered both; otherwise it shows less. */
  lemma DeltaExactIff(h: History, w: Selection, first: seq<Sample>, a: nat, then_: seq<Sample>, b: nat)
    requires a <= b <= |h.events| && Shows(first, h, a) && Shows(then_, h, b) && IsCounter(w.name)
    requires Sum(first, w) > 0
    ensures Sum(then_, w) - Sum(first, w) == Performed(h, w, a, b) <==> !RestartIn(h, a, b)
    ensures Sum(then_, w) - Sum(first, w) <= Performed(h, w, a, b)
  {
    hide IsCounter, Shows;
    SumShown(first, h, a, w);
    SumShown(then_, h, b, w);
    if RestartIn(h, a, b) { NewProcess(h, w, a, b); } else { OneProcess(h, w, a, b); }
  }

  /** While one process lives no counter goes down. */
  lemma {:induction false} ValueRises(h: History, s: Series, a: nat, b: nat)
    requires a <= b <= |h.events| && !RestartIn(h, a, b)
    ensures Value(h, s, a) <= Value(h, s, b)
    decreases b
  {
    if a < b {
      assert !RestartIn(h, a, b - 1);
      ValueRises(h, s, a, b - 1);
    }
  }

  lemma {:induction false} ReasonWithinFamily(h: History, name: string, reason: string, t: nat)
    requires t <= |h.events|
    ensures Tally(h, Reason(name, reason), t) <= Tally(h, Family(name), t)
  {
    if t > 0 { ReasonWithinFamily(h, name, reason, t - 1); }
  }

  /** What is summed: every series of the name, or of them exactly those with the reason. */
  lemma {:induction false} SumPicks(samples: seq<Sample>, series: Series, value: int, name: string, reason: string)
    ensures Sum(samples + [Sample(series, value)], Family(name)) ==
            Sum(samples, Family(name)) + if series.name == name then value else 0
    ensures Sum(samples + [Sample(series, value)], Reason(name, reason)) ==
            Sum(samples, Reason(name, reason)) + if series.name == name && series.reason == reason then value else 0
  {
    assert (samples + [Sample(series, value)])[..|samples|] == samples;
  }
}
