/** The aligned window (bench/scale/extract-lane-e.py): `load_window` reads every host's scrape stamps
    and every broker's PID, and the stamps bound each broker's rate. */
module WindowTable {
  import opened Results

  datatype Host = Broker(index: nat) | Driver(index: nat)
  datatype Phase = Open | Close

  /** A scrape's stamps, before and after, in milliseconds on its host's clock. */
  datatype Stamp = Stamp(start: int, end: int)

  /** A row of window.tsv: its number of columns, and each column where it is readable. */
  datatype Line = Line(columns: nat, host: Option<Host>, phase: Option<Phase>, stamp: Option<Stamp>, pid: Option<nat>)

  type Key = (Host, Phase)

  datatype Edges = Edges(open: Stamp, close: Stamp)

  /** The hosts with a usable window, all the hosts listed, and each broker's PID if the table has them. */
  datatype Window = Window(hosts: map<Host, Edges>, listed: set<Host>, mainPid: map<nat, nat>)

  // ---------------------------------------------------------------------------
  // What a usable table is
  // ---------------------------------------------------------------------------

  predicate Shaped(l: Line, hasPid: bool) {
    (l.columns == 4 || (l.columns == 5 && hasPid)) && l.host.Some? && l.phase.Some?
  }

  function KeyOf(l: Line): (k: Key)
    requires l.host.Some? && l.phase.Some?
  {
    (l.host.value, l.phase.value)
  }

  predicate Stamped(l: Line) {
    l.stamp.Some? && l.stamp.value.start <= l.stamp.value.end
  }

  predicate LineOk(l: Line, hasPid: bool, nodes: nat) {
    Shaped(l, hasPid) && (l.host.value.Broker? ==> l.host.value.index < nodes && Stamped(l))
  }

  ghost predicate LinesOk(lines: seq<Line>, hasPid: bool, nodes: nat, n: nat)
    requires n <= |lines|
  {
    && (forall i :: 0 <= i < n ==> LineOk(lines[i], hasPid, nodes))
    && (forall i, j :: 0 <= i < j < n && Shaped(lines[i], hasPid) && Shaped(lines[j], hasPid) ==>
          KeyOf(lines[i]) != KeyOf(lines[j]))
  }

  /** Line `i` is the usable row of one host's edge. */
  predicate IsEdge(lines: seq<Line>, i: nat, k: Key) {
    i < |lines| && lines[i].host == Some(k.0) && lines[i].phase == Some(k.1) && Stamped(lines[i])
  }

  /** Both edges of a broker: the window closes after it opened, and one process answered both. */
  ghost predicate BrokerOk(lines: seq<Line>, hasPid: bool, b: nat) {
    exists o: nat, c: nat :: OpensAndCloses(lines, hasPid, b, o, c)
  }

  predicate OpensAndCloses(lines: seq<Line>, hasPid: bool, b: nat, o: nat, c: nat) {
    && IsEdge(lines, o, (Broker(b), Open)) && IsEdge(lines, c, (Broker(b), Close))
    && lines[c].stamp.value.start > lines[o].stamp.value.end
    && (hasPid ==> lines[o].pid == lines[c].pid && lines[o].pid.Some? && lines[o].pid.value > 0)
  }

  ghost predicate TableOk(lines: seq<Line>, hasPid: bool, nodes: nat) {
    LinesOk(lines, hasPid, nodes, |lines|) && forall b :: 0 <= b < nodes ==> BrokerOk(lines, hasPid, b)
  }

  /** Line `i` names the host's edge, usable or not. */
  predicate Names(lines: seq<Line>, i: nat, k: Key) {
    i < |lines| && lines[i].host == Some(k.0) && lines[i].phase == Some(k.1)
  }

  ghost predicate NamedBefore(lines: seq<Line>, n: nat, k: Key) {
    exists i: nat :: i < n && Names(lines, i, k)
  }

  ghost predicate ListedBefore(lines: seq<Line>, n: nat, h: Host) {
    exists i: nat :: i < n && i < |lines| && lines[i].host == Some(h)
  }

  /** The edges are the stamps of the usable rows, and nothing else. */
  ghost predicate EdgesAre(edges: map<Key, Stamp>, lines: seq<Line>, n: nat) {
    && (forall i: nat, k :: i < n && IsEdge(lines, i, k) ==> k in edges && edges[k] == lines[i].stamp.value)
    && (forall k :: k in edges ==> exists i: nat :: i < n && IsEdge(lines, i, k))
  }

  ghost predicate PidsAre(pids: map<Key, Option<nat>>, lines: seq<Line>, n: nat) {
    forall i: nat, k :: i < n && Names(lines, i, k) ==> k in pids && pids[k] == lines[i].pid
  }

  lemma EdgesStep(edges: map<Key, Stamp>, lines: seq<Line>, n: nat, key: Key)
    requires EdgesAre(edges, lines, n) && Names(lines, n, key) && !NamedBefore(lines, n, key)
    ensures EdgesAre(if Stamped(lines[n]) then edges[key := lines[n].stamp.value] else edges, lines, n + 1)
  {
    var next := if Stamped(lines[n]) then edges[key := lines[n].stamp.value] else edges;
    forall i: nat, k | i < n + 1 && IsEdge(lines, i, k) ensures k in next && next[k] == lines[i].stamp.value {
      assert Names(lines, i, k);
      if i < n { assert k != key; }
    }
    forall k | k in next ensures exists i: nat :: i < n + 1 && IsEdge(lines, i, k) {
      if k in edges {
        var i: nat :| i < n && IsEdge(lines, i, k);
        assert i < n + 1;
      } else {
        assert IsEdge(lines, n, k);
      }
    }
  }

  lemma PidsStep(pids: map<Key, Option<nat>>, lines: seq<Line>, n: nat, key: Key)
    requires PidsAre(pids, lines, n) && Names(lines, n, key) && !NamedBefore(lines, n, key)
    ensures PidsAre(pids[key := lines[n].pid], lines, n + 1)
  {
  }

  lemma NamesStep(lines: seq<Line>, n: nat, key: Key)
    requires Names(lines, n, key)
    ensures forall k :: NamedBefore(lines, n + 1, k) <==> NamedBefore(lines, n, k) || k == key
    ensures forall h :: ListedBefore(lines, n + 1, h) <==> ListedBefore(lines, n, h) || h == key.0
  {
    forall k ensures NamedBefore(lines, n + 1, k) <==> NamedBefore(lines, n, k) || k == key {
      if i: nat :| i < n && Names(lines, i, k) { assert i < n + 1; }
      if k == key { assert n < n + 1 && Names(lines, n, k); }
    }
  }

  lemma LinesStep(lines: seq<Line>, hasPid: bool, nodes: nat, n: nat)
    requires n < |lines| && LinesOk(lines, hasPid, nodes, n) && Shaped(lines[n], hasPid)
    ensures LinesOk(lines, hasPid, nodes, n + 1) <==>
            LineOk(lines[n], hasPid, nodes) && !NamedBefore(lines, n, KeyOf(lines[n]))
  {
    var key := KeyOf(lines[n]);
    if i: nat :| i < n && Names(lines, i, key) {
      assert LineOk(lines[i], hasPid, nodes) && KeyOf(lines[i]) == key;
    } else {
      forall i | 0 <= i < n ensures KeyOf(lines[i]) != key {
        assert LineOk(lines[i], hasPid, nodes) && !Names(lines, i, key);
      }
    }
  }

  lemma LinesPrefix(lines: seq<Line>, hasPid: bool, nodes: nat, n: nat)
    requires n <= |lines| && LinesOk(lines, hasPid, nodes, |lines|)
    ensures LinesOk(lines, hasPid, nodes, n) && (n > 0 ==> Shaped(lines[n - 1], hasPid))
  {
    assert n > 0 ==> LineOk(lines[n - 1], hasPid, nodes);
  }

  // ---------------------------------------------------------------------------
  // load_window
  // ---------------------------------------------------------------------------

  lemma NothingRead(lines: seq<Line>, hasPid: bool, nodes: nat)
    ensures LinesOk(lines, hasPid, nodes, 0)
    ensures (forall k :: !NamedBefore(lines, 0, k)) && (forall h :: !ListedBefore(lines, 0, h))
    ensures EdgesAre(map[], lines, 0) && PidsAre(map[], lines, 0)
  {
  }

  /** The loop over the rows; not `ok` where it raises. */
  method ReadLines(lines: seq<Line>, hasPid: bool, nodes: nat)
    returns (ok: bool, edges: map<Key, Stamp>, pids: map<Key, Option<nat>>, listed: set<Host>)
    ensures ok <==> LinesOk(lines, hasPid, nodes, |lines|)
    ensures ok ==> EdgesAre(edges, lines, |lines|) && (hasPid ==> PidsAre(pids, lines, |lines|))
    ensures ok ==> forall h :: h in listed <==> ListedBefore(lines, |lines|, h)
  {
    hide LinesOk, NamedBefore, ListedBefore, EdgesAre, PidsAre;
    NothingRead(lines, hasPid, nodes);
    edges, pids, listed := map[], map[], {};
    var seen: set<Key> := {};
    for n := 0 to |lines|
      invariant LinesOk(lines, hasPid, nodes, n)
      invariant forall k :: k in seen <==> NamedBefore(lines, n, k)
      invariant forall h :: h in listed <==> ListedBefore(lines, n, h)
      invariant EdgesAre(edges, lines, n) && (hasPid ==> PidsAre(pids, lines, n))
    {
      var l := lines[n];
      ok := false;
      if LinesOk(lines, hasPid, nodes, |lines|) { LinesPrefix(lines, hasPid, nodes, n + 1); }
      if (l.columns != 4 && l.columns != 5) || (l.columns == 5 && !hasPid) || l.phase.None? {
        return;
      }
      if l.host.None? {
        return;
      }
      LinesStep(lines, hasPid, nodes, n);
      var key := KeyOf(l);
      if key in seen {
        return;
      }
      NamesStep(lines, n, key);
      EdgesStep(edges, lines, n, key);
      seen := seen + {key};
      listed := listed + {key.0};
      if key.0.Broker? && key.0.index >= nodes {
        return;
      }
      if hasPid {
        PidsStep(pids, lines, n, key);
        pids := pids[key := l.pid];
      }
      if l.stamp.None? || l.stamp.value.end < l.stamp.value.start {
        if key.0.Broker? {
          return;
        }
      } else {
        edges := edges[key := l.stamp.value];
      }
    }
    ok := true;
  }

  predicate EdgesUsable(edges: map<Key, Stamp>, h: Host) {
    (h, Open) in edges && (h, Close) in edges && edges[(h, Close)].start > edges[(h, Open)].end
  }

  predicate PidUsable(pids: map<Key, Option<nat>>, b: nat) {
    && (Broker(b), Open) in pids && (Broker(b), Close) in pids
    && pids[(Broker(b), Open)] == pids[(Broker(b), Close)]
    && pids[(Broker(b), Open)].Some? && pids[(Broker(b), Open)].value > 0
  }

  /** The hosts with both edges, the window closing after it opened, and their stamps. */
  ghost predicate HostsAre(hosts: map<Host, Edges>, lines: seq<Line>) {
    && (forall h, o: nat, c: nat :: IsEdge(lines, o, (h, Open)) && IsEdge(lines, c, (h, Close)) ==>
          && (h in hosts <==> lines[c].stamp.value.start > lines[o].stamp.value.end)
          && (h in hosts ==> hosts[h] == Edges(lines[o].stamp.value, lines[c].stamp.value)))
    && (forall h :: h in hosts ==> HasEdges(lines, h))
  }

  ghost predicate HasEdges(lines: seq<Line>, h: Host) {
    (exists o: nat :: IsEdge(lines, o, (h, Open))) && (exists c: nat :: IsEdge(lines, c, (h, Close)))
  }

  function UsableHosts(edges: map<Key, Stamp>, listed: set<Host>): (r: map<Host, Edges>) {
    map h | h in listed && EdgesUsable(edges, h) :: Edges(edges[(h, Open)], edges[(h, Close)])
  }

  lemma EdgeIs(edges: map<Key, Stamp>, lines: seq<Line>, i: nat, k: Key)
    requires EdgesAre(edges, lines, |lines|) && IsEdge(lines, i, k)
    ensures k in edges && edges[k] == lines[i].stamp.value && ListedBefore(lines, |lines|, k.0)
  {
  }

  lemma EdgeFound(edges: map<Key, Stamp>, lines: seq<Line>, k: Key) returns (i: nat)
    requires EdgesAre(edges, lines, |lines|) && k in edges
    ensures IsEdge(lines, i, k)
  {
    i :| i < |lines| && IsEdge(lines, i, k);
  }

  lemma UsableAre(edges: map<Key, Stamp>, listed: set<Host>, lines: seq<Line>)
    requires EdgesAre(edges, lines, |lines|) && forall h :: h in listed <==> ListedBefore(lines, |lines|, h)
    ensures HostsAre(UsableHosts(edges, listed), lines)
  {
    hide EdgesAre, ListedBefore;
    var hosts := UsableHosts(edges, listed);
    forall h, o: nat, c: nat | IsEdge(lines, o, (h, Open)) && IsEdge(lines, c, (h, Close))
      ensures h in hosts <==> lines[c].stamp.value.start > lines[o].stamp.value.end
      ensures h in hosts ==> hosts[h] == Edges(lines[o].stamp.value, lines[c].stamp.value)
    {
      EdgeIs(edges, lines, o, (h, Open));
      EdgeIs(edges, lines, c, (h, Close));
    }
    forall h | h in hosts ensures HasEdges(lines, h) {
      var o := EdgeFound(edges, lines, (h, Open));
      var c := EdgeFound(edges, lines, (h, Close));
    }
  }

  lemma OkIsUsable(lines: seq<Line>, hasPid: bool, edges: map<Key, Stamp>, pids: map<Key, Option<nat>>, b: nat)
    requires EdgesAre(edges, lines, |lines|) && (hasPid ==> PidsAre(pids, lines, |lines|))
    requires BrokerOk(lines, hasPid, b)
    ensures EdgesUsable(edges, Broker(b)) && (hasPid ==> PidUsable(pids, b))
  {
    var o: nat, c: nat :| OpensAndCloses(lines, hasPid, b, o, c);
    assert o < |lines| && c < |lines|;
    assert Names(lines, o, (Broker(b), Open)) && Names(lines, c, (Broker(b), Close));
  }

  lemma UsableIsOk(lines: seq<Line>, hasPid: bool, edges: map<Key, Stamp>, pids: map<Key, Option<nat>>, b: nat)
    requires EdgesAre(edges, lines, |lines|) && (hasPid ==> PidsAre(pids, lines, |lines|))
    requires EdgesUsable(edges, Broker(b)) && (hasPid ==> PidUsable(pids, b))
    ensures BrokerOk(lines, hasPid, b)
  {
    var o: nat :| o < |lines| && IsEdge(lines, o, (Broker(b), Open));
    var c: nat :| c < |lines| && IsEdge(lines, c, (Broker(b), Close));
    assert Names(lines, o, (Broker(b), Open)) && Names(lines, c, (Broker(b), Close));
    assert OpensAndCloses(lines, hasPid, b, o, c);
  }

  lemma PidsNamed(lines: seq<Line>, pids: map<Key, Option<nat>>, b: nat)
    requires PidsAre(pids, lines, |lines|) && PidUsable(pids, b)
    ensures PidsName(lines, b, pids[(Broker(b), Open)].value)
  {
    forall i: nat, phase | Names(lines, i, (Broker(b), phase))
      ensures lines[i].pid == Some(pids[(Broker(b), Open)].value)
    {
      assert i < |lines|;
      match phase case Open => case Close =>
    }
  }

  /** `load_window`: raises exactly on a table that is not usable; otherwise every broker's PID is the
      one its rows carry, at either edge. */
  method LoadWindow(lines: seq<Line>, hasPid: bool, nodes: nat) returns (r: Result<Window>)
    ensures r.Ok? <==> TableOk(lines, hasPid, nodes)
    ensures r.Ok? ==> HostsAre(r.value.hosts, lines)
    ensures r.Ok? ==> forall h :: h in r.value.listed <==> ListedBefore(lines, |lines|, h)
    ensures r.Ok? && !hasPid ==> r.value.mainPid == map[]
    ensures r.Ok? && hasPid ==>
              && (forall b: nat :: b in r.value.mainPid <==> b < nodes)
              && (forall b: nat :: b in r.value.mainPid ==> PidsName(lines, b, r.value.mainPid[b]))
  {
    var ok, edges, pids, listed := ReadLines(lines, hasPid, nodes);
    if !ok {
      return Raised;
    }
    var mainPid: map<nat, nat> := map[];
    hide HostsAre, UsableHosts, ListedBefore;
    for b := 0 to nodes
      invariant forall i: nat :: i < b ==> BrokerOk(lines, hasPid, i)
      invariant !hasPid ==> mainPid == map[]
      invariant hasPid ==>
                  && (forall i: nat :: i in mainPid <==> i < b)
                  && (forall i: nat :: i in mainPid ==> PidsName(lines, i, mainPid[i]))
    {
      if BrokerOk(lines, hasPid, b) { OkIsUsable(lines, hasPid, edges, pids, b); }
      hide LinesOk, EdgesAre, PidsAre, BrokerOk, PidsName;
      if !EdgesUsable(edges, Broker(b)) {
        return Raised;
      }
      if hasPid {
        if !PidUsable(pids, b) {
          return Raised;
        }
        PidsNamed(lines, pids, b);
        mainPid := mainPid[b := pids[(Broker(b), Open)].value];
      }
      UsableIsOk(lines, hasPid, edges, pids, b);
    }
    UsableAre(edges, listed, lines);
    r := Ok(Window(UsableHosts(edges, listed), listed, mainPid));
  }

  /** Whatever rows a broker has, at either edge, they carry this PID. */
  ghost predicate PidsName(lines: seq<Line>, b: nat, pid: nat) {
    forall i: nat, phase :: Names(lines, i, (Broker(b), phase)) ==> lines[i].pid == Some(pid)
  }
}
