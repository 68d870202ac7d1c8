/** One directed pair of the forwarding control (bench/scale/forward-canary.py): the messages between
    publisher i and subscriber j, stage by stage, delivered in order through the brokers. */
module CanaryFlow {

  /** The payloads: `pilot-<round>`, `pilot-end`, and the burst, whose last message is `burst-end`. */
  datatype Msg = Pilot(round: nat) | PilotEnd | Burst(number: nat)

  /** Publishing order on one pair: pilots by round, then the end of the pilots, then the burst. */
  predicate Before(a: Msg, b: Msg) {
    match (a, b)
    case (Pilot(x), Pilot(y)) => x < y
    case (Pilot(_), _) => true
    case (PilotEnd, Burst(_)) => true
    case (Burst(x), Burst(y)) => x < y
    case _ => false
  }

  ghost predicate Ordered(s: seq<Msg>) {
    forall i, j :: 0 <= i < j < |s| ==> Before(s[i], s[j])
  }

  /** Where the pair's messages are. `inbox`: published, not yet received by broker i. `hub`: received,
      not yet routed. `link`: forwarded, not yet taken by broker j. `delivered`: every message broker
      j has delivered, in order. `socket`: on the way to the member. `seen`: what the member recorded.
      The numbers tally the burst: published, received, forwarded, and lost at the two brokers. */
  datatype Flow = Flow(
    inbox: seq<Msg>, hub: seq<Msg>, link: seq<Msg>, delivered: seq<Msg>, socket: seq<Msg>, seen: seq<Msg>,
    pilots: nat, ended: bool, sent: nat, received: nat, forwarded: nat, lostAtHub: nat, lostOnLink: nat)

  const Quiet: Flow := Flow([], [], [], [], [], [], 0, false, 0, 0, 0, 0, 0)

  function Bursts(s: seq<Msg>): (n: nat) {
    if s == [] then 0 else Bursts(s[..|s| - 1]) + One(s[|s| - 1])
  }

  function One(m: Msg): (n: nat) {
    if m.Burst? then 1 else 0
  }

  /** Everything on its way through the brokers or past them, oldest first. */
  function Line(f: Flow): (s: seq<Msg>) {
    f.delivered + (f.link + (f.hub + f.inbox))
  }

  ghost predicate Issued(f: Flow, m: Msg) {
    match m
    case Pilot(r) => r < f.pilots
    case PilotEnd => f.ended
    case Burst(n) => n < f.sent
  }

  ghost predicate FlowOk(f: Flow, qos: nat) {
    && Ordered(Line(f))
    && (forall m :: m in Line(f) ==> Issued(f, m))
    && (f.sent > 0 ==> f.ended)
    && f.sent == f.received + Bursts(f.inbox)
    && f.received == f.forwarded + Bursts(f.hub) + f.lostAtHub
    && f.forwarded == Bursts(f.delivered) + Bursts(f.link) + f.lostOnLink
    && (forall m :: m in f.socket || m in f.seen ==> m in f.delivered)
    && (qos == 0 ==> multiset(f.socket) + multiset(f.seen) <= multiset(f.delivered))
  }

  // ---------------------------------------------------------------------------
  // The steps of one pair
  // ---------------------------------------------------------------------------

  function PublishPilot(f: Flow): (r: Flow) {
    f.(inbox := f.inbox + [Pilot(f.pilots)], pilots := f.pilots + 1)
  }

  function PublishEnd(f: Flow): (r: Flow) {
    f.(inbox := f.inbox + [PilotEnd], ended := true)
  }

  function PublishBurst(f: Flow): (r: Flow) {
    f.(inbox := f.inbox + [Burst(f.sent)], sent := f.sent + 1)
  }

  function Receive(f: Flow): (r: Flow)
    requires f.inbox != []
  {
    f.(inbox := f.inbox[1..], hub := f.hub + [f.inbox[0]], received := f.received + One(f.inbox[0]))
  }

  function Forward(f: Flow): (r: Flow)
    requires f.hub != []
  {
    f.(hub := f.hub[1..], link := f.link + [f.hub[0]], forwarded := f.forwarded + One(f.hub[0]))
  }

  /** Not routed: no interest is visible yet, or broker i drops it. */
  function LoseAtHub(f: Flow): (r: Flow)
    requires f.hub != []
  {
    f.(hub := f.hub[1..], lostAtHub := f.lostAtHub + One(f.hub[0]))
  }

  function LoseOnLink(f: Flow): (r: Flow)
    requires f.link != []
  {
    f.(link := f.link[1..], lostOnLink := f.lostOnLink + One(f.link[0]))
  }

  function Deliver(f: Flow): (r: Flow)
    requires f.link != []
  {
    f.(link := f.link[1..], delivered := f.delivered + [f.link[0]], socket := f.socket + [f.link[0]])
  }

  /** At QoS 1 broker j may send a message again. */
  function Redeliver(f: Flow, k: nat): (r: Flow)
    requires k < |f.delivered|
  {
    f.(socket := f.socket + [f.delivered[k]])
  }

  function LoseOnSocket(f: Flow, k: nat): (r: Flow)
    requires k < |f.socket|
  {
    f.(socket := f.socket[..k] + f.socket[k + 1..])
  }

  function Read(f: Flow, k: nat): (r: Flow)
    requires k < |f.socket|
  {
    f.(socket := f.socket[..k] + f.socket[k + 1..], seen := f.seen + [f.socket[k]])
  }

  // ---------------------------------------------------------------------------
  // Each step keeps the pair in order and its tallies right
  // ---------------------------------------------------------------------------

  lemma {:induction false} BurstsConcat(a: seq<Msg>, b: seq<Msg>)
    ensures Bursts(a + b) == Bursts(a) + Bursts(b)
    decreases |b|
  {
    if b == [] {
      assert a + b == a;
    } else {
      BurstsConcat(a, b[..|b| - 1]);
      assert (a + b)[..|a + b| - 1] == a + b[..|b| - 1];
    }
  }

  lemma BurstsSnoc(s: seq<Msg>, m: Msg)
    ensures Bursts(s + [m]) == Bursts(s) + One(m)
  {
    assert (s + [m])[..|s|] == s;
  }

  lemma BurstsHead(s: seq<Msg>)
    requires s != []
    ensures Bursts(s) == One(s[0]) + Bursts(s[1..])
  {
    assert s == [s[0]] + s[1..];
    BurstsConcat([s[0]], s[1..]);
    BurstsSnoc([], s[0]);
    assert [] + [s[0]] == [s[0]];
  }

  lemma OrderedAppend(s: seq<Msg>, m: Msg)
    requires Ordered(s) && forall x :: x in s ==> Before(x, m)
    ensures Ordered(s + [m])
  {
    assert forall k :: 0 <= k < |s| ==> s[k] in s;
  }

  lemma OrderedCut(a: seq<Msg>, m: Msg, b: seq<Msg>)
    requires Ordered(a + ([m] + b))
    ensures Ordered(a + b)
  {
    var s, t := a + ([m] + b), a + b;
    forall i, j | 0 <= i < j < |t| ensures Before(t[i], t[j]) {
      var i', j' := if i < |a| then i else i + 1, if j < |a| then j else j + 1;
      assert t[i] == s[i'] && t[j] == s[j'];
    }
  }

  ghost predicate Ready(f: Flow, m: Msg) {
    match m
    case Pilot(r) => r == f.pilots && !f.ended && f.sent == 0
    case PilotEnd => !f.ended && f.sent == 0
    case Burst(n) => n == f.sent && f.ended
  }

  lemma LineAppend(f: Flow, m: Msg)
    ensures Line(f.(inbox := f.inbox + [m])) == Line(f) + [m]
  {
    assert f.delivered + (f.link + (f.hub + (f.inbox + [m]))) == f.delivered + (f.link + (f.hub + f.inbox)) + [m];
  }

  lemma PublishOk(f: Flow, qos: nat, m: Msg, g: Flow)
    requires FlowOk(f, qos) && Ready(f, m)
    requires g == match m
                  case Pilot(_) => PublishPilot(f)
                  case PilotEnd => PublishEnd(f)
                  case Burst(_) => PublishBurst(f)
    ensures FlowOk(g, qos)
  {
    var h := f.(inbox := f.inbox + [m]);
    LineAppend(f, m);
    assert Line(g) == Line(h);
    OrderedAppend(Line(f), m);
    BurstsSnoc(f.inbox, m);
    hide Line, Bursts;
    forall x | x in Line(g) ensures Issued(g, x) {
      assert x in Line(f) || x == m;
    }
  }

  lemma ReceiveLine(f: Flow)
    requires f.inbox != []
    ensures Line(Receive(f)) == Line(f)
  {
    assert Receive(f).hub + Receive(f).inbox == f.hub + f.inbox;
  }

  lemma ReceiveOk(f: Flow, qos: nat)
    requires FlowOk(f, qos) && f.inbox != []
    ensures FlowOk(Receive(f), qos) && Line(Receive(f)) == Line(f)
  {
    hide Bursts, Line, Ordered;
    ReceiveLine(f);
    BurstsHead(f.inbox);
    BurstsSnoc(f.hub, f.inbox[0]);
  }

  lemma ForwardLine(f: Flow)
    requires f.hub != []
    ensures Line(Forward(f)) == Line(f)
  {
    var g := Forward(f);
    assert g.link + (g.hub + g.inbox) == f.link + (f.hub + f.inbox);
  }

  lemma ForwardOk(f: Flow, qos: nat)
    requires FlowOk(f, qos) && f.hub != []
    ensures FlowOk(Forward(f), qos) && Line(Forward(f)) == Line(f)
  {
    hide Bursts, Line, Ordered;
    ForwardLine(f);
    BurstsHead(f.hub);
    BurstsSnoc(f.link, f.hub[0]);
  }

  lemma DeliverLine(f: Flow)
    requires f.link != []
    ensures Line(Deliver(f)) == Line(f)
  {
    var g := Deliver(f);
    assert g.delivered + (g.link + (g.hub + g.inbox)) == f.delivered + (f.link + (f.hub + f.inbox));
  }

  lemma DeliverOk(f: Flow, qos: nat)
    requires FlowOk(f, qos) && f.link != []
    ensures FlowOk(Deliver(f), qos) && Line(Deliver(f)) == Line(f)
  {
    hide Bursts, Line, Ordered;
    DeliverLine(f);
    BurstsHead(f.link);
    BurstsSnoc(f.delivered, f.link[0]);
  }

  /** Cutting one message out of the line keeps its order and adds nothing to it. */
  ghost predicate CutFrom(f: Flow, g: Flow) {
    (Ordered(Line(f)) ==> Ordered(Line(g))) && forall x :: x in Line(g) ==> x in Line(f)
  }

  lemma HubCut(f: Flow)
    requires f.hub != []
    ensures CutFrom(f, LoseAtHub(f))
  {
    var a, b := f.delivered + f.link, f.hub[1..] + f.inbox;
    assert Line(f) == a + ([f.hub[0]] + b) && Line(LoseAtHub(f)) == a + b;
    hide Line, Ordered;
    if Ordered(Line(f)) { OrderedCut(a, f.hub[0], b); }
  }

  lemma LinkCut(f: Flow)
    requires f.link != []
    ensures CutFrom(f, LoseOnLink(f))
  {
    var a, b := f.delivered, f.link[1..] + (f.hub + f.inbox);
    assert Line(f) == a + ([f.link[0]] + b) && Line(LoseOnLink(f)) == a + b;
    hide Line, Ordered;
    if Ordered(Line(f)) { OrderedCut(a, f.link[0], b); }
  }

  lemma LoseAtHubOk(f: Flow, qos: nat)
    requires FlowOk(f, qos) && f.hub != []
    ensures FlowOk(LoseAtHub(f), qos)
  {
    hide Bursts, Line, Ordered;
    HubCut(f);
    BurstsHead(f.hub);
  }

  lemma LoseOnLinkOk(f: Flow, qos: nat)
    requires FlowOk(f, qos) && f.link != []
    ensures FlowOk(LoseOnLink(f), qos)
  {
    hide Bursts, Line, Ordered;
    LinkCut(f);
    BurstsHead(f.link);
  }

  lemma RedeliverOk(f: Flow, qos: nat, k: nat)
    requires FlowOk(f, qos) && k < |f.delivered| && qos >= 1
    ensures FlowOk(Redeliver(f, k), qos)
  {
    assert Line(Redeliver(f, k)) == Line(f);
    hide Bursts, Line;
  }

  lemma SocketBags(f: Flow, k: nat)
    requires k < |f.socket|
    ensures Line(LoseOnSocket(f, k)) == Line(f) && Line(Read(f, k)) == Line(f)
    ensures var rest := f.socket[..k] + f.socket[k + 1..];
            && multiset(f.socket) == multiset(rest) + multiset{f.socket[k]}
            && multiset(f.seen + [f.socket[k]]) == multiset(f.seen) + multiset{f.socket[k]}
            && forall m :: m in rest ==> m in f.socket
  {
    assert f.socket == f.socket[..k] + [f.socket[k]] + f.socket[k + 1..];
  }

  lemma SocketOk(f: Flow, qos: nat, k: nat)
    requires FlowOk(f, qos) && k < |f.socket|
    ensures FlowOk(LoseOnSocket(f, k), qos) && FlowOk(Read(f, k), qos)
  {
    hide Bursts, Line, Ordered;
    SocketBags(f, k);
  }

  // ---------------------------------------------------------------------------
  // What order buys
  // ---------------------------------------------------------------------------

  /** Once a message is delivered, nothing older is left on the way. */
  lemma DeliveredIsOldest(f: Flow, qos: nat, m: Msg, x: Msg)
    requires FlowOk(f, qos) && m in f.delivered
    requires x in f.link || x in f.hub || x in f.inbox
    ensures Before(m, x) && Issued(f, x)
  {
    var rest := f.link + (f.hub + f.inbox);
    assert x in rest && Line(f) == f.delivered + rest;
    var i :| 0 <= i < |f.delivered| && f.delivered[i] == m;
    var j :| 0 <= j < |rest| && rest[j] == x;
    assert Line(f)[i] == m && Line(f)[|f.delivered| + j] == x;
    assert x in Line(f);
  }

  /** With `pilot-end` seen and no burst published, the pair is empty of pilots and of everything. */
  lemma PilotsAreThrough(f: Flow, qos: nat)
    requires FlowOk(f, qos) && PilotEnd in f.seen && f.sent == 0
    ensures f.link == [] && f.hub == [] && f.inbox == []
    ensures f.received == f.forwarded == Bursts(f.delivered) == 0 && f.lostAtHub == f.lostOnLink == 0
  {
    forall x | x in f.link || x in f.hub || x in f.inbox ensures false {
      DeliveredIsOldest(f, qos, PilotEnd, x);
    }
    Empty(f.link);
    Empty(f.hub);
    Empty(f.inbox);
  }

  lemma Empty(s: seq<Msg>)
    ensures s != [] ==> s[0] in s
    ensures s == [] ==> Bursts(s) == 0
  {
  }

  /** With the last burst message seen, everything of the burst has passed broker i, and what is not
      tallied as lost has been forwarded and delivered. */
  lemma BurstIsThrough(f: Flow, qos: nat)
    requires FlowOk(f, qos) && f.sent > 0 && Burst(f.sent - 1) in f.seen
    ensures f.link == [] && f.hub == [] && f.inbox == []
    ensures f.received == f.sent && f.forwarded == f.sent - f.lostAtHub
    ensures Bursts(f.delivered) == f.forwarded - f.lostOnLink
  {
    forall x | x in f.link || x in f.hub || x in f.inbox ensures false {
      DeliveredIsOldest(f, qos, Burst(f.sent - 1), x);
    }
    Empty(f.link);
    Empty(f.hub);
    Empty(f.inbox);
  }

  // ---------------------------------------------------------------------------
  // What the member's record says
  // ---------------------------------------------------------------------------

  function BurstSet(s: seq<Msg>): (r: set<Msg>) {
    set m | m in s && m.Burst?
  }

  /** The burst of `count` messages. */
  function WholeBurst(count: nat): (r: set<Msg>)
    ensures forall m :: m in r <==> m.Burst? && m.number < count
  {
    if count == 0 then {} else WholeBurst(count - 1) + {Burst(count - 1)}
  }

  lemma {:induction false} WholeBurstSize(count: nat)
    ensures |WholeBurst(count)| == count
  {
    if count > 0 { WholeBurstSize(count - 1); }
  }

  lemma BurstSetSnoc(s: seq<Msg>, m: Msg)
    ensures BurstSet(s + [m]) == BurstSet(s) + if m.Burst? then {m} else {}
    ensures m in BurstSet(s) <==> m in s && m.Burst?
  {
    assert forall x :: x in s + [m] <==> x in s || x == m;
  }

  lemma {:induction false} SightingsCover(s: seq<Msg>)
    ensures |BurstSet(s)| <= Bursts(s)
    ensures (forall i, j :: 0 <= i < j < |s| ==> s[i] != s[j]) ==> |BurstSet(s)| == Bursts(s)
  {
    if s != [] {
      hide BurstSet;
      var n := |s| - 1;
      SightingsCover(s[..n]);
      BurstSetSnoc(s[..n], s[n]);
      assert s == s[..n] + [s[n]];
    }
  }

  lemma SubBagDistinct(s: seq<Msg>, t: seq<Msg>)
    requires multiset(s) <= multiset(t) && forall i, j :: 0 <= i < j < |t| ==> t[i] != t[j]
    ensures forall i, j :: 0 <= i < j < |s| ==> s[i] != s[j]
  {
    forall i, j | 0 <= i < j < |s| ensures s[i] != s[j] {
      if s[i] == s[j] {
        Twice(s, i, j);
        AtMostOnce(t, s[i]);
        assert false;
      }
    }
  }

  lemma Twice(s: seq<Msg>, i: nat, j: nat)
    requires i < j < |s| && s[i] == s[j]
    ensures multiset(s)[s[i]] >= 2
  {
    var a, b := s[..j], s[j..];
    assert s == a + b;
    assert a[i] == s[i] && b[0] == s[j];
    assert multiset(s) == multiset(a) + multiset(b);
    assert s[i] in multiset(a) && s[i] in multiset(b);
  }

  lemma {:induction false} AtMostOnce(t: seq<Msg>, m: Msg)
    requires forall i, j :: 0 <= i < j < |t| ==> t[i] != t[j]
    ensures multiset(t)[m] <= 1
  {
    if t != [] {
      var n := |t| - 1;
      AtMostOnce(t[..n], m);
      assert t == t[..n] + [t[n]];
      if m == t[n] { assert m !in t[..n]; }
    }
  }

  /** The member saw every message of the burst. */
  ghost predicate AllSeen(f: Flow) {
    forall n :: 0 <= n < f.sent ==> Burst(n) in f.seen
  }

  /** The member's distinct sightings number the burst exactly when it saw all of it. */
  lemma DistinctIff(f: Flow, qos: nat)
    requires FlowOk(f, qos)
    ensures |BurstSet(f.seen)| == f.sent <==> AllSeen(f)
    ensures |BurstSet(f.seen)| <= f.sent
  {
    var all, got := WholeBurst(f.sent), BurstSet(f.seen);
    WholeBurstSize(f.sent);
    forall m | m in got ensures m in all {
      assert m in f.delivered && m in Line(f);
    }
    if AllSeen(f) {
      assert got == all;
    } else {
      var n :| 0 <= n < f.sent && Burst(n) !in f.seen;
      assert got <= all - {Burst(n)};
      SubsetSize(got, all - {Burst(n)});
    }
    SubsetSize(got, all);
  }

  lemma SubsetSize(a: set<Msg>, b: set<Msg>)
    requires a <= b
    ensures |a| <= |b|
  {
    assert b == a + (b - a);
  }

  lemma DeliveredDistinct(f: Flow, qos: nat)
    requires FlowOk(f, qos)
    ensures forall i, j :: 0 <= i < j < |f.delivered| ==> f.delivered[i] != f.delivered[j]
  {
    forall i, j | 0 <= i < j < |f.delivered| ensures Before(f.delivered[i], f.delivered[j]) {
      assert Line(f)[i] == f.delivered[i] && Line(f)[j] == f.delivered[j];
    }
  }

  /** If the member saw the whole burst, none of it was lost at either broker. */
  lemma SeenMeansNotLost(f: Flow, qos: nat)
    requires FlowOk(f, qos) && f.sent > 0 && AllSeen(f)
    ensures f.lostAtHub == 0 && f.lostOnLink == 0
    ensures f.received == f.forwarded == Bursts(f.delivered) == f.sent
  {
    assert Burst(f.sent - 1) in f.seen;
    BurstIsThrough(f, qos);
    DeliveredDistinct(f, qos);
    SightingsCover(f.delivered);
    WholeBurstSize(f.sent);
    var all := WholeBurst(f.sent);
    forall m | m in all ensures m in BurstSet(f.delivered) {
      assert m == Burst(m.number) && m in f.seen;
    }
    SubsetSize(all, BurstSet(f.delivered));
  }

  /** At QoS 0 the member sees nothing twice; at any QoS it sees each of its distinct messages. */
  lemma Sightings(f: Flow, qos: nat)
    requires FlowOk(f, qos)
    ensures Bursts(f.seen) >= |BurstSet(f.seen)|
    ensures qos == 0 ==> Bursts(f.seen) == |BurstSet(f.seen)|
  {
    SightingsCover(f.seen);
    if qos == 0 {
      DeliveredDistinct(f, qos);
      assert multiset(f.seen) <= multiset(f.delivered);
      SubBagDistinct(f.seen, f.delivered);
    }
  }
}
