/** What every run of the forwarding control keeps (bench/scale/forward-canary.py): pairs stay in
    order, and from the pre scrape on each broker's counters account for the burst and nothing else. */
module CanaryInvariant {
  import opened CanaryFlow
  import opened CanaryProtocol

  ghost predicate PhaseOk(c: Config, phase: Phase, f: Flow) {
    match phase
    case Piloting => !f.ended && f.sent == 0
    case Ending => f.sent == 0
    case PreScrape => PilotEnd in f.seen && f.sent == 0
    case Bursting => PilotEnd in f.seen && f.ended && f.sent <= c.count
    case Awaiting => PilotEnd in f.seen && f.sent == c.count
    case PostScrape => PilotEnd in f.seen && f.sent == c.count > 0 && Burst(c.count - 1) in f.seen
    case Complete => PilotEnd in f.seen && f.sent == c.count > 0 && Burst(c.count - 1) in f.seen
    case Failed => true
  }

  ghost predicate Sizes(c: Config, s: State) {
    && |s.brokers| == c.nodes
    && match s.phase
       case Piloting => s.pre == [] && s.post == []
       case Ending => s.pre == [] && s.post == []
       case PreScrape => |s.pre| < c.nodes && s.post == []
       case Bursting => |s.pre| == c.nodes && s.post == []
       case Awaiting => |s.pre| == c.nodes && s.post == []
       case PostScrape => |s.pre| == c.nodes && |s.post| < c.nodes
       case Complete => |s.pre| == c.nodes && |s.post| == c.nodes
       case Failed => true
  }

  predicate Lossless(f: Flow) {
    f.lostAtHub == 0 && f.lostOnLink == 0
  }

  ghost predicate Clean(flows: map<PairId, Flow>) {
    forall p :: p in flows ==> Lossless(flows[p])
  }

  /** From `before` to `now`, broker `b` received, forwarded and delivered what the tallies say. */
  ghost predicate Accounts(c: Config, flows: map<PairId, Flow>, b: nat, now: Counters, before: Counters) {
    && now.received == before.received + Sum(flows, b, c.nodes, true, ReceivedBurst)
    && now.forwarded == before.forwarded + (if c.nodes == 1 then 0 else Sum(flows, b, c.nodes, true, ForwardedBurst))
    && now.delivered >= before.delivered + Sum(flows, b, c.nodes, false, DeliveredBurst)
    && (c.qos == 0 ==> now.delivered == before.delivered + Sum(flows, b, c.nodes, false, DeliveredBurst))
    && (Clean(flows) ==> now.dropped == before.dropped)
  }

  ghost predicate FlowsOk(c: Config, s: State) {
    && (forall p :: p in s.flows <==> IsPair(c, p))
    && (forall p :: p in s.flows ==> FlowOk(s.flows[p], c.qos) && PhaseOk(c, s.phase, s.flows[p]))
  }

  ghost predicate Booked(c: Config, s: State) {
    !s.phase.Failed? ==>
      && |s.pre| <= |s.brokers| && |s.post| <= |s.pre|
      && (forall b :: 0 <= b < |s.pre| ==> Accounts(c, s.flows, b, s.brokers[b], s.pre[b]))
      && (forall b :: 0 <= b < |s.post| ==> Accounts(c, s.flows, b, s.post[b], s.pre[b]))
  }

  ghost predicate Invariant(c: Config, s: State) {
    Sizes(c, s) && FlowsOk(c, s) && Booked(c, s)
  }

  // ---------------------------------------------------------------------------
  // Moving one pair
  // ---------------------------------------------------------------------------

  /** How one pair's step changes a broker's counters, in step with the pair's tallies. */
  ghost predicate InStep(c: Config, p: PairId, f: Flow, g: Flow, b: nat, now: Counters, then_: Counters) {
    && then_.received - now.received == (if p.0 == b then g.received - f.received else 0)
    && then_.forwarded - now.forwarded == (if c.nodes != 1 && p.0 == b then g.forwarded - f.forwarded else 0)
    && (var d := if p.1 == b then Bursts(g.delivered) - Bursts(f.delivered) else 0;
        && then_.delivered - now.delivered >= d
        && (c.qos == 0 ==> then_.delivered - now.delivered == d))
    && (Lossless(g) ==> Lossless(f) && then_.dropped == now.dropped)
  }

  lemma AccountsKept(c: Config, flows: map<PairId, Flow>, p: PairId, g: Flow, b: nat,
                     now: Counters, then_: Counters, before: Counters)
    requires p in flows && p.0 < c.nodes && p.1 < c.nodes
    requires Accounts(c, flows, b, now, before) && InStep(c, p, flows[p], g, b, now, then_)
    ensures Accounts(c, flows[p := g], b, then_, before)
  {
    hide Sum, Bursts;
    var after := flows[p := g];
    SumUpdate(flows, p, g, b, c.nodes, true, ReceivedBurst);
    SumUpdate(flows, p, g, b, c.nodes, true, ForwardedBurst);
    SumUpdate(flows, p, g, b, c.nodes, false, DeliveredBurst);
    if Clean(after) {
      assert after[p] == g;
      forall q | q in flows ensures Lossless(flows[q]) {
        if q != p { assert after[q] == flows[q]; }
      }
    }
  }

  lemma FlowsKept(c: Config, s: State, p: PairId, g: Flow, brokers: seq<Counters>)
    requires FlowsOk(c, s) && p in s.flows
    requires FlowOk(g, c.qos) && PhaseOk(c, s.phase, g)
    ensures FlowsOk(c, s.(flows := s.flows[p := g], brokers := brokers))
  {
    hide FlowOk, PhaseOk, IsPair;
    assert forall q :: q in s.flows[p := g] <==> q in s.flows;
  }

  lemma BookedKept(c: Config, s: State, p: PairId, g: Flow, brokers: seq<Counters>)
    requires Booked(c, s) && p in s.flows && |brokers| == |s.brokers| && p.0 < c.nodes && p.1 < c.nodes
    requires !s.phase.Failed? ==>
               forall b :: 0 <= b < |s.pre| <= |s.brokers| ==> InStep(c, p, s.flows[p], g, b, s.brokers[b], brokers[b])
    requires !s.phase.Failed? && s.post != [] ==> SameTallies(s.flows[p], g)
    ensures Booked(c, s.(flows := s.flows[p := g], brokers := brokers))
  {
    hide Accounts, InStep, SameTallies;
    if !s.phase.Failed? {
      forall b | 0 <= b < |s.pre| ensures Accounts(c, s.flows[p := g], b, brokers[b], s.pre[b]) {
        AccountsKept(c, s.flows, p, g, b, s.brokers[b], brokers[b], s.pre[b]);
      }
      forall b | 0 <= b < |s.post| ensures Accounts(c, s.flows[p := g], b, s.post[b], s.pre[b]) {
        Unchanged(c, p, s.flows[p], g, b, s.post[b]);
        AccountsKept(c, s.flows, p, g, b, s.post[b], s.post[b], s.pre[b]);
      }
    }
  }

  lemma SizesKept(c: Config, s: State, flows: map<PairId, Flow>, brokers: seq<Counters>)
    requires Sizes(c, s) && |brokers| == c.nodes
    ensures Sizes(c, s.(flows := flows, brokers := brokers))
  {
  }

  /** A step of one pair that keeps the pair right and the counters in step keeps the invariant. */
  lemma PairStep(c: Config, s: State, p: PairId, g: Flow, brokers: seq<Counters>)
    requires Invariant(c, s) && p in s.flows && |brokers| == c.nodes
    requires FlowOk(g, c.qos) && PhaseOk(c, s.phase, g)
    requires !s.phase.Failed? ==>
               forall b :: 0 <= b < |s.pre| <= c.nodes ==> InStep(c, p, s.flows[p], g, b, s.brokers[b], brokers[b])
    requires !s.phase.Failed? && s.post != [] ==> SameTallies(s.flows[p], g)
    ensures Invariant(c, s.(flows := s.flows[p := g], brokers := brokers))
  {
    PairIndices(c, s, p);
    hide FlowOk, PhaseOk, Booked, InStep, SameTallies, Sizes;
    SizesKept(c, s, s.flows[p := g], brokers);
    FlowsKept(c, s, p, g, brokers);
    BookedKept(c, s, p, g, brokers);
  }

  lemma PairIndices(c: Config, s: State, p: PairId)
    requires Sizes(c, s) && FlowsOk(c, s) && p in s.flows
    ensures p.0 < c.nodes && p.1 < c.nodes && |s.brokers| == c.nodes && (c.nodes == 1 <==> p.0 == p.1)
  {
    hide FlowOk, PhaseOk;
    assert IsPair(c, p);
  }

  ghost predicate SameTallies(f: Flow, g: Flow) {
    && g.received == f.received && g.forwarded == f.forwarded && g.delivered == f.delivered
    && g.lostAtHub == f.lostAtHub && g.lostOnLink == f.lostOnLink
  }

  lemma Unchanged(c: Config, p: PairId, f: Flow, g: Flow, b: nat, k: Counters)
    requires SameTallies(f, g)
    ensures InStep(c, p, f, g, b, k, k)
  {
  }

  // ---------------------------------------------------------------------------
  // The brokers' and the network's steps
  // ---------------------------------------------------------------------------

  /** From the pre scrape on, every message still in the brokers belongs to the burst; from the post
      scrape on, none is left. */
  lemma OnlyBurst(c: Config, s: State, p: PairId)
    requires Invariant(c, s) && p in s.flows && !s.phase.Failed?
    ensures var f := s.flows[p];
            && (s.pre != [] ==>
                  && (f.inbox != [] ==> f.inbox[0].Burst?)
                  && (f.hub != [] ==> f.hub[0].Burst?)
                  && (f.link != [] ==> f.link[0].Burst?))
            && (s.post != [] ==> f.inbox == [] && f.hub == [] && f.link == [])
  {
    hide Booked;
    var f := s.flows[p];
    assert FlowOk(f, c.qos) && PhaseOk(c, s.phase, f);
    if s.pre != [] {
      InFlightIsBurst(f, c.qos);
      if s.post != [] {
        BurstIsThrough(f, c.qos);
      }
    }
  }

  lemma InFlightIsBurst(f: Flow, qos: nat)
    requires FlowOk(f, qos) && PilotEnd in f.seen
    ensures f.inbox != [] ==> f.inbox[0].Burst?
    ensures f.hub != [] ==> f.hub[0].Burst?
    ensures f.link != [] ==> f.link[0].Burst?
  {
    if f.inbox != [] { DeliveredIsOldest(f, qos, PilotEnd, f.inbox[0]); }
    if f.hub != [] { DeliveredIsOldest(f, qos, PilotEnd, f.hub[0]); }
    if f.link != [] { DeliveredIsOldest(f, qos, PilotEnd, f.link[0]); }
  }

  lemma PhaseOkSeen(c: Config, phase: Phase, f: Flow, g: Flow)
    requires PhaseOk(c, phase, f) && g.ended == f.ended && g.sent == f.sent
    requires forall m :: m in f.seen ==> m in g.seen
    ensures PhaseOk(c, phase, g)
  {
  }

  lemma DeliverTally(f: Flow)
    requires f.link != []
    ensures Bursts(Deliver(f).delivered) == Bursts(f.delivered) + One(f.link[0])
  {
    BurstsSnoc(f.delivered, f.link[0]);
  }

  /** What broker `b0` counts on the step of pair `p` from `f` to `g`. */
  datatype Count = Count(b0: nat, received: nat, forwarded: nat, delivered: nat, dropped: nat)

  function Counted(k: Counters, b: nat, n: Count): (r: Counters) {
    if b == n.b0 then Add(k, n.received, n.forwarded, n.delivered, n.dropped) else k
  }

  ghost predicate Fits(c: Config, p: PairId, f: Flow, g: Flow, n: Count) {
    forall b, k :: InStep(c, p, f, g, b, k, Counted(k, b, n))
  }

  /** A broker's or the network's step on pair `p`. */
  lemma CountStep(c: Config, s: State, p: PairId, g: Flow, n: Count)
    requires Invariant(c, s) && p in s.flows && n.b0 < c.nodes
    requires FlowOk(g, c.qos) && g.ended == s.flows[p].ended && g.sent == s.flows[p].sent
    requires forall m :: m in s.flows[p].seen ==> m in g.seen
    requires !s.phase.Failed? && s.pre != [] ==> Fits(c, p, s.flows[p], g, n)
    requires !s.phase.Failed? && s.post != [] ==> SameTallies(s.flows[p], g)
    ensures n.b0 < |s.brokers|
    ensures Invariant(c, PutCounting(s, p, g, n.b0, Counted(s.brokers[n.b0], n.b0, n)))
  {
    assert FlowsOk(c, s) && PhaseOk(c, s.phase, s.flows[p]) && |s.brokers| == c.nodes;
    hide Invariant, FlowOk, InStep, SameTallies, FlowsOk, PhaseOk, Add;
    PhaseOkSeen(c, s.phase, s.flows[p], g);
    var brokers := s.brokers[n.b0 := Counted(s.brokers[n.b0], n.b0, n)];
    if !s.phase.Failed? && s.pre != [] {
      forall b | 0 <= b < |s.pre| <= c.nodes ensures InStep(c, p, s.flows[p], g, b, s.brokers[b], brokers[b]) {
        assert brokers[b] == Counted(s.brokers[b], b, n);
      }
    }
    PairStep(c, s, p, g, brokers);
  }

  lemma ReceiveFits(c: Config, p: PairId, f: Flow)
    requires f.inbox != [] && f.inbox[0].Burst?
    ensures Fits(c, p, f, Receive(f), Count(p.0, 1, 0, 0, 0))
  {
    hide Bursts;
  }

  lemma ForwardFits(c: Config, p: PairId, f: Flow)
    requires f.hub != [] && f.hub[0].Burst? && (c.nodes == 1 <==> p.0 == p.1)
    ensures Fits(c, p, f, Forward(f), Count(p.0, 0, if p.0 == p.1 then 0 else 1, 0, 0))
  {
    hide Bursts;
  }

  lemma DeliverFits(c: Config, p: PairId, f: Flow)
    requires f.link != [] && f.link[0].Burst?
    ensures Fits(c, p, f, Deliver(f), Count(p.1, 0, 0, 1, 0))
  {
    DeliverTally(f);
    hide Bursts;
  }

  lemma LossFits(c: Config, p: PairId, f: Flow, n: nat)
    ensures f.hub != [] && f.hub[0].Burst? ==> Fits(c, p, f, LoseAtHub(f), Count(p.0, 0, 0, 0, n))
    ensures f.link != [] && f.link[0].Burst? ==> Fits(c, p, f, LoseOnLink(f), Count(p.1, 0, 0, 0, n))
  {
    hide Bursts;
  }

  lemma RedeliverFits(c: Config, p: PairId, f: Flow, k: nat)
    requires k < |f.delivered| && c.qos >= 1
    ensures Fits(c, p, f, Redeliver(f, k), Count(p.1, 0, 0, 1, 0))
  {
    hide Bursts;
  }

  lemma EdgeFits(c: Config, p: PairId, f: Flow, g: Flow, b0: nat)
    requires SameTallies(f, g)
    ensures Fits(c, p, f, g, Count(b0, 0, 0, 0, 0))
  {
    hide Bursts;
  }

  lemma FlowHolds(c: Config, s: State, p: PairId)
    requires Invariant(c, s) && p in s.flows
    ensures FlowOk(s.flows[p], c.qos) && p.0 < c.nodes && p.1 < c.nodes && |s.brokers| == c.nodes
    ensures c.nodes == 1 <==> p.0 == p.1
  {
    PairIndices(c, s, p);
  }

  lemma ReceiveKeeps(c: Config, s: State, p: PairId)
    requires Invariant(c, s) && p in s.flows && s.flows[p].inbox != []
    ensures p.0 < |s.brokers|
    ensures Invariant(c, PutCounting(s, p, Receive(s.flows[p]), p.0, Add(s.brokers[p.0], 1, 0, 0, 0)))
  {
    hide Invariant, FlowOk, Fits;
    FlowHolds(c, s, p);
    ReceiveOk(s.flows[p], c.qos);
    if !s.phase.Failed? {
      OnlyBurst(c, s, p);
      if s.pre != [] { ReceiveFits(c, p, s.flows[p]); }
    }
    CountStep(c, s, p, Receive(s.flows[p]), Count(p.0, 1, 0, 0, 0));
  }

  lemma ForwardKeeps(c: Config, s: State, p: PairId)
    requires Invariant(c, s) && p in s.flows && s.flows[p].hub != []
    ensures p.0 < |s.brokers|
    ensures var n := if p.0 == p.1 then 0 else 1;
            Invariant(c, PutCounting(s, p, Forward(s.flows[p]), p.0, Add(s.brokers[p.0], 0, n, 0, 0)))
  {
    hide Invariant, FlowOk, Fits;
    FlowHolds(c, s, p);
    ForwardOk(s.flows[p], c.qos);
    if !s.phase.Failed? {
      OnlyBurst(c, s, p);
      if s.pre != [] { ForwardFits(c, p, s.flows[p]); }
    }
    CountStep(c, s, p, Forward(s.flows[p]), Count(p.0, 0, if p.0 == p.1 then 0 else 1, 0, 0));
  }

  lemma DeliverKeeps(c: Config, s: State, p: PairId)
    requires Invariant(c, s) && p in s.flows && s.flows[p].link != []
    ensures p.1 < |s.brokers|
    ensures Invariant(c, PutCounting(s, p, Deliver(s.flows[p]), p.1, Add(s.brokers[p.1], 0, 0, 1, 0)))
  {
    hide Invariant, FlowOk, Fits;
    FlowHolds(c, s, p);
    DeliverOk(s.flows[p], c.qos);
    if !s.phase.Failed? {
      OnlyBurst(c, s, p);
      if s.pre != [] { DeliverFits(c, p, s.flows[p]); }
    }
    CountStep(c, s, p, Deliver(s.flows[p]), Count(p.1, 0, 0, 1, 0));
  }

  lemma HubLossKeeps(c: Config, s: State, p: PairId, n: nat)
    requires Invariant(c, s) && p in s.flows && s.flows[p].hub != []
    ensures p.0 < |s.brokers|
    ensures Invariant(c, PutCounting(s, p, LoseAtHub(s.flows[p]), p.0, Add(s.brokers[p.0], 0, 0, 0, n)))
  {
    hide Invariant, FlowOk, Fits;
    FlowHolds(c, s, p);
    LoseAtHubOk(s.flows[p], c.qos);
    LossFits(c, p, s.flows[p], n);
    if !s.phase.Failed? { OnlyBurst(c, s, p); }
    CountStep(c, s, p, LoseAtHub(s.flows[p]), Count(p.0, 0, 0, 0, n));
  }

  lemma LinkLossKeeps(c: Config, s: State, p: PairId, n: nat)
    requires Invariant(c, s) && p in s.flows && s.flows[p].link != []
    ensures p.1 < |s.brokers|
    ensures Invariant(c, PutCounting(s, p, LoseOnLink(s.flows[p]), p.1, Add(s.brokers[p.1], 0, 0, 0, n)))
  {
    hide Invariant, FlowOk, Fits;
    FlowHolds(c, s, p);
    LoseOnLinkOk(s.flows[p], c.qos);
    LossFits(c, p, s.flows[p], n);
    if !s.phase.Failed? { OnlyBurst(c, s, p); }
    CountStep(c, s, p, LoseOnLink(s.flows[p]), Count(p.1, 0, 0, 0, n));
  }

  lemma RedeliverKeeps(c: Config, s: State, p: PairId, k: nat)
    requires Invariant(c, s) && p in s.flows && k < |s.flows[p].delivered| && c.qos >= 1
    ensures p.1 < |s.brokers|
    ensures Invariant(c, PutCounting(s, p, Redeliver(s.flows[p], k), p.1, Add(s.brokers[p.1], 0, 0, 1, 0)))
  {
    hide Invariant, FlowOk, Fits;
    FlowHolds(c, s, p);
    RedeliverOk(s.flows[p], c.qos, k);
    RedeliverFits(c, p, s.flows[p], k);
    CountStep(c, s, p, Redeliver(s.flows[p], k), Count(p.1, 0, 0, 1, 0));
  }

  lemma SocketKeeps(c: Config, s: State, p: PairId, k: nat)
    requires Invariant(c, s) && p in s.flows && k < |s.flows[p].socket|
    ensures Invariant(c, Put(s, p, LoseOnSocket(s.flows[p], k)))
    ensures Invariant(c, Put(s, p, Read(s.flows[p], k)))
  {
    hide Invariant, FlowOk, Fits;
    FlowHolds(c, s, p);
    var f := s.flows[p];
    SocketOk(f, c.qos, k);
    EdgeFits(c, p, f, LoseOnSocket(f, k), p.0);
    EdgeFits(c, p, f, Read(f, k), p.0);
    var n := Count(p.0, 0, 0, 0, 0);
    assert s.brokers[p.0 := Counted(s.brokers[p.0], p.0, n)] == s.brokers;
    CountStep(c, s, p, LoseOnSocket(f, k), n);
    CountStep(c, s, p, Read(f, k), n);
  }

  lemma LinksKeep(c: Config, s: State, b: nat, n: nat)
    requires Invariant(c, s) && b < c.nodes
    ensures b < |s.brokers| && Invariant(c, s.(brokers := s.brokers[b := s.brokers[b].(links := n)]))
  {
    hide Sum, FlowOk, PhaseOk, Clean;
  }

  lemma BrokersSized(c: Config, s: State)
    requires Invariant(c, s)
    ensures |s.brokers| == c.nodes
  {
  }

  lemma EnvironmentKeeps(c: Config, s: State, a: Action)
    requires Invariant(c, s)
    ensures |s.brokers| == c.nodes && Invariant(c, Environment(c, s, a))
  {
    hide Invariant, Receive, Forward, LoseAtHub, LoseOnLink, Deliver, Redeliver, LoseOnSocket, Read, Add;
    BrokersSized(c, s);
    match a
    case AtBroker(p) => if p in s.flows && s.flows[p].inbox != [] { ReceiveKeeps(c, s, p); }
    case Route(p) => if p in s.flows && s.flows[p].hub != [] { ForwardKeeps(c, s, p); }
    case Unrouted(p, counted) =>
      if p in s.flows && s.flows[p].hub != [] { HubLossKeeps(c, s, p, if counted then 1 else 0); }
    case LinkLoss(p, counted) =>
      if p in s.flows && s.flows[p].link != [] { LinkLossKeeps(c, s, p, if counted then 1 else 0); }
    case Hand(p) => if p in s.flows && s.flows[p].link != [] { DeliverKeeps(c, s, p); }
    case HandAgain(p, k) =>
      if p in s.flows && k < |s.flows[p].delivered| && c.qos >= 1 { RedeliverKeeps(c, s, p, k); }
    case SocketLoss(p, k) => if p in s.flows && k < |s.flows[p].socket| { SocketKeeps(c, s, p, k); }
    case Member(p, k) => if p in s.flows && k < |s.flows[p].socket| { SocketKeeps(c, s, p, k); }
    case LinksChange(b, n) => if b < c.nodes { LinksKeep(c, s, b, n); }
    case _ =>
  }

  // ---------------------------------------------------------------------------
  // The driver's steps
  // ---------------------------------------------------------------------------

  lemma PhaseHolds(c: Config, s: State, p: PairId)
    requires Invariant(c, s) && p in s.flows
    ensures PhaseOk(c, s.phase, s.flows[p])
  {
    hide Sizes, Booked, FlowOk, PhaseOk;
  }

  lemma PublishKeeps(c: Config, s: State, a: Action)
    requires Invariant(c, s)
    ensures Invariant(c, Publish(c, s, a))
  {
    hide Invariant, FlowOk;
    if (a.SendPilot? || a.SendEnd? || a.SendBurst?) && a.p in s.flows {
      var p, f := a.p, s.flows[a.p];
      PhaseHolds(c, s, p);
      if a.SendPilot? && s.phase.Piloting? {
        PublishPair(c, s, p, Pilot(f.pilots), PublishPilot(f));
      } else if a.SendEnd? && s.phase.Ending? && !f.ended {
        PublishPair(c, s, p, PilotEnd, PublishEnd(f));
      } else if a.SendBurst? && s.phase.Bursting? && f.sent < c.count {
        PublishPair(c, s, p, Burst(f.sent), PublishBurst(f));
      }
    }
  }

  lemma PublishPair(c: Config, s: State, p: PairId, m: Msg, g: Flow)
    requires Invariant(c, s) && p in s.flows && Ready(s.flows[p], m) && PhaseOk(c, s.phase, g)
    requires g == match m
                  case Pilot(_) => PublishPilot(s.flows[p])
                  case PilotEnd => PublishEnd(s.flows[p])
                  case Burst(_) => PublishBurst(s.flows[p])
    ensures Invariant(c, Put(s, p, g))
  {
    hide Invariant, FlowOk, PhaseOk, InStep;
    FlowHolds(c, s, p);
    PublishOk(s.flows[p], c.qos, m, g);
    forall b | 0 <= b < |s.pre| <= c.nodes ensures InStep(c, p, s.flows[p], g, b, s.brokers[b], s.brokers[b]) {
      Unchanged(c, p, s.flows[p], g, b, s.brokers[b]);
    }
    PairStep(c, s, p, g, s.brokers);
  }

  /** A phase change that leaves pairs, counters and scrapes alone. */
  lemma PhaseStep(c: Config, s: State, phase: Phase)
    requires Invariant(c, s) && !s.phase.Failed? && !phase.Failed?
    requires Sizes(c, s.(phase := phase))
    requires forall p :: p in s.flows ==> PhaseOk(c, phase, s.flows[p])
    ensures Invariant(c, s.(phase := phase))
  {
    hide Sizes, PhaseOk, FlowOk, Accounts;
  }

  /** At the pre scrape the pairs are empty and every tally is zero. */
  lemma NothingTallied(c: Config, s: State, b: nat)
    requires Invariant(c, s) && s.phase.PreScrape? && b < c.nodes
    ensures Sum(s.flows, b, c.nodes, true, ReceivedBurst) == 0
    ensures Sum(s.flows, b, c.nodes, true, ForwardedBurst) == 0
    ensures Sum(s.flows, b, c.nodes, false, DeliveredBurst) == 0
  {
    forall p | p in s.flows ensures forall t :: TallyOf(t, s.flows[p]) == 0 {
      PilotsAreThrough(s.flows[p], c.qos);
    }
    hide Invariant, TallyOf, Sum;
    FlowKeys(c, s);
    SumConstant(c, s.flows, b, c.nodes, true, ReceivedBurst, 0);
    SumConstant(c, s.flows, b, c.nodes, true, ForwardedBurst, 0);
    SumConstant(c, s.flows, b, c.nodes, false, DeliveredBurst, 0);
  }

  lemma FlowKeys(c: Config, s: State)
    requires Invariant(c, s)
    ensures forall p :: p in s.flows <==> IsPair(c, p)
  {
  }

  lemma ZeroAccounts(c: Config, s: State, b: nat)
    requires Invariant(c, s) && s.phase.PreScrape? && b < c.nodes == |s.brokers|
    ensures Accounts(c, s.flows, b, s.brokers[b], s.brokers[b])
  {
    hide Invariant, Sum, Clean;
    NothingTallied(c, s, b);
  }

  lemma PreBooked(c: Config, s: State, phase: Phase)
    requires Booked(c, s) && s.phase.PreScrape? && !phase.Failed? && |s.pre| < |s.brokers| && s.post == []
    requires Accounts(c, s.flows, |s.pre|, s.brokers[|s.pre|], s.brokers[|s.pre|])
    ensures Booked(c, s.(pre := s.pre + [s.brokers[|s.pre|]], phase := phase))
  {
    hide Accounts;
  }

  lemma PreFlows(c: Config, s: State, pre: seq<Counters>, phase: Phase)
    requires FlowsOk(c, s) && s.phase.PreScrape? && (phase.PreScrape? || phase.Bursting?)
    ensures FlowsOk(c, s.(pre := pre, phase := phase))
  {
    forall p | p in s.flows ensures PhaseOk(c, phase, s.flows[p]) { EndedOnceSeen(s.flows[p], c.qos); }
    hide FlowOk, PhaseOk;
  }

  lemma PreScrapeKeeps(c: Config, s: State)
    requires Invariant(c, s) && s.phase.PreScrape?
    ensures |s.brokers| == c.nodes && Invariant(c, Advance(c, s, Scrape))
  {
    assert Sizes(c, s);
    var phase := if |s.pre| + 1 == c.nodes then Bursting else PreScrape;
    ZeroAccounts(c, s, |s.pre|);
    hide FlowsOk, Accounts, Booked;
    PreFlows(c, s, s.pre + [s.brokers[|s.pre|]], phase);
    PreBooked(c, s, phase);
  }

  lemma EndedOnceSeen(f: Flow, qos: nat)
    requires FlowOk(f, qos) && PilotEnd in f.seen
    ensures f.ended
  {
    assert PilotEnd in f.delivered && PilotEnd in Line(f);
    assert Issued(f, PilotEnd);
  }

  lemma PostBooked(c: Config, s: State, phase: Phase)
    requires Booked(c, s) && s.phase.PostScrape? && !phase.Failed? && |s.post| < |s.pre| == |s.brokers|
    ensures Booked(c, s.(post := s.post + [s.brokers[|s.post|]], phase := phase))
  {
    hide Accounts;
  }

  lemma PostFlows(c: Config, s: State, post: seq<Counters>, phase: Phase)
    requires FlowsOk(c, s) && s.phase.PostScrape? && (phase.PostScrape? || phase.Complete?)
    ensures FlowsOk(c, s.(post := post, phase := phase))
  {
    hide FlowOk;
  }

  lemma PostScrapeKeeps(c: Config, s: State)
    requires Invariant(c, s) && s.phase.PostScrape?
    ensures |s.brokers| == c.nodes && Invariant(c, Advance(c, s, Scrape))
  {
    assert Sizes(c, s);
    hide FlowsOk, Booked;
    var phase := if |s.post| + 1 == c.nodes then Complete else PostScrape;
    PostFlows(c, s, s.post + [s.brokers[|s.post|]], phase);
    PostBooked(c, s, phase);
  }

  lemma SizesHold(c: Config, s: State)
    requires Invariant(c, s)
    ensures Sizes(c, s)
  {
  }

  lemma GiveUpKeeps(c: Config, s: State)
    requires Invariant(c, s)
    ensures Invariant(c, s.(phase := Failed))
  {
    hide FlowOk, Accounts;
  }

  lemma AdvanceKeeps(c: Config, s: State, a: Action)
    requires Invariant(c, s) && c.nodes > 0
    ensures |s.brokers| == c.nodes && Invariant(c, Advance(c, s, a))
  {
    hide Invariant, Lit;
    SizesHold(c, s);
    forall p | p in s.flows ensures PhaseOk(c, s.phase, s.flows[p]) { PhaseHolds(c, s, p); }
    match a
    case PilotsDone => if Advance(c, s, a) != s { PhaseStep(c, s, Ending); }
    case EndsSeen => if Advance(c, s, a) != s { PhaseStep(c, s, PreScrape); }
    case BurstSent => if Advance(c, s, a) != s { PhaseStep(c, s, Awaiting); }
    case BurstSeen => if Advance(c, s, a) != s { PhaseStep(c, s, PostScrape); }
    case Scrape =>
      if s.phase.PreScrape? { PreScrapeKeeps(c, s); }
      else if s.phase.PostScrape? { PostScrapeKeeps(c, s); }
    case GiveUp => GiveUpKeeps(c, s);
    case _ =>
  }

  // ---------------------------------------------------------------------------
  // Every run
  // ---------------------------------------------------------------------------

  lemma QuietOk(qos: nat)
    ensures FlowOk(Quiet, qos)
  {
    assert Line(Quiet) == [];
  }

  lemma InitHolds(c: Config, s: State)
    requires Init(c, s)
    ensures Invariant(c, s)
  {
    QuietOk(c.qos);
    hide FlowOk, Accounts;
  }

  lemma ApplyKeeps(c: Config, s: State, a: Action)
    requires Invariant(c, s) && c.nodes > 0
    ensures |s.brokers| == c.nodes && Invariant(c, Apply(c, s, a))
  {
    hide Invariant;
    EnvironmentKeeps(c, s, a);
    PublishKeeps(c, s, a);
    AdvanceKeeps(c, s, a);
  }

  /** The invariant holds in every state of every run. */
  lemma {:induction false} RunKeeps(c: Config, s: State, actions: seq<Action>)
    requires Init(c, s) && c.nodes > 0
    ensures Invariant(c, Run(c, s, actions))
  {
    if actions == [] {
      InitHolds(c, s);
    } else {
      RunKeeps(c, s, actions[..|actions| - 1]);
      ApplyKeeps(c, Run(c, s, actions[..|actions| - 1]), actions[|actions| - 1]);
    }
  }

  // ---------------------------------------------------------------------------
  // The pilots
  // ---------------------------------------------------------------------------

  /** Past the pilots and not given up. */
  predicate PastPilots(phase: Phase) {
    !phase.Piloting? && !phase.Failed?
  }

  ghost predicate AllLit(s: State) {
    forall p :: p in s.flows ==> Lit(s.flows[p])
  }

  /** Steps only ever add to what a member has seen. */
  lemma SeenGrows(c: Config, s: State, a: Action, p: PairId)
    requires |s.brokers| == c.nodes && p in s.flows
    ensures p in Apply(c, s, a).flows && s.flows[p].seen <= Apply(c, s, a).flows[p].seen
  {
    hide Lit, Add;
  }

  lemma NoMorePilots(c: Config, s: State, a: Action, p: PairId)
    requires |s.brokers| == c.nodes && p in s.flows && Lit(s.flows[p])
    ensures p in Apply(c, s, a).flows && Apply(c, s, a).flows[p].pilots == s.flows[p].pilots
  {
    hide Lit, Add;
    if a.SendPilot? || a.SendEnd? || a.SendBurst? {
      hide Advance, Environment;
    } else if a.PilotsDone? || a.EndsSeen? || a.BurstSent? || a.BurstSeen? || a.Scrape? || a.GiveUp? {
      hide Publish, Environment;
    } else {
      hide Publish, Advance;
    }
  }

  /** A pair that has answered stays so, and is sent no further pilot. */
  lemma LitStays(c: Config, s: State, a: Action, p: PairId)
    requires |s.brokers| == c.nodes && p in s.flows && Lit(s.flows[p])
    ensures var t := Apply(c, s, a);
            p in t.flows && Lit(t.flows[p]) && t.flows[p].pilots == s.flows[p].pilots
  {
    hide Apply;
    SeenGrows(c, s, a, p);
    NoMorePilots(c, s, a, p);
    var f, g := s.flows[p], Apply(c, s, a).flows[p];
    var k :| 0 <= k < |f.seen| && (f.seen[k].Pilot? || f.seen[k].PilotEnd?);
    assert g.seen[k] == f.seen[k];
  }

  lemma SamePairs(c: Config, s: State, a: Action)
    requires |s.brokers| == c.nodes
    ensures Apply(c, s, a).flows.Keys == s.flows.Keys
  {
  }

  lemma LitStep(c: Config, s: State, a: Action)
    requires |s.brokers| == c.nodes && (PastPilots(s.phase) ==> AllLit(s))
    ensures var t := Apply(c, s, a); PastPilots(t.phase) ==> AllLit(t)
  {
    var t := Apply(c, s, a);
    if PastPilots(t.phase) {
      assert AllLit(s) by { hide Lit; }
      SamePairs(c, s, a);
      hide Apply, Lit;
      forall p | p in t.flows ensures Lit(t.flows[p]) { LitStays(c, s, a, p); }
    }
  }

  /** In every run, no pair goes past the pilots without having delivered one. */
  lemma {:induction false} RunLit(c: Config, s: State, actions: seq<Action>)
    requires Init(c, s)
    ensures var t := Run(c, s, actions); PastPilots(t.phase) ==> AllLit(t)
  {
    hide Apply, Lit;
    if actions != [] {
      RunLit(c, s, actions[..|actions| - 1]);
      LitStep(c, Run(c, s, actions[..|actions| - 1]), actions[|actions| - 1]);
    }
  }

  // ---------------------------------------------------------------------------
  // How a run ends
  // ---------------------------------------------------------------------------

  /** A run that is complete or has failed stays so, whatever happens after; giving up fails any other. */
  lemma EndsStay(c: Config, s: State, a: Action)
    requires |s.brokers| == c.nodes
    ensures s.phase.Complete? || s.phase.Failed? ==> Apply(c, s, a).phase == s.phase
    ensures !s.phase.Complete? ==> Apply(c, s, GiveUp).phase == Failed
  {
    hide Lit, Add, Receive, Forward, Deliver, Redeliver, LoseAtHub, LoseOnLink, LoseOnSocket, Read;
  }

  lemma ScrapesKept(c: Config, s: State, a: Action)
    requires |s.brokers| == c.nodes && s.phase.Complete?
    ensures Apply(c, s, a).pre == s.pre && Apply(c, s, a).post == s.post
  {
    hide Lit, Add, Receive, Forward, Deliver, Redeliver, LoseAtHub, LoseOnLink, LoseOnSocket, Read;
  }

  /** So the scrapes of a complete run are never touched again. */
  lemma {:induction false} CompleteStays(c: Config, s: State, actions: seq<Action>)
    requires |s.brokers| == c.nodes && s.phase.Complete?
    ensures var t := Run(c, s, actions); t.phase.Complete? && t.pre == s.pre && t.post == s.post
  {
    if actions != [] {
      var n := |actions| - 1;
      CompleteStays(c, s, actions[..n]);
      ScrapesKept(c, Run(c, s, actions[..n]), actions[n]);
      EndsStay(c, Run(c, s, actions[..n]), actions[n]);
      hide Apply;
    }
  }

  /** A message the broker has delivered may reach the member again exactly from QoS 1 on: there the copy is
      on its way and counted, at QoS 0 nothing happens. */
  lemma DeliveredAgain(c: Config, s: State, p: PairId, k: nat)
    requires Invariant(c, s) && p in s.flows && k < |s.flows[p].delivered|
    ensures |s.brokers| == c.nodes && p.1 < c.nodes
    ensures var t := Apply(c, s, HandAgain(p, k));
            if c.qos == 0 then t == s
            else
              && t.flows[p].socket == s.flows[p].socket + [s.flows[p].delivered[k]]
              && t.flows[p].delivered == s.flows[p].delivered && t.flows[p].seen == s.flows[p].seen
              && t.brokers[p.1].delivered == s.brokers[p.1].delivered + 1
  {
    hide Invariant;
    FlowHolds(c, s, p);
  }
}
