/** The forwarding control as a step system (bench/scale/forward-canary.py): the driver's phases and
    scrapes, and the brokers' receiving, forwarding, delivering, losing and redelivering, in any
    interleaving. */
module CanaryProtocol {
  import opened CanaryFlow

  datatype Config = Config(nodes: nat, count: nat, qos: nat)

  type PairId = (nat, nat)

  /** With one broker the pair is the broker itself; otherwise every two different brokers. */
  predicate IsPair(c: Config, p: PairId) {
    p.0 < c.nodes && p.1 < c.nodes && (c.nodes == 1 || p.0 != p.1)
  }

  /** A broker's counters as a scrape reads them, and its peer link gauge. */
  datatype Counters = Counters(received: nat, forwarded: nat, delivered: nat, dropped: nat, links: nat)

  datatype Phase = Piloting | Ending | PreScrape | Bursting | Awaiting | PostScrape | Complete | Failed

  datatype State = State(
    phase: Phase, flows: map<PairId, Flow>, brokers: seq<Counters>, pre: seq<Counters>, post: seq<Counters>)

  /** Driver: publish, move on when every pair has answered, scrape the next broker, give up.
      Brokers and network: everything else. */
  datatype Action =
    | SendPilot(p: PairId) | PilotsDone | SendEnd(p: PairId) | EndsSeen
    | SendBurst(p: PairId) | BurstSent | BurstSeen | Scrape | GiveUp
    | AtBroker(p: PairId) | Route(p: PairId) | Unrouted(p: PairId, counted: bool)
    | LinkLoss(p: PairId, counted: bool) | Hand(p: PairId) | HandAgain(p: PairId, k: nat)
    | SocketLoss(p: PairId, k: nat) | Member(p: PairId, k: nat)
    | LinksChange(b: nat, links: nat)

  ghost predicate Init(c: Config, s: State) {
    && s.phase == Piloting && s.pre == [] && s.post == [] && |s.brokers| == c.nodes
    && (forall p :: p in s.flows <==> IsPair(c, p))
    && (forall p :: p in s.flows ==> s.flows[p] == Quiet)
  }

  predicate Lit(f: Flow) {
    exists k :: 0 <= k < |f.seen| && (f.seen[k].Pilot? || f.seen[k].PilotEnd?)
  }

  function Put(s: State, p: PairId, g: Flow): (r: State) {
    s.(flows := s.flows[p := g])
  }

  function PutCounting(s: State, p: PairId, g: Flow, b: nat, k: Counters): (r: State)
    requires b < |s.brokers|
  {
    s.(flows := s.flows[p := g], brokers := s.brokers[b := k])
  }

  /** The driver's publish steps; one that is not due changes nothing. */
  function Publish(c: Config, s: State, a: Action): (r: State) {
    match a
    case SendPilot(p) =>
      if s.phase.Piloting? && p in s.flows && !Lit(s.flows[p]) then Put(s, p, PublishPilot(s.flows[p])) else s
    case SendEnd(p) =>
      if s.phase.Ending? && p in s.flows && !s.flows[p].ended then Put(s, p, PublishEnd(s.flows[p])) else s
    case SendBurst(p) =>
      if s.phase.Bursting? && p in s.flows && s.flows[p].sent < c.count then Put(s, p, PublishBurst(s.flows[p])) else s
    case _ => s
  }

  /** The driver's phase changes and scrapes. */
  function Advance(c: Config, s: State, a: Action): (r: State)
    requires |s.brokers| == c.nodes
  {
    match a
    case PilotsDone =>
      if s.phase.Piloting? && (forall p :: p in s.flows ==> Lit(s.flows[p])) then s.(phase := Ending) else s
    case EndsSeen =>
      if s.phase.Ending? && (forall p :: p in s.flows ==> s.flows[p].ended && PilotEnd in s.flows[p].seen)
      then s.(phase := PreScrape) else s
    case BurstSent =>
      if s.phase.Bursting? && (forall p :: p in s.flows ==> s.flows[p].sent == c.count)
      then s.(phase := Awaiting) else s
    case BurstSeen =>
      if s.phase.Awaiting? && c.count > 0 && (forall p :: p in s.flows ==> Burst(c.count - 1) in s.flows[p].seen)
      then s.(phase := PostScrape) else s
    case Scrape =>
      if s.phase.PreScrape? && |s.pre| < c.nodes then
        s.(pre := s.pre + [s.brokers[|s.pre|]], phase := if |s.pre| + 1 == c.nodes then Bursting else PreScrape)
      else if s.phase.PostScrape? && |s.post| < c.nodes then
        s.(post := s.post + [s.brokers[|s.post|]], phase := if |s.post| + 1 == c.nodes then Complete else PostScrape)
      else s
    case GiveUp => if s.phase.Complete? then s else s.(phase := Failed)
    case _ => s
  }

  function Add(k: Counters, received: nat, forwarded: nat, delivered: nat, dropped: nat): (r: Counters) {
    Counters(k.received + received, k.forwarded + forwarded, k.delivered + delivered, k.dropped + dropped, k.links)
  }

  /** The brokers and the network. */
  function Environment(c: Config, s: State, a: Action): (r: State)
    requires |s.brokers| == c.nodes
  {
    match a
    case AtBroker(p) =>
      if p in s.flows && p.0 < c.nodes && s.flows[p].inbox != []
      then PutCounting(s, p, Receive(s.flows[p]), p.0, Add(s.brokers[p.0], 1, 0, 0, 0)) else s
    case Route(p) =>
      if p in s.flows && p.0 < c.nodes && s.flows[p].hub != []
      then PutCounting(s, p, Forward(s.flows[p]), p.0, Add(s.brokers[p.0], 0, if p.0 == p.1 then 0 else 1, 0, 0)) else s
    case Unrouted(p, counted) =>
      if p in s.flows && p.0 < c.nodes && s.flows[p].hub != []
      then PutCounting(s, p, LoseAtHub(s.flows[p]), p.0, Add(s.brokers[p.0], 0, 0, 0, if counted then 1 else 0)) else s
    case LinkLoss(p, counted) =>
      if p in s.flows && p.1 < c.nodes && s.flows[p].link != []
      then PutCounting(s, p, LoseOnLink(s.flows[p]), p.1, Add(s.brokers[p.1], 0, 0, 0, if counted then 1 else 0)) else s
    case Hand(p) =>
      if p in s.flows && p.1 < c.nodes && s.flows[p].link != []
      then PutCounting(s, p, Deliver(s.flows[p]), p.1, Add(s.brokers[p.1], 0, 0, 1, 0)) else s
    case HandAgain(p, k) =>
      if p in s.flows && p.1 < c.nodes && c.qos >= 1 && k < |s.flows[p].delivered|
      then PutCounting(s, p, Redeliver(s.flows[p], k), p.1, Add(s.brokers[p.1], 0, 0, 1, 0)) else s
    case SocketLoss(p, k) =>
      if p in s.flows && k < |s.flows[p].socket| then Put(s, p, LoseOnSocket(s.flows[p], k)) else s
    case Member(p, k) =>
      if p in s.flows && k < |s.flows[p].socket| then Put(s, p, Read(s.flows[p], k)) else s
    case LinksChange(b, n) =>
      if b < c.nodes then s.(brokers := s.brokers[b := s.brokers[b].(links := n)]) else s
    case _ => s
  }

  function Apply(c: Config, s: State, a: Action): (r: State)
    requires |s.brokers| == c.nodes
    ensures |r.brokers| == c.nodes
  {
    if a.SendPilot? || a.SendEnd? || a.SendBurst? then Publish(c, s, a)
    else if a.PilotsDone? || a.EndsSeen? || a.BurstSent? || a.BurstSeen? || a.Scrape? || a.GiveUp? then Advance(c, s, a)
    else Environment(c, s, a)
  }

  /** A run: any sequence of actions whatever. */
  function Run(c: Config, s: State, actions: seq<Action>): (r: State)
    requires |s.brokers| == c.nodes
    ensures |r.brokers| == c.nodes
  {
    if actions == [] then s else Apply(c, Run(c, s, actions[..|actions| - 1]), actions[|actions| - 1])
  }

  // ---------------------------------------------------------------------------
  // Sums over a broker's pairs
  // ---------------------------------------------------------------------------

  datatype Tally = ReceivedBurst | ForwardedBurst | DeliveredBurst

  function TallyOf(t: Tally, f: Flow): (n: nat) {
    match t
    case ReceivedBurst => f.received
    case ForwardedBurst => f.forwarded
    case DeliveredBurst => Bursts(f.delivered)
  }

  /** The pair of `b` and `k`: published at `b` when `outgoing`, subscribed at `b` otherwise. */
  function Key(b: nat, k: nat, outgoing: bool): (p: PairId) {
    if outgoing then (b, k) else (k, b)
  }

  function Sum(flows: map<PairId, Flow>, b: nat, n: nat, outgoing: bool, t: Tally): (r: nat) {
    if n == 0 then 0
    else
      var p := Key(b, n - 1, outgoing);
      Sum(flows, b, n - 1, outgoing, t) + if p in flows then TallyOf(t, flows[p]) else 0
  }

  lemma {:induction false} SumUpdate(
    flows: map<PairId, Flow>, p: PairId, g: Flow, b: nat, n: nat, outgoing: bool, t: Tally)
    requires p in flows
    ensures Sum(flows[p := g], b, n, outgoing, t) - Sum(flows, b, n, outgoing, t) ==
            if (if outgoing then p.0 == b && p.1 < n else p.1 == b && p.0 < n)
            then TallyOf(t, g) - TallyOf(t, flows[p]) else 0
  {
    hide TallyOf;
    if n > 0 { SumUpdate(flows, p, g, b, n - 1, outgoing, t); }
  }

  /** How many of the first `n` brokers form a pair with `b`. */
  function Peers(c: Config, b: nat, n: nat): (r: nat) {
    if n == 0 then 0 else Peers(c, b, n - 1) + if IsPair(c, (b, n - 1)) then 1 else 0
  }

  lemma {:induction false} PeersBelow(c: Config, b: nat, n: nat)
    requires b < c.nodes && n <= c.nodes
    ensures Peers(c, b, n) == if c.nodes == 1 then n else if n > b then n - 1 else n
  {
    if n > 0 { PeersBelow(c, b, n - 1); }
  }

  lemma OneMore(k: nat, v: nat)
    ensures (k + 1) * v == k * v + v
  {
  }

  /** `v` per pair, over the pairs of one broker. */
  lemma {:induction false} SumConstant(
    c: Config, flows: map<PairId, Flow>, b: nat, n: nat, outgoing: bool, t: Tally, v: nat)
    requires b < c.nodes && n <= c.nodes
    requires forall p :: p in flows <==> IsPair(c, p)
    requires forall p :: p in flows ==> TallyOf(t, flows[p]) == v
    ensures Sum(flows, b, n, outgoing, t) == Peers(c, b, n) * v
  {
    hide TallyOf;
    if n > 0 {
      SumConstant(c, flows, b, n - 1, outgoing, t, v);
      var p := Key(b, n - 1, outgoing);
      assert p in flows <==> IsPair(c, (b, n - 1));
      OneMore(Peers(c, b, n - 1), v);
    }
  }
}
