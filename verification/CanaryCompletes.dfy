/** A forwarding control can pass (bench/scale/forward-canary.py): for every number of brokers and every
    burst there is a run, losing nothing, that goes through all the phases and satisfies the ledger. */
module CanaryCompletes {
  import opened CanaryFlow
  import opened CanaryProtocol
  import opened CanaryLedger

  lemma {:induction false} RunConcat(c: Config, s: State, a: seq<Action>, b: seq<Action>)
    requires |s.brokers| == c.nodes
    ensures Run(c, s, a + b) == Run(c, Run(c, s, a), b)
  {
    if b == [] {
      assert a + b == a;
    } else {
      RunConcat(c, s, a, b[..|b| - 1]);
      assert (a + b)[..|a + b| - 1] == a + b[..|b| - 1];
      hide Apply;
    }
  }

  lemma RunOne(c: Config, s: State, a: Action)
    requires |s.brokers| == c.nodes
    ensures Run(c, s, [a]) == Apply(c, s, a)
  {
    assert [a][..0] == [];
    assert Run(c, s, []) == s;
    hide Apply;
  }

  /** Nothing of the pair is on its way. */
  predicate Idle(f: Flow) {
    f.inbox == [] && f.hub == [] && f.link == [] && f.socket == []
  }

  // ---------------------------------------------------------------------------
  // One message all the way
  // ---------------------------------------------------------------------------

  datatype Round = Pilots | Ends | Bursts(number: nat)

  function Send(w: Round, p: PairId): (a: Action) {
    match w
    case Pilots => SendPilot(p)
    case Ends => SendEnd(p)
    case Bursts(_) => SendBurst(p)
  }

  function PhaseOf(w: Round): (r: Phase) {
    match w
    case Pilots => Piloting
    case Ends => Ending
    case Bursts(_) => Bursting
  }

  /** The pair before its message of the round. */
  ghost predicate Waiting(c: Config, w: Round, f: Flow) {
    && Idle(f)
    && match w
       case Pilots => f.seen == [] && !f.ended && f.sent == 0
       case Ends => !f.ended && f.sent == 0
       case Bursts(n) => n < c.count && f.sent == n && AllSeen(f)
  }

  /** And after it. */
  ghost predicate Served(c: Config, w: Round, f: Flow) {
    && Idle(f)
    && match w
       case Pilots => Lit(f) && !f.ended && f.sent == 0
       case Ends => f.ended && PilotEnd in f.seen && f.sent == 0
       case Bursts(n) => n < c.count && f.sent == n + 1 && AllSeen(f)
  }

  function Published(w: Round, f: Flow): (r: Flow) {
    match w
    case Pilots => PublishPilot(f)
    case Ends => PublishEnd(f)
    case Bursts(_) => PublishBurst(f)
  }

  /** Published, received, forwarded, delivered and read. */
  function Through(w: Round, f: Flow): (r: Flow)
    requires Idle(f)
  {
    Read(Deliver(Forward(Receive(Published(w, f)))), 0)
  }

  lemma ThroughServes(c: Config, w: Round, f: Flow)
    requires Waiting(c, w, f)
    ensures Served(c, w, Through(w, f))
  {
    var g := Through(w, f);
    var m := match w case Pilots => Pilot(f.pilots) case Ends => PilotEnd case Bursts(n) => Burst(n);
    assert g.seen == f.seen + [m];
    assert g.seen[|f.seen|] == m;
    if w.Bursts? {
      forall n | 0 <= n < g.sent ensures Burst(n) in g.seen {
        if n < f.sent { assert Burst(n) in f.seen; }
      }
    }
  }

  /** Everything but one pair and the counters is as it was, the links included. */
  ghost predicate Only(s: State, t: State, p: PairId, g: Flow) {
    && p in s.flows && t.phase == s.phase && t.pre == s.pre && t.post == s.post && t.flows == s.flows[p := g]
    && |t.brokers| == |s.brokers| && forall b :: 0 <= b < |s.brokers| ==> t.brokers[b].links == s.brokers[b].links
  }

  lemma OnlyChain(s: State, t: State, u: State, p: PairId, g: Flow, h: Flow)
    requires Only(s, t, p, g) && Only(t, u, p, h)
    ensures Only(s, u, p, h)
  {
    assert s.flows[p := g][p := h] == s.flows[p := h];
  }

  lemma PublishStep(c: Config, s: State, w: Round, p: PairId)
    requires |s.brokers| == c.nodes && p in s.flows && s.phase == PhaseOf(w) && Waiting(c, w, s.flows[p])
    ensures Only(s, Apply(c, s, Send(w, p)), p, Published(w, s.flows[p]))
  {
  }

  lemma ReceiveStep(c: Config, s: State, p: PairId)
    requires |s.brokers| == c.nodes && p in s.flows && p.0 < c.nodes && s.flows[p].inbox != []
    ensures Only(s, Apply(c, s, AtBroker(p)), p, Receive(s.flows[p]))
  {
    hide Receive;
  }

  lemma ForwardStep(c: Config, s: State, p: PairId)
    requires |s.brokers| == c.nodes && p in s.flows && p.0 < c.nodes && s.flows[p].hub != []
    ensures Only(s, Apply(c, s, Route(p)), p, Forward(s.flows[p]))
  {
    hide Forward;
  }

  lemma DeliverStep(c: Config, s: State, p: PairId)
    requires |s.brokers| == c.nodes && p in s.flows && p.1 < c.nodes && s.flows[p].link != []
    ensures Only(s, Apply(c, s, Hand(p)), p, Deliver(s.flows[p]))
  {
    hide Deliver;
  }

  lemma ReadStep(c: Config, s: State, p: PairId)
    requires |s.brokers| == c.nodes && p in s.flows && s.flows[p].socket != []
    ensures Only(s, Apply(c, s, Member(p, 0)), p, Read(s.flows[p], 0))
  {
    hide Read;
  }

  lemma OneMoreStep(c: Config, s: State, actions: seq<Action>, a: Action, p: PairId, g: Flow, h: Flow)
    requires |s.brokers| == c.nodes
    requires Only(s, Run(c, s, actions), p, g) && Only(Run(c, s, actions), Apply(c, Run(c, s, actions), a), p, h)
    ensures Only(s, Run(c, s, actions + [a]), p, h)
  {
    RunConcat(c, s, actions, [a]);
    RunOne(c, Run(c, s, actions), a);
    OnlyChain(s, Run(c, s, actions), Apply(c, Run(c, s, actions), a), p, g, h);
  }

  /** The pair's message passes every stage, one step each. */
  lemma MessageThrough(c: Config, s: State, w: Round, p: PairId) returns (actions: seq<Action>)
    requires |s.brokers| == c.nodes && p in s.flows && p.0 < c.nodes && p.1 < c.nodes
    requires s.phase == PhaseOf(w) && Waiting(c, w, s.flows[p])
    ensures Only(s, Run(c, s, actions), p, Through(w, s.flows[p]))
  {
    var f := s.flows[p];
    var f1 := Published(w, f);
    assert f1.inbox != [];
    var f2 := Receive(f1);
    var f3 := Forward(f2);
    var f4 := Deliver(f3);
    PublishStep(c, s, w, p);
    RunOne(c, s, Send(w, p));
    hide Apply, Run, Waiting;
    actions := [Send(w, p)];
    ReceiveStep(c, Run(c, s, actions), p);
    OneMoreStep(c, s, actions, AtBroker(p), p, f1, f2);
    actions := actions + [AtBroker(p)];
    ForwardStep(c, Run(c, s, actions), p);
    OneMoreStep(c, s, actions, Route(p), p, f2, f3);
    actions := actions + [Route(p)];
    DeliverStep(c, Run(c, s, actions), p);
    OneMoreStep(c, s, actions, Hand(p), p, f3, f4);
    actions := actions + [Hand(p)];
    ReadStep(c, Run(c, s, actions), p);
    OneMoreStep(c, s, actions, Member(p, 0), p, f4, Read(f4, 0));
    actions := actions + [Member(p, 0)];
  }

  // ---------------------------------------------------------------------------
  // One message on every pair
  // ---------------------------------------------------------------------------

  ghost predicate Reaches(c: Config, s: State, t: State) {
    |s.brokers| == c.nodes && exists actions :: Run(c, s, actions) == t
  }

  lemma ReachesOn(c: Config, s: State, t: State, u: State)
    requires Reaches(c, s, t) && Reaches(c, t, u)
    ensures Reaches(c, s, u)
  {
    var a :| Run(c, s, a) == t;
    var b :| Run(c, t, b) == u;
    RunConcat(c, s, a, b);
  }

  lemma ReachesStep(c: Config, s: State, a: Action)
    requires |s.brokers| == c.nodes
    ensures Reaches(c, s, Apply(c, s, a))
  {
    RunOne(c, s, a);
  }

  /** The pairs are those of the size, and every broker sees every other. */
  ghost predicate Well(c: Config, s: State) {
    && |s.brokers| == c.nodes && (forall p :: p in s.flows <==> IsPair(c, p))
    && (forall b :: 0 <= b < c.nodes ==> s.brokers[b].links == c.nodes - 1)
  }

  ghost predicate AllWaiting(c: Config, w: Round, s: State) {
    Well(c, s) && s.phase == PhaseOf(w) && forall p :: p in s.flows ==> Waiting(c, w, s.flows[p])
  }

  ghost predicate AllServed(c: Config, w: Round, s: State) {
    Well(c, s) && s.phase == PhaseOf(w) && forall p :: p in s.flows ==> Served(c, w, s.flows[p])
  }

  /** The pairs before `k` have had their message, the others not yet. */
  ghost predicate Midway(c: Config, w: Round, s: State, ps: seq<PairId>, k: nat) {
    && Well(c, s) && s.phase == PhaseOf(w)
    && (forall i :: 0 <= i < |ps| ==> ps[i] in s.flows)
    && (forall i :: 0 <= i < k && i < |ps| ==> Served(c, w, s.flows[ps[i]]))
    && (forall i :: k <= i < |ps| ==> Waiting(c, w, s.flows[ps[i]]))
  }

  ghost predicate SameScrapes(s: State, t: State) {
    t.pre == s.pre && t.post == s.post
  }

  lemma PairServed(c: Config, w: Round, s: State, t: State, ps: seq<PairId>, k: nat, g: Flow)
    requires k < |ps| && Midway(c, w, s, ps, k) && NoRepeats(ps) && Only(s, t, ps[k], g) && Served(c, w, g)
    ensures Midway(c, w, t, ps, k + 1)
  {
    hide Waiting, Served, IsPair;
    forall i | 0 <= i < |ps| && i != k ensures ps[i] in t.flows && t.flows[ps[i]] == s.flows[ps[i]] {
      assert ps[i] != ps[k];
    }
  }

  lemma NextPair(c: Config, w: Round, s: State, ps: seq<PairId>, k: nat) returns (t: State)
    requires k < |ps| && Midway(c, w, s, ps, k) && NoRepeats(ps)
    ensures Reaches(c, s, t) && Midway(c, w, t, ps, k + 1) && SameScrapes(s, t)
  {
    var p := ps[k];
    assert IsPair(c, p) && Waiting(c, w, s.flows[p]);
    hide Midway, NoRepeats;
    var actions := MessageThrough(c, s, w, p);
    t := Run(c, s, actions);
    ThroughServes(c, w, s.flows[p]);
    hide Waiting, Served, Through, Run;
    PairServed(c, w, s, t, ps, k, Through(w, s.flows[p]));
  }

  lemma {:induction false} RestOfPairs(c: Config, w: Round, s: State, ps: seq<PairId>, k: nat) returns (t: State)
    requires k <= |ps| && Midway(c, w, s, ps, k) && NoRepeats(ps)
    ensures Reaches(c, s, t) && Midway(c, w, t, ps, |ps|) && SameScrapes(s, t)
    decreases |ps| - k
  {
    if k == |ps| {
      t := s;
      assert Run(c, s, []) == s;
    } else {
      var u := NextPair(c, w, s, ps, k);
      hide Midway, Reaches;
      t := RestOfPairs(c, w, u, ps, k + 1);
      ReachesOn(c, s, u, t);
    }
  }

  lemma NoneServed(c: Config, w: Round, s: State, ps: seq<PairId>)
    requires AllWaiting(c, w, s) && forall p: PairId :: p in ps <==> IsPair(c, p)
    ensures Midway(c, w, s, ps, 0)
  {
    hide Waiting, Served, IsPair;
    forall i | 0 <= i < |ps| ensures ps[i] in s.flows { assert ps[i] in ps; }
  }

  lemma EveryoneServed(c: Config, w: Round, t: State, ps: seq<PairId>)
    requires Midway(c, w, t, ps, |ps|) && forall p: PairId :: p in ps <==> IsPair(c, p)
    ensures AllServed(c, w, t)
  {
    hide Waiting, Served, IsPair;
    forall p | p in t.flows ensures Served(c, w, t.flows[p]) {
      assert p in ps;
      var i :| 0 <= i < |ps| && ps[i] == p;
    }
  }

  lemma WholeRound(c: Config, w: Round, s: State) returns (t: State)
    requires AllWaiting(c, w, s)
    ensures Reaches(c, s, t) && AllServed(c, w, t) && SameScrapes(s, t)
  {
    var ps := WantPairs(c.nodes);
    PairsToDistinct(c.nodes, c.nodes);
    forall p: PairId ensures p in ps <==> IsPair(c, p) { WantPairsAre(c, p); }
    hide WantPairs, Reaches, NoRepeats;
    NoneServed(c, w, s, ps);
    hide AllWaiting, Midway;
    t := RestOfPairs(c, w, s, ps, 0);
    EveryoneServed(c, w, t, ps);
  }

  // ---------------------------------------------------------------------------
  // The whole control
  // ---------------------------------------------------------------------------

  lemma {:induction false} WholeBurst(c: Config, n: nat, s: State) returns (t: State)
    requires n < c.count && AllWaiting(c, Bursts(n), s)
    ensures Reaches(c, s, t) && AllServed(c, Bursts(c.count - 1), t) && SameScrapes(s, t)
    decreases c.count - n
  {
    var u := WholeRound(c, Bursts(n), s);
    if n + 1 == c.count {
      t := u;
    } else {
      assert AllWaiting(c, Bursts(n + 1), u) by { hide Reaches, AllSeen; }
      hide Reaches, AllWaiting, AllServed;
      t := WholeBurst(c, n + 1, u);
      ReachesOn(c, s, u, t);
    }
  }

  ghost predicate LinksIn(c: Config, scrapes: seq<Counters>) {
    forall b :: 0 <= b < |scrapes| ==> scrapes[b].links == c.nodes - 1
  }

  /** Scraping the brokers left, before the burst or after it, ends the scrape and leaves the pairs alone. */
  lemma {:induction false} WholeScrape(c: Config, s: State) returns (t: State)
    requires Well(c, s) && LinksIn(c, s.pre) && LinksIn(c, s.post) && |s.pre| <= c.nodes && |s.post| <= c.nodes
    requires (s.phase == PreScrape && |s.pre| < c.nodes) || (s.phase == PostScrape && |s.post| < c.nodes)
    ensures Reaches(c, s, t) && Well(c, t) && t.flows == s.flows && LinksIn(c, t.pre) && LinksIn(c, t.post)
    ensures s.phase == PreScrape ==> t.phase == Bursting && |t.pre| == c.nodes && t.post == s.post
    ensures s.phase == PostScrape ==> t.phase == Complete && |t.post| == c.nodes && t.pre == s.pre
    decreases 2 * c.nodes - |s.pre| - |s.post|
  {
    var u := Apply(c, s, Scrape);
    ReachesStep(c, s, Scrape);
    assert u == Advance(c, s, Scrape);
    if u.phase == s.phase {
      hide Reaches;
      t := WholeScrape(c, u);
      ReachesOn(c, s, u, t);
    } else {
      t := u;
    }
  }

  lemma Advances(c: Config, s: State, a: Action, phase: Phase)
    requires Well(c, s) && Advance(c, s, a) == s.(phase := phase)
    requires a.PilotsDone? || a.EndsSeen? || a.BurstSent? || a.BurstSeen?
    ensures Reaches(c, s, s.(phase := phase)) && Well(c, s.(phase := phase))
  {
    ReachesStep(c, s, a);
  }

  lemma PilotsAndEnds(c: Config, s: State) returns (t: State)
    requires AllWaiting(c, Pilots, s)
    ensures Reaches(c, s, t) && AllServed(c, Ends, t) && SameScrapes(s, t)
  {
    var u := WholeRound(c, Pilots, s);
    Advances(c, u, PilotsDone, Ending);
    var v := u.(phase := Ending);
    assert AllWaiting(c, Ends, v) by { hide Reaches, Lit; }
    hide Reaches, AllWaiting, AllServed;
    t := WholeRound(c, Ends, v);
    ReachesOn(c, s, u, v);
    ReachesOn(c, s, v, t);
  }

  lemma ScrapeAndBurst(c: Config, s: State) returns (t: State)
    requires AllServed(c, Ends, s) && s.pre == [] && s.post == [] && c.nodes >= 1 && c.count >= 1
    ensures Reaches(c, s, t) && AllServed(c, Bursts(c.count - 1), t)
    ensures LinksIn(c, t.pre) && |t.pre| == c.nodes && t.post == []
  {
    Advances(c, s, EndsSeen, PreScrape);
    var u := s.(phase := PreScrape);
    var v := WholeScrape(c, u);
    assert AllWaiting(c, Bursts(0), v) by { hide Reaches; }
    hide Reaches, AllWaiting, AllServed;
    t := WholeBurst(c, 0, v);
    ReachesOn(c, s, u, v);
    ReachesOn(c, s, v, t);
  }

  lemma Finish(c: Config, s: State) returns (t: State)
    requires c.nodes >= 1 && c.count >= 1 && AllServed(c, Bursts(c.count - 1), s)
    requires LinksIn(c, s.pre) && |s.pre| == c.nodes && s.post == []
    ensures Reaches(c, s, t) && t.phase == Complete && EveryoneSaw(t) && MeshWhole(c, t)
  {
    Advances(c, s, BurstSent, Awaiting);
    var u := s.(phase := Awaiting);
    forall p | p in u.flows ensures Burst(c.count - 1) in u.flows[p].seen {
      assert AllSeen(s.flows[p]);
    }
    Advances(c, u, BurstSeen, PostScrape);
    var v := u.(phase := PostScrape);
    ReachesOn(c, s, u, v);
    t := WholeScrape(c, v);
    ReachesOn(c, s, v, t);
    assert EveryoneSaw(t) by { hide Reaches, AllSeen; }
  }

  /** For every number of brokers and every burst, from every quiet start with the mesh whole, there is a
      run on whose evidence the ledger passes. */
  lemma CanPass(c: Config, s0: State) returns (actions: seq<Action>)
    requires Init(c, s0) && c.nodes >= 1 && c.count >= 1
    requires forall b :: 0 <= b < c.nodes ==> s0.brokers[b].links == c.nodes - 1
    ensures Passes(EvidenceOf(c, Run(c, s0, actions)), c.nodes, c.count)
  {
    assert AllWaiting(c, Pilots, s0);
    var u := PilotsAndEnds(c, s0);
    var v := ScrapeAndBurst(c, u);
    var t := Finish(c, v);
    ReachesOn(c, s0, u, v);
    ReachesOn(c, s0, v, t);
    actions :| Run(c, s0, actions) == t;
    hide Passes, EvidenceOf, Run, Init;
    LedgerMeans(c, s0, actions);
  }
}
