/** The budget tree (bench/scale/budgets.py): what a run of nested, repeated, sequential and parallel
    phases may take, and what it means that `check` reports nothing. */
module Budgets {
  import opened Results

  datatype Kind = Budget | Tolerance
  datatype Mode = InSequence | InParallel

  /** One phase: its declared ceiling, if any, and the phases it consists of. */
  datatype Node = Node(budget: Option<real>, kind: Kind, mode: Mode, repeat: nat, children: seq<Node>)

  // ---------------------------------------------------------------------------
  // Sums and peaks
  // ---------------------------------------------------------------------------

  function Sum(s: seq<real>): (r: real) {
    if s == [] then 0.0 else Sum(s[..|s| - 1]) + s[|s| - 1]
  }

  function Larger(a: real, b: real): (r: real) {
    if a < b then b else a
  }

  /** The largest of `s`; zero for none. */
  function Peak(s: seq<real>): (r: real) {
    if s == [] then 0.0 else if |s| == 1 then s[0] else Larger(Peak(s[..|s| - 1]), s[|s| - 1])
  }

  function Combine(mode: Mode, s: seq<real>): (r: real) {
    if mode.InSequence? then Sum(s) else Peak(s)
  }

  lemma {:induction false} PeakIs(s: seq<real>)
    ensures forall k :: 0 <= k < |s| ==> s[k] <= Peak(s)
    ensures if s == [] then Peak(s) == 0.0 else Peak(s) in s
  {
    if |s| > 1 { PeakIs(s[..|s| - 1]); }
  }

  lemma Times(c: real, n: nat)
    ensures c * (n + 1) as real == c * n as real + c
  {
  }

  function Same(c: real, n: nat): (r: seq<real>) {
    seq(n, _ => c)
  }

  lemma {:induction false} SumSame(c: real, n: nat)
    ensures Sum(Same(c, n)) == c * n as real
  {
    if n > 0 {
      SumSame(c, n - 1);
      assert Same(c, n)[..n - 1] == Same(c, n - 1);
      Times(c, n - 1);
    }
  }

  // ---------------------------------------------------------------------------
  // Costs, violations, the walk
  // ---------------------------------------------------------------------------

  function ChildrenCost(n: Node): (r: real)
    decreases n, 0
  {
    Combine(n.mode, seq(|n.children|, k requires 0 <= k < |n.children| => Cost(n.children[k])))
  }

  function OwnCost(n: Node): (r: real)
    decreases n, 1
  {
    if n.budget.Some? then n.budget.value else ChildrenCost(n)
  }

  function Cost(n: Node): (r: real)
    decreases n, 2
  {
    OwnCost(n) * n.repeat as real
  }

  predicate Violates(n: Node) {
    n.budget.Some? && n.children != [] && ChildrenCost(n) > n.budget.value
  }

  /** The node and everything under it, in preorder. */
  function Walk(n: Node): (r: seq<Node>)
    decreases n, |n.children| + 1
  {
    [n] + WalkChildren(n, |n.children|)
  }

  function WalkChildren(n: Node, k: nat): (r: seq<Node>)
    requires k <= |n.children|
    decreases n, k
  {
    if k == 0 then [] else WalkChildren(n, k - 1) + Walk(n.children[k - 1])
  }

  function Reported(nodes: seq<Node>, kind: Kind): (r: seq<Node>) {
    if nodes == [] then []
    else
      var last := nodes[|nodes| - 1];
      Reported(nodes[..|nodes| - 1], kind) + if last.kind == kind && Violates(last) then [last] else []
  }

  function Check(root: Node, kind: Kind): (r: seq<Node>) {
    Reported(Walk(root), kind)
  }

  lemma {:induction false} ReportedMembers(nodes: seq<Node>, kind: Kind, m: Node)
    ensures m in Reported(nodes, kind) <==> m in nodes && m.kind == kind && Violates(m)
  {
    hide Violates;
    if nodes != [] { ReportedMembers(nodes[..|nodes| - 1], kind, m); }
  }

  lemma ReportedIff(nodes: seq<Node>, kind: Kind)
    ensures Reported(nodes, kind) == [] <==>
            forall k :: 0 <= k < |nodes| ==> !(nodes[k].kind == kind && Violates(nodes[k]))
  {
    hide Reported, Violates;
    var r := Reported(nodes, kind);
    if r != [] { ReportedMembers(nodes, kind, r[0]); }
    forall k | 0 <= k < |nodes| ensures nodes[k] in r <==> nodes[k].kind == kind && Violates(nodes[k]) {
      ReportedMembers(nodes, kind, nodes[k]);
    }
  }

  /** No node of the tree violates its budget. */
  ghost predicate Clean(n: Node)
    decreases n
  {
    !Violates(n) && forall k :: 0 <= k < |n.children| ==> Clean(n.children[k])
  }

  lemma {:induction false} WalkIff(n: Node)
    ensures Clean(n) <==> forall m :: m in Walk(n) ==> !Violates(m)
    decreases n, |n.children| + 1
  {
    WalkChildrenIff(n, |n.children|);
    assert Walk(n) == [n] + WalkChildren(n, |n.children|);
    assert n in Walk(n);
    hide Violates, Walk, WalkChildren;
    assert forall m :: m in Walk(n) <==> m == n || m in WalkChildren(n, |n.children|);
  }

  lemma {:induction false} WalkChildrenIff(n: Node, k: nat)
    requires k <= |n.children|
    ensures (forall i :: 0 <= i < k ==> Clean(n.children[i])) <==> forall m :: m in WalkChildren(n, k) ==> !Violates(m)
    decreases n, k
  {
    if k > 0 {
      WalkChildrenIff(n, k - 1);
      WalkIff(n.children[k - 1]);
      assert WalkChildren(n, k) == WalkChildren(n, k - 1) + Walk(n.children[k - 1]);
      hide Violates, Walk, WalkChildren, Clean;
    }
  }

  /** `check` reports nothing of either kind exactly when no node violates its budget. */
  lemma CheckIff(root: Node)
    ensures Check(root, Budget) == [] && Check(root, Tolerance) == [] <==> Clean(root)
  {
    var nodes := Walk(root);
    ReportedIff(nodes, Budget);
    ReportedIff(nodes, Tolerance);
    WalkIff(root);
    hide Violates, Walk, Reported;
    forall k | 0 <= k < |nodes| ensures nodes[k].kind == Budget || nodes[k].kind == Tolerance {}
    assert forall m :: m in nodes <==> exists k :: 0 <= k < |nodes| && nodes[k] == m;
  }

  /** `m` is the node or stands somewhere under it. */
  ghost predicate Inside(n: Node, m: Node)
    decreases n
  {
    m == n || exists k :: 0 <= k < |n.children| && Inside(n.children[k], m)
  }

  lemma {:induction false} WalkMembers(n: Node, m: Node)
    ensures m in Walk(n) <==> Inside(n, m)
    decreases n, |n.children| + 1
  {
    WalkChildrenMembers(n, |n.children|, m);
  }

  lemma {:induction false} WalkChildrenMembers(n: Node, k: nat, m: Node)
    requires k <= |n.children|
    ensures m in WalkChildren(n, k) <==> exists i :: 0 <= i < k && Inside(n.children[i], m)
    decreases n, k
  {
    if k > 0 {
      WalkChildrenMembers(n, k - 1, m);
      WalkMembers(n.children[k - 1], m);
      hide Walk, Inside;
    }
  }

  /** `check` reports exactly the nodes of its kind, anywhere in the tree, that violate their budget. */
  lemma CheckMembers(root: Node, kind: Kind, m: Node)
    ensures m in Check(root, kind) <==> Inside(root, m) && m.kind == kind && Violates(m)
  {
    hide Walk, Reported, Violates, Inside;
    ReportedMembers(Walk(root), kind, m);
    WalkMembers(root, m);
  }

  // ---------------------------------------------------------------------------
  // Executions
  // ---------------------------------------------------------------------------

  /** A phase as it happened: when it started and ended, and its repetitions. Of each repetition, when it
      started, when its last part was done, when it ended, and how its parts went. */
  datatype Execution = Execution(start: real, end: real, runs: seq<Run>)
  datatype Run = Run(start: real, worked: real, end: real, parts: seq<Execution>)
  datatype Span = Span(start: real, end: real)

  function RunSpans(runs: seq<Run>): (r: seq<Span>) {
    seq(|runs|, k requires 0 <= k < |runs| => Span(runs[k].start, runs[k].end))
  }

  function PartSpans(parts: seq<Execution>): (r: seq<Span>) {
    seq(|parts|, k requires 0 <= k < |parts| => Span(parts[k].start, parts[k].end))
  }

  /** When the first `k` of them are over. */
  function EndOf(from: real, s: seq<Span>, k: nat): (r: real)
    requires k <= |s|
  {
    if k == 0 then from else s[k - 1].end
  }

  /** From `from`, each starts where the one before it ended, and the last ends at `until`. */
  ghost predicate OneAfterAnother(from: real, s: seq<Span>, until: real) {
    until == EndOf(from, s, |s|) && forall k :: 0 <= k < |s| ==> s[k].start == EndOf(from, s, k)
  }

  /** All start at `from`, and the one that ends last ends at `until`. */
  ghost predicate AtOnce(from: real, s: seq<Span>, until: real) {
    && (forall k :: 0 <= k < |s| ==> s[k].start == from && s[k].end <= until)
    && (if s == [] then until == from else exists k :: 0 <= k < |s| && s[k].end == until)
  }

  ghost predicate Executes(n: Node, e: Execution)
    decreases n, 1
  {
    && |e.runs| == n.repeat && OneAfterAnother(e.start, RunSpans(e.runs), e.end)
    && forall k :: 0 <= k < |e.runs| ==> RunsAs(n, e.runs[k])
  }

  /** One repetition ends with its last part, and a phase with a ceiling may go on waiting up to it. */
  ghost predicate RunsAs(n: Node, r: Run)
    decreases n, 0
  {
    && |r.parts| == |n.children|
    && (forall k :: 0 <= k < |r.parts| ==> Executes(n.children[k], r.parts[k]))
    && PartsTake(n.mode, r)
    && (r.end == r.worked || (n.budget.Some? && r.worked <= r.end <= r.start + n.budget.value))
  }

  ghost predicate PartsTake(mode: Mode, r: Run) {
    match mode
    case InSequence => OneAfterAnother(r.start, PartSpans(r.parts), r.worked)
    case InParallel => AtOnce(r.start, PartSpans(r.parts), r.worked)
  }

  /** No repetition of any phase exceeds its declared ceiling. */
  ghost predicate Within(n: Node, e: Execution)
    decreases n, 1
  {
    forall k :: 0 <= k < |e.runs| ==> RunWithin(n, e.runs[k])
  }

  ghost predicate RunWithin(n: Node, r: Run)
    decreases n, 0
  {
    && (n.budget.Some? ==> r.end - r.start <= n.budget.value)
    && |r.parts| == |n.children|
    && forall k :: 0 <= k < |r.parts| ==> Within(n.children[k], r.parts[k])
  }

  /** Every repetition of every phase takes all it may. */
  ghost predicate Full(n: Node, e: Execution)
    decreases n, 1
  {
    forall k :: 0 <= k < |e.runs| ==> FullRun(n, e.runs[k])
  }

  ghost predicate FullRun(n: Node, r: Run)
    decreases n, 0
  {
    && (n.budget.Some? ==> r.end - r.start >= n.budget.value)
    && |r.parts| == |n.children|
    && forall k :: 0 <= k < |r.parts| ==> Full(n.children[k], r.parts[k])
  }

  /** No node that is run at all declares a negative ceiling. */
  ghost predicate Sensible(n: Node)
    decreases n
  {
    || n.repeat == 0
    || (&& (n.budget.Some? ==> n.budget.value >= 0.0)
        && forall k :: 0 <= k < |n.children| ==> Sensible(n.children[k]))
  }

  function Costs(n: Node): (r: seq<real>) {
    seq(|n.children|, k requires 0 <= k < |n.children| => Cost(n.children[k]))
  }

  lemma CostsCombine(n: Node)
    ensures ChildrenCost(n) == Combine(n.mode, Costs(n))
  {
    assert Costs(n) == seq(|n.children|, k requires 0 <= k < |n.children| => Cost(n.children[k]));
  }

  // ---------------------------------------------------------------------------
  // How long spans take
  // ---------------------------------------------------------------------------

  ghost predicate AtMostEach(s: seq<Span>, c: seq<real>) {
    |s| == |c| && forall k :: 0 <= k < |s| ==> s[k].end - s[k].start <= c[k]
  }

  ghost predicate AtLeastEach(s: seq<Span>, c: seq<real>) {
    |s| == |c| && forall k :: 0 <= k < |s| ==> s[k].end - s[k].start >= c[k]
  }

  lemma ChainFront(from: real, s: seq<Span>, until: real)
    requires OneAfterAnother(from, s, until) && s != []
    ensures OneAfterAnother(from, s[..|s| - 1], s[|s| - 1].start) && until == s[|s| - 1].end
  {
    var n := |s| - 1;
    assert forall k :: 0 <= k <= n ==> EndOf(from, s[..n], k) == EndOf(from, s, k);
  }

  lemma SumLast(c: seq<real>)
    requires c != []
    ensures Sum(c) == Sum(c[..|c| - 1]) + c[|c| - 1]
  {
  }

  lemma EachFront(s: seq<Span>, c: seq<real>)
    requires s != [] && |s| == |c|
    ensures var n := |s| - 1;
            && (AtMostEach(s, c) ==> AtMostEach(s[..n], c[..n]) && s[n].end - s[n].start <= c[n])
            && (AtLeastEach(s, c) ==> AtLeastEach(s[..n], c[..n]) && s[n].end - s[n].start >= c[n])
  {
  }

  lemma NoSpans(from: real, until: real, c: seq<real>)
    ensures OneAfterAnother(from, [], until) ==> until == from
    ensures Sum([]) == 0.0
  {
  }

  lemma SameNumber(s: seq<Span>, c: seq<real>)
    ensures AtMostEach(s, c) || AtLeastEach(s, c) ==> |s| == |c|
  {
  }

  lemma {:induction false} ChainTakes(from: real, s: seq<Span>, until: real, c: seq<real>)
    requires OneAfterAnother(from, s, until)
    ensures AtMostEach(s, c) ==> until - from <= Sum(c)
    ensures AtLeastEach(s, c) ==> until - from >= Sum(c)
    decreases |s|
  {
    hide OneAfterAnother, Sum, AtMostEach, AtLeastEach;
    NoSpans(from, until, c);
    if s == [] || |s| != |c| {
      SameNumber(s, c);
    } else {
      var n := |s| - 1;
      ChainFront(from, s, until);
      EachFront(s, c);
      SumLast(c);
      ChainTakes(from, s[..n], s[n].start, c[..n]);
    }
  }

  lemma TogetherTakes(from: real, s: seq<Span>, until: real, c: seq<real>)
    requires AtOnce(from, s, until)
    ensures AtMostEach(s, c) ==> until - from <= Peak(c)
    ensures AtLeastEach(s, c) ==> until - from >= Peak(c)
  {
    hide Peak;
    PeakIs(c);
    if AtLeastEach(s, c) && c != [] {
      var k :| 0 <= k < |c| && c[k] == Peak(c);
      assert s[k].end <= until;
    }
  }

  /** The parts together take what their costs combine to, at most or at least. */
  lemma PartsCombine(n: Node, r: Run)
    requires PartsTake(n.mode, r)
    ensures AtMostEach(PartSpans(r.parts), Costs(n)) ==> r.worked - r.start <= ChildrenCost(n)
    ensures AtLeastEach(PartSpans(r.parts), Costs(n)) ==> r.worked - r.start >= ChildrenCost(n)
  {
    CostsCombine(n);
    hide ChildrenCost, Costs, PartSpans, OneAfterAnother, AtOnce, Sum, Peak;
    match n.mode
    case InSequence => ChainTakes(r.start, PartSpans(r.parts), r.worked, Costs(n));
    case InParallel => TogetherTakes(r.start, PartSpans(r.parts), r.worked, Costs(n));
  }

  /** The repetitions together take their number times what one takes, at most or at least. */
  lemma RunsTake(n: Node, e: Execution)
    requires |e.runs| == n.repeat && OneAfterAnother(e.start, RunSpans(e.runs), e.end)
    ensures (forall k :: 0 <= k < |e.runs| ==> e.runs[k].end - e.runs[k].start <= OwnCost(n)) ==>
              e.end - e.start <= Cost(n)
    ensures (forall k :: 0 <= k < |e.runs| ==> e.runs[k].end - e.runs[k].start >= OwnCost(n)) ==>
              e.end - e.start >= Cost(n)
  {
    hide OwnCost, OneAfterAnother, Sum;
    ChainTakes(e.start, RunSpans(e.runs), e.end, Same(OwnCost(n), n.repeat));
    SumSame(OwnCost(n), n.repeat);
  }

  // ---------------------------------------------------------------------------
  // A clean tree holds
  // ---------------------------------------------------------------------------

  /** No node that is run at all violates its budget. */
  ghost predicate RunsClean(n: Node)
    decreases n
  {
    n.repeat == 0 || (!Violates(n) && forall k :: 0 <= k < |n.children| ==> RunsClean(n.children[k]))
  }

  lemma {:induction false} CleanRuns(n: Node)
    ensures Clean(n) ==> RunsClean(n)
    ensures Repeats(n) && RunsClean(n) ==> Clean(n)
    decreases n
  {
    forall k | 0 <= k < |n.children|
      ensures Clean(n.children[k]) ==> RunsClean(n.children[k])
      ensures Repeats(n.children[k]) && RunsClean(n.children[k]) ==> Clean(n.children[k])
    {
      CleanRuns(n.children[k]);
    }
    hide Violates;
  }

  /** Every node is run at least once. */
  ghost predicate Repeats(n: Node)
    decreases n
  {
    n.repeat > 0 && forall k :: 0 <= k < |n.children| ==> Repeats(n.children[k])
  }

  /** Where no node that is run violates its budget, no execution takes longer than the costs say, at any
      node, and so none exceeds a declared ceiling anywhere. */
  lemma {:induction false} CleanHolds(n: Node, e: Execution)
    requires Sensible(n) && RunsClean(n) && Executes(n, e)
    ensures e.end - e.start <= Cost(n) && Within(n, e)
    ensures forall k :: 0 <= k < |e.runs| ==> e.runs[k].end - e.runs[k].start <= OwnCost(n)
    decreases n, 1
  {
    hide OwnCost, RunWithin, RunsAs, RunsClean, Sensible, OneAfterAnother, RunSpans, Cost;
    forall k | 0 <= k < |e.runs|
      ensures e.runs[k].end - e.runs[k].start <= OwnCost(n) && RunWithin(n, e.runs[k])
    {
      CleanRun(n, e.runs[k]);
    }
    RunsTake(n, e);
  }

  lemma {:induction false} CleanRun(n: Node, r: Run)
    requires Sensible(n) && RunsClean(n) && n.repeat > 0 && RunsAs(n, r)
    ensures r.end - r.start <= OwnCost(n) && RunWithin(n, r)
    decreases n, 0
  {
    hide Executes, Within, PartsTake, Cost, ChildrenCost;
    forall k | 0 <= k < |n.children|
      ensures PartSpans(r.parts)[k].end - PartSpans(r.parts)[k].start <= Costs(n)[k]
      ensures Within(n.children[k], r.parts[k])
    {
      CleanHolds(n.children[k], r.parts[k]);
    }
    PartsCombine(n, r);
    if n.children == [] { NoParts(n, r); }
  }

  lemma NoParts(n: Node, r: Run)
    requires n.children == [] && r.parts == [] && PartsTake(n.mode, r)
    ensures r.worked == r.start && ChildrenCost(n) == 0.0
  {
    CostsCombine(n);
    assert PartSpans(r.parts) == [] && Costs(n) == [];
  }

  // ---------------------------------------------------------------------------
  // A violation can happen
  // ---------------------------------------------------------------------------

  /** From any instant on there is an execution in which every phase takes all it may. */
  lemma {:induction false} FullExecution(n: Node, at: real) returns (e: Execution)
    ensures Executes(n, e) && Full(n, e) && e.start == at
    decreases n, 2
  {
    hide RunsAs, FullRun, OneAfterAnother, RunSpans;
    var runs: seq<Run>, now := [], at;
    NoRunsYet(at);
    for k := 0 to n.repeat
      invariant |runs| == k && OneAfterAnother(at, RunSpans(runs), now)
      invariant forall i :: 0 <= i < k ==> RunsAs(n, runs[i]) && FullRun(n, runs[i])
    {
      var r := FullRepetition(n, now);
      OneMoreRun(at, runs, now, r);
      runs, now := runs + [r], r.end;
    }
    e := Execution(at, now, runs);
  }

  lemma NoRunsYet(at: real)
    ensures OneAfterAnother(at, RunSpans([]), at)
  {
  }

  lemma OneMoreRun(from: real, runs: seq<Run>, until: real, r: Run)
    requires OneAfterAnother(from, RunSpans(runs), until) && r.start == until
    ensures OneAfterAnother(from, RunSpans(runs + [r]), r.end)
  {
    ChainMore(from, RunSpans(runs), until, Span(r.start, r.end));
    hide OneAfterAnother;
    assert RunSpans(runs + [r]) == RunSpans(runs) + [Span(r.start, r.end)];
  }

  lemma ChainMore(from: real, s: seq<Span>, until: real, next: Span)
    requires OneAfterAnother(from, s, until) && next.start == until
    ensures OneAfterAnother(from, s + [next], next.end)
  {
    assert forall k :: 0 <= k <= |s| ==> EndOf(from, s + [next], k) == EndOf(from, s, k);
  }

  lemma {:induction false} FullRepetition(n: Node, at: real) returns (r: Run)
    ensures RunsAs(n, r) && FullRun(n, r) && r.start == at
    decreases n, 1
  {
    var parts, worked := FullParts(n, at);
    var until := if n.budget.Some? then Larger(worked, at + n.budget.value) else worked;
    r := Run(at, worked, until, parts);
    hide Executes, Full, OneAfterAnother, AtOnce;
  }

  lemma {:induction false} FullParts(n: Node, at: real) returns (parts: seq<Execution>, worked: real)
    ensures |parts| == |n.children|
    ensures forall k :: 0 <= k < |parts| ==> Executes(n.children[k], parts[k]) && Full(n.children[k], parts[k])
    ensures PartsTake(n.mode, Run(at, worked, worked, parts))
    decreases n, 0
  {
    hide Executes, Full;
    parts, worked := [], at;
    for k := 0 to |n.children|
      invariant |parts| == k
      invariant forall i :: 0 <= i < k ==> Executes(n.children[i], parts[i]) && Full(n.children[i], parts[i])
      invariant PartsTake(n.mode, Run(at, worked, worked, parts))
    {
      var e := FullExecution(n.children[k], if n.mode.InSequence? then worked else at);
      assert PartSpans(parts + [e]) == PartSpans(parts) + [Span(e.start, e.end)];
      if n.mode.InSequence? {
        ChainMore(at, PartSpans(parts), worked, Span(e.start, e.end));
        worked := e.end;
      } else {
        TogetherMore(at, PartSpans(parts), worked, Span(e.start, e.end));
        worked := if parts == [] then e.end else Larger(worked, e.end);
      }
      parts := parts + [e];
    }
  }

  lemma TogetherMore(from: real, s: seq<Span>, until: real, next: Span)
    requires AtOnce(from, s, until) && next.start == from
    ensures AtOnce(from, s + [next], if s == [] then next.end else Larger(until, next.end))
  {
    var all := s + [next];
    assert all[|s|] == next;
    if s != [] {
      var k :| 0 <= k < |s| && s[k].end == until;
      assert all[k].end == until;
    }
  }

  /** In it every phase reaches its cost. */
  lemma {:induction false} CeilingReaches(n: Node, e: Execution)
    requires Executes(n, e) && Full(n, e)
    ensures e.end - e.start >= Cost(n)
    ensures forall k :: 0 <= k < |e.runs| ==>
              e.runs[k].end - e.runs[k].start >= OwnCost(n) && e.runs[k].worked - e.runs[k].start >= ChildrenCost(n)
    decreases n, 1
  {
    hide OwnCost, RunsAs, FullRun, OneAfterAnother, RunSpans, Cost, ChildrenCost;
    forall k | 0 <= k < |e.runs|
      ensures e.runs[k].end - e.runs[k].start >= OwnCost(n) && e.runs[k].worked - e.runs[k].start >= ChildrenCost(n)
    {
      RunReaches(n, e.runs[k]);
    }
    RunsTake(n, e);
  }

  lemma {:induction false} RunReaches(n: Node, r: Run)
    requires RunsAs(n, r) && FullRun(n, r)
    ensures r.end - r.start >= OwnCost(n) && r.worked - r.start >= ChildrenCost(n)
    decreases n, 0
  {
    hide Executes, Full, PartsTake, Cost, ChildrenCost;
    forall k | 0 <= k < |n.children|
      ensures PartSpans(r.parts)[k].end - PartSpans(r.parts)[k].start >= Costs(n)[k]
    {
      CeilingReaches(n.children[k], r.parts[k]);
    }
    PartsCombine(n, r);
  }

  /** Time runs forward. */
  lemma {:induction false} Forward(n: Node, e: Execution)
    requires Executes(n, e)
    ensures e.start <= e.end && forall k :: 0 <= k < |e.runs| ==> e.runs[k].start <= e.runs[k].end
    decreases n, 1
  {
    hide OneAfterAnother, RunsAs, Sum;
    forall k | 0 <= k < |e.runs| ensures e.runs[k].start <= e.runs[k].end { RunForward(n, e.runs[k]); }
    var none := Same(0.0, |e.runs|);
    SumSame(0.0, |e.runs|);
    ChainTakes(e.start, RunSpans(e.runs), e.end, none);
  }

  lemma {:induction false} RunForward(n: Node, r: Run)
    requires RunsAs(n, r)
    ensures r.start <= r.worked <= r.end
    decreases n, 0
  {
    hide OneAfterAnother, AtOnce, Executes, Sum, Peak;
    forall k | 0 <= k < |r.parts| ensures r.parts[k].start <= r.parts[k].end { Forward(n.children[k], r.parts[k]); }
    var none := Same(0.0, |r.parts|);
    SumSame(0.0, |r.parts|);
    PeakIs(none);
    match n.mode
    case InSequence => ChainTakes(r.start, PartSpans(r.parts), r.worked, none);
    case InParallel => TogetherTakes(r.start, PartSpans(r.parts), r.worked, none);
  }

  /** A node that is run with a negative ceiling overruns it in every execution. */
  lemma {:induction false} NegativeOverruns(n: Node, e: Execution)
    requires !Sensible(n) && Executes(n, e)
    ensures !Within(n, e)
    decreases n
  {
    hide OneAfterAnother, PartsTake;
    var r := e.runs[0];
    assert RunsAs(n, r);
    RunForward(n, r);
    if k :| 0 <= k < |n.children| && !Sensible(n.children[k]) {
      NegativeOverruns(n.children[k], r.parts[k]);
    }
    assert !RunWithin(n, r);
  }

  /** A node that is run and violates its budget overruns it there. */
  lemma {:induction false} ViolationHappens(n: Node, e: Execution)
    requires !RunsClean(n) && Executes(n, e) && Full(n, e)
    ensures !Within(n, e)
    decreases n
  {
    hide OneAfterAnother, PartsTake;
    var r := e.runs[0];
    assert RunsAs(n, r) && FullRun(n, r);
    if Violates(n) {
      RunReaches(n, r);
    } else {
      var k :| 0 <= k < |n.children| && !RunsClean(n.children[k]);
      ViolationHappens(n.children[k], r.parts[k]);
    }
    assert !RunWithin(n, r);
  }

  /** A tree keeps its ceilings in every execution exactly when no node that is run violates its budget or
      declares a negative one. */
  lemma HoldsIff(root: Node)
    ensures (forall e :: Executes(root, e) ==> Within(root, e)) <==> RunsClean(root) && Sensible(root)
  {
    var full := FullExecution(root, 0.0);
    if !Sensible(root) {
      NegativeOverruns(root, full);
    } else if !RunsClean(root) {
      ViolationHappens(root, full);
    } else {
      forall e | Executes(root, e) ensures Within(root, e) { CleanHolds(root, e); }
    }
  }

  /** What `check` means for ceilings that are not negative: reporting nothing of either kind, it rules out
      every overrun; and where every node is run at least once, it reports something only if an overrun is
      possible. */
  lemma CheckMeans(root: Node)
    ensures Sensible(root) && Check(root, Budget) == [] && Check(root, Tolerance) == [] ==>
            forall e :: Executes(root, e) ==> Within(root, e)
    ensures Repeats(root) && (forall e :: Executes(root, e) ==> Within(root, e)) ==>
              Check(root, Budget) == [] && Check(root, Tolerance) == []
  {
    CheckIff(root);
    CleanRuns(root);
    HoldsIff(root);
  }

  /** A phase repeated no times is still checked: its report is of an overrun that cannot happen. */
  lemma NeverRunIsReported()
    ensures
      var part := Node(Some(2.0), Budget, InSequence, 1, []);
      var phase := Node(Some(1.0), Budget, InSequence, 0, [part]);
      && Check(phase, Budget) != []
      && forall e :: Executes(phase, e) ==> Within(phase, e)
  {
    var part := Node(Some(2.0), Budget, InSequence, 1, []);
    var phase := Node(Some(1.0), Budget, InSequence, 0, [part]);
    CostsCombine(phase);
    assert Cost(part) == 2.0;
    assert Costs(phase) == [2.0];
    assert Sum([2.0]) == Sum([]) + 2.0 by { assert [2.0][..0] == []; }
    assert Violates(phase);
    ReportedIff(Walk(phase), Budget);
    assert Walk(phase)[0] == phase;
    HoldsIff(phase);
  }
}
