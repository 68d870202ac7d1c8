/** What the audit verifier decides: acceptance, localisation, gaps, de-duplication, order, and
    tamper evidence (scripts/audit-verify.py). */
module AuditTheorems {
  import opened Results
  import opened Framing
  import opened AuditChain
  import opened AuditVerify

  // ---------------------------------------------------------------------------
  // The table in terms of the stream
  // ---------------------------------------------------------------------------

  /** A sequenced record of this boot. */
  predicate Numbered(rec: Record, boot: Text, s: Seq64) {
    rec.boot == boot && !IsGenesis(rec) && rec.seqNo == Some(s)
  }

  predicate Announces(rec: Record, boot: Text) {
    rec.boot == boot && IsGenesis(rec)
  }

  ghost predicate FirstNumbered(records: seq<Record>, boot: Text, s: Seq64, i: nat) {
    && i < |records| && Numbered(records[i], boot, s)
    && forall j :: 0 <= j < i ==> !Numbered(records[j], boot, s)
  }

  ghost predicate LastAnnounced(records: seq<Record>, boot: Text, i: nat) {
    && i < |records| && Announces(records[i], boot)
    && forall j :: i < j < |records| ==> !Announces(records[j], boot)
  }

  /** A boot's data are the first record of every sequence number and the last genesis record of
      that boot in the stream, and nothing else. */
  ghost predicate Collects(d: BootData, records: seq<Record>, b: Text) {
    && (forall s :: s in d.bySeq ==> exists i: nat :: FirstNumbered(records, b, s, i) && d.bySeq[s] == records[i])
    && (forall s, i :: 0 <= i < |records| && Numbered(records[i], b, s) ==> s in d.bySeq)
    && (d.genesis.Some? ==> exists i: nat :: LastAnnounced(records, b, i) && d.genesis.value == records[i])
    && (forall i :: 0 <= i < |records| && Announces(records[i], b) ==> d.genesis.Some?)
  }

  /** The table has one entry per boot named in the stream. */
  ghost predicate Groups(t: Table, records: seq<Record>) {
    && (forall b :: b in t.data <==> exists i :: 0 <= i < |records| && records[i].boot == b)
    && (forall b :: b in t.data ==> Collects(t.data[b], records, b))
  }

  lemma {:induction false} BuildGroups(records: seq<Record>)
    ensures Groups(Build(records), records)
  {
    if records != [] {
      var front, rec := records[..|records| - 1], records[|records| - 1];
      BuildGroups(front);
      AddGroups(Build(front), front, rec);
      assert front + [rec] == records;
    }
  }

  lemma CollectsMore(d: BootData, d': BootData, front: seq<Record>, rec: Record, b: Text)
    requires Collects(d, front, b)
    requires d' == if b == rec.boot then Update(d, rec) else d
    ensures Collects(d', front + [rec], b)
  {
    hide IsGenesis;
    var n, records := |front|, front + [rec];
    forall s | s in d'.bySeq
      ensures exists i: nat :: FirstNumbered(records, b, s, i) && d'.bySeq[s] == records[i]
    {
      if s in d.bySeq {
        var i: nat :| FirstNumbered(front, b, s, i) && d.bySeq[s] == front[i];
        assert FirstNumbered(records, b, s, i);
      } else {
        assert FirstNumbered(records, b, s, n);
      }
    }
    if Announces(rec, b) {
      assert LastAnnounced(records, b, n);
    } else if d'.genesis.Some? {
      var i: nat :| LastAnnounced(front, b, i) && d.genesis.value == front[i];
      assert LastAnnounced(records, b, i);
    }
  }

  lemma AddAt(t: Table, rec: Record, b: Text)
    requires WellFormed(t)
    ensures b in Add(t, rec).data <==> b in t.data || b == rec.boot
    ensures EntryOf(Add(t, rec), b) == if b == rec.boot then Update(EntryOf(t, b), rec) else EntryOf(t, b)
  {
  }

  lemma AddGroups(t: Table, front: seq<Record>, rec: Record)
    requires WellFormed(t) && Groups(t, front)
    ensures Groups(Add(t, rec), front + [rec])
  {
    var records, t' := front + [rec], Add(t, rec);
    assert records[|front|] == rec;
    forall b ensures b in t'.data <==> exists i :: 0 <= i < |records| && records[i].boot == b {
      AddAt(t, rec, b);
      if b in t.data {
        var i :| 0 <= i < |front| && front[i].boot == b;
        assert records[i].boot == b;
      }
    }
    forall b | b in t'.data ensures Collects(t'.data[b], records, b) {
      AddAt(t, rec, b);
      Untouched(t, front, b);
      CollectsMore(EntryOf(t, b), EntryOf(t', b), front, rec, b);
    }
  }

  lemma Untouched(t: Table, front: seq<Record>, b: Text)
    requires Groups(t, front)
    ensures Collects(EntryOf(t, b), front, b)
  {
    if b !in t.data {
      assert forall i :: 0 <= i < |front| ==> front[i].boot != b;
    }
  }

  /** The first record of boot `x` comes before any record of boot `y`. */
  ghost predicate NamedEarlier(records: seq<Record>, x: Text, y: Text) {
    exists a :: 0 <= a < |records| && records[a].boot == x && forall b :: 0 <= b <= a ==> records[b].boot != y
  }

  lemma EarlierMore(front: seq<Record>, rec: Record, x: Text, y: Text)
    requires NamedEarlier(front, x, y)
    ensures NamedEarlier(front + [rec], x, y)
  {
    var a :| 0 <= a < |front| && front[a].boot == x && forall b :: 0 <= b <= a ==> front[b].boot != y;
    var all := front + [rec];
    assert all[a].boot == x && forall b :: 0 <= b <= a ==> all[b] == front[b];
  }

  lemma EarlierThanNew(t: Table, front: seq<Record>, x: Text, y: Text)
    requires Groups(t, front) && x in t.data && y !in t.data
    ensures NamedEarlier(front, x, y)
  {
    hide Collects;
    var a :| 0 <= a < |front| && front[a].boot == x;
    assert forall b :: 0 <= b <= a ==> front[b].boot != y;
  }

  lemma NoBoots()
    ensures InOrderOfNames(Build([]).order, [])
  {
  }

  lemma OrderGrows(records: seq<Record>)
    requires records != []
    ensures var t, rec := Build(records[..|records| - 1]), records[|records| - 1];
            && Build(records).order == (if rec.boot in t.data then t.order else t.order + [rec.boot])
            && forall b :: b in t.order ==> b in t.data
  {
    hide Update, EntryOf;
  }

  ghost predicate InOrderOfNames(order: seq<Text>, records: seq<Record>) {
    forall i, j :: 0 <= i < j < |order| ==> NamedEarlier(records, order[i], order[j])
  }

  lemma NamesStayInOrder(t: Table, front: seq<Record>, rec: Record)
    requires Groups(t, front) && InOrderOfNames(t.order, front) && forall b :: b in t.order ==> b in t.data
    ensures InOrderOfNames(if rec.boot in t.data then t.order else t.order + [rec.boot], front + [rec])
  {
    hide Groups, NamedEarlier;
    var order := if rec.boot in t.data then t.order else t.order + [rec.boot];
    forall i, j | 0 <= i < j < |order| ensures NamedEarlier(front + [rec], order[i], order[j]) {
      if j == |t.order| {
        assert order[i] in t.order;
        EarlierThanNew(t, front, order[i], rec.boot);
      }
      EarlierMore(front, rec, order[i], order[j]);
    }
  }

  /** Boots are taken in the order in which the stream first names them. */
  lemma {:induction false} BootsInOrder(records: seq<Record>)
    ensures InOrderOfNames(Build(records).order, records)
  {
    hide Build, Groups, InOrderOfNames, WellFormed;
    if records == [] {
      NoBoots();
    } else {
      var front, rec := records[..|records| - 1], records[|records| - 1];
      BootsInOrder(front);
      BuildGroups(front);
      OrderGrows(records);
      NamesStayInOrder(Build(front), front, rec);
      assert front + [rec] == records;
    }
  }

  // ---------------------------------------------------------------------------
  // One boot's problems, record by record
  // ---------------------------------------------------------------------------

  /** The head the record before `s` left. */
  function PrevHead(hash: Hash, boot: Text, bySeq: map<Seq64, Record>, s: Seq64): (r: Bytes)
    requires s == 0 || s - 1 in bySeq
  {
    if s == 0 then GenesisHead(hash, boot) else HeadBytes(bySeq[s - 1].head)
  }

  /** The record at `s` does not carry on from the record before it. */
  predicate Broken(hash: Hash, boot: Text, bySeq: map<Seq64, Record>, s: Seq64) {
    && s in bySeq && (s == 0 || s - 1 in bySeq)
    && bySeq[s].head != Hex(StepHead(hash, PrevHead(hash, boot, bySeq, s), s, bySeq[s]))
  }

  /** `[a, b)` is a maximal run of missing numbers below the highest one present. */
  ghost predicate MissingRun(bySeq: map<Seq64, Record>, a: nat, b: nat) {
    && a < b < TWO_64 && b in bySeq
    && (forall x: Seq64 :: a <= x < b ==> x !in bySeq)
    && (a == 0 || a - 1 in bySeq)
  }

  ghost predicate IsSorted(seqs: seq<Seq64>, bySeq: map<Seq64, Record>) {
    Ascending(seqs) && forall x :: x in seqs <==> x in bySeq
  }

  /** At the k-th record the expected number comes up exactly when its predecessor is present;
      otherwise a maximal missing run ends there. */
  lemma AtRecord(hash: Hash, boot: Text, bySeq: map<Seq64, Record>, seqs: seq<Seq64>, k: nat)
    requires IsSorted(seqs, bySeq) && k < |seqs|
    ensures var s := seqs[k];
            if s == 0 || s - 1 in bySeq then
              s == ExpectedAt(seqs, k) && PrevAt(hash, boot, bySeq, seqs, k) == PrevHead(hash, boot, bySeq, s)
            else
              s != ExpectedAt(seqs, k) && MissingRun(bySeq, ExpectedAt(seqs, k), s)
  {
    var s := seqs[k];
    if k > 0 {
      assert seqs[k - 1] < seqs[k];
    }
    if s == 0 {
    } else if s - 1 in bySeq {
      var j :| 0 <= j < |seqs| && seqs[j] == s - 1;
      assert j == k - 1;
    } else {
      var a := ExpectedAt(seqs, k);
      forall x: Seq64 | a <= x < s ensures x !in bySeq {
        if x in bySeq {
          assert false;
        }
      }
    }
  }

  lemma RunEndsAt(bySeq: map<Seq64, Record>, seqs: seq<Seq64>, a: nat, b: nat) returns (k: nat)
    requires IsSorted(seqs, bySeq) && MissingRun(bySeq, a, b)
    ensures k < |seqs| && seqs[k] == b && ExpectedAt(seqs, k) == a
  {
    assert forall i :: 0 <= i < |seqs| ==> seqs[i] in bySeq;
    k :| k < |seqs| && seqs[k] == b;
    if a > 0 {
      var j :| 0 <= j < |seqs| && seqs[j] == a - 1;
    }
  }

  lemma {:induction false} ChainMember(
    hash: Hash, boot: Text, bySeq: map<Seq64, Record>, seqs: seq<Seq64>, k: nat, p: Problem)
    requires k <= |seqs| && forall i :: 0 <= i < |seqs| ==> seqs[i] in bySeq
    ensures p in ChainTo(hash, boot, bySeq, seqs, k) <==>
            exists i :: 0 <= i < k && p in ProblemAt(hash, boot, bySeq, seqs, i)
  {
    hide ProblemAt;
    if k > 0 {
      ChainMember(hash, boot, bySeq, seqs, k - 1, p);
    }
  }

  /** What replay is meant to report: a broken record, or a maximal missing run. */
  ghost predicate ChainFault(hash: Hash, boot: Text, bySeq: map<Seq64, Record>, p: Problem) {
    || (p.HeadMismatch? && p.boot == boot && p.seqNo < TWO_64 && Broken(hash, boot, bySeq, p.seqNo))
    || (p.Gap? && p.boot == boot && MissingRun(bySeq, p.expected, p.next))
  }

  lemma ProblemAtIsFault(hash: Hash, boot: Text, bySeq: map<Seq64, Record>, seqs: seq<Seq64>, i: nat, p: Problem)
    requires IsSorted(seqs, bySeq) && i < |seqs| && p in ProblemAt(hash, boot, bySeq, seqs, i)
    ensures ChainFault(hash, boot, bySeq, p)
  {
    hide StepHead, GenesisHead;
    AtRecord(hash, boot, bySeq, seqs, i);
  }

  lemma FaultIsAtRecord(hash: Hash, boot: Text, bySeq: map<Seq64, Record>, seqs: seq<Seq64>, p: Problem)
    returns (i: nat)
    requires IsSorted(seqs, bySeq) && ChainFault(hash, boot, bySeq, p)
    ensures i < |seqs| && p in ProblemAt(hash, boot, bySeq, seqs, i)
  {
    if p.Gap? {
      i := RunEndsAt(bySeq, seqs, p.expected, p.next);
    } else {
      i :| i < |seqs| && seqs[i] == p.seqNo;
      AtRecord(hash, boot, bySeq, seqs, i);
    }
  }

  /** Replay reports exactly the broken records and exactly the maximal missing runs. */
  lemma ChainProblemsAre(hash: Hash, boot: Text, bySeq: map<Seq64, Record>, p: Problem)
    ensures p in ChainProblems(hash, boot, bySeq) <==> ChainFault(hash, boot, bySeq, p)
  {
    var seqs := Sorted(bySeq.Keys);
    assert IsSorted(seqs, bySeq);
    ChainMember(hash, boot, bySeq, seqs, |seqs|, p);
    if ChainFault(hash, boot, bySeq, p) {
      var i := FaultIsAtRecord(hash, boot, bySeq, seqs, p);
    } else if i :| 0 <= i < |seqs| && p in ProblemAt(hash, boot, bySeq, seqs, i) {
      ProblemAtIsFault(hash, boot, bySeq, seqs, i, p);
    }
  }

  /** Where in the sequence order a problem sits. */
  function Place(p: Problem): (n: nat) {
    match p
    case Gap(_, _, next) => next
    case HeadMismatch(_, s) => s
    case _ => 0
  }

  /** Strictly ascending places, all below `bound`: in particular no problem occurs twice. */
  ghost predicate Climbs(c: seq<Problem>, bound: nat) {
    && (forall i :: 0 <= i < |c| ==> Place(c[i]) < bound)
    && (forall i, j :: 0 <= i < j < |c| ==> Place(c[i]) < Place(c[j]))
  }

  lemma ClimbsOn(front: seq<Problem>, last: seq<Problem>, bound: nat, at: nat)
    requires Climbs(front, bound) && bound <= at && |last| <= 1
    requires last != [] ==> Place(last[0]) == at
    ensures Climbs(front + last, at + 1)
  {
  }

  lemma ProblemPlaced(hash: Hash, boot: Text, bySeq: map<Seq64, Record>, seqs: seq<Seq64>, k: nat)
    requires IsSorted(seqs, bySeq) && k < |seqs|
    ensures |ProblemAt(hash, boot, bySeq, seqs, k)| <= 1
    ensures forall p :: p in ProblemAt(hash, boot, bySeq, seqs, k) ==> Place(p) == seqs[k]
    ensures ExpectedAt(seqs, k) <= seqs[k] && ExpectedAt(seqs, k + 1) == seqs[k] as int + 1
  {
    hide StepHead, GenesisHead;
    if k > 0 { assert seqs[k - 1] < seqs[k]; }
  }

  /** Replay reports at most one problem per record, in sequence order. */
  lemma {:induction false} ChainClimbs(hash: Hash, boot: Text, bySeq: map<Seq64, Record>, seqs: seq<Seq64>, k: nat)
    requires IsSorted(seqs, bySeq) && k <= |seqs|
    ensures Climbs(ChainTo(hash, boot, bySeq, seqs, k), ExpectedAt(seqs, k))
  {
    hide ProblemAt, Place;
    if k > 0 {
      hide ExpectedAt;
      ChainClimbs(hash, boot, bySeq, seqs, k - 1);
      ProblemPlaced(hash, boot, bySeq, seqs, k - 1);
      ClimbsOn(ChainTo(hash, boot, bySeq, seqs, k - 1), ProblemAt(hash, boot, bySeq, seqs, k - 1),
               ExpectedAt(seqs, k - 1), seqs[k - 1]);
    }
  }

  /** The gaps reported for a boot are its maximal missing runs, each reported once. */
  lemma GapsAreMissingRuns(hash: Hash, boot: Text, bySeq: map<Seq64, Record>)
    ensures forall a: nat, b: nat :: Gap(boot, a, b) in ChainProblems(hash, boot, bySeq) <==> MissingRun(bySeq, a, b)
    ensures var c := ChainProblems(hash, boot, bySeq);
            forall i, j :: 0 <= i < j < |c| ==> c[i] != c[j]
  {
    forall a: nat, b: nat
      ensures Gap(boot, a, b) in ChainProblems(hash, boot, bySeq) <==> MissingRun(bySeq, a, b)
    {
      ChainProblemsAre(hash, boot, bySeq, Gap(boot, a, b));
    }
    var seqs := Sorted(bySeq.Keys);
    ChainClimbs(hash, boot, bySeq, seqs, |seqs|);
  }

  // ---------------------------------------------------------------------------
  // Acceptance
  // ---------------------------------------------------------------------------

  /** The boot's chain is whole: announced by its own genesis head, numbered from 0 without a gap,
      every head replaying from the one before it, and closed. */
  ghost predicate Intact(hash: Hash, boot: Text, d: BootData) {
    && d.genesis.Some? && d.genesis.value.head == Hex(GenesisHead(hash, boot))
    && Contiguous(d.bySeq) && Replays(hash, boot, d.bySeq)
    && (forall s: Seq64 :: s in d.bySeq && Highest(d.bySeq, s) ==> d.bySeq[s].kind == Some(SHUTDOWN_KIND))
  }

  ghost predicate Highest(bySeq: map<Seq64, Record>, s: Seq64) {
    s in bySeq && forall x :: x in bySeq ==> x <= s
  }

  lemma ClosureIff(boot: Text, bySeq: map<Seq64, Record>)
    ensures ClosureProblems(boot, bySeq) == [] <==>
            forall s: Seq64 :: s in bySeq && Highest(bySeq, s) ==> bySeq[s].kind == Some(SHUTDOWN_KIND)
  {
    var seqs := Sorted(bySeq.Keys);
    if seqs == [] {
      assert forall x :: x in bySeq ==> x in seqs;
    } else {
      var last := seqs[|seqs| - 1];
      assert last in bySeq;
      assert Highest(bySeq, last) by {
        forall x | x in bySeq ensures x <= last {
          var j :| 0 <= j < |seqs| && seqs[j] == x;
        }
      }
      assert forall s :: Highest(bySeq, s) ==> s == last;
    }
  }

  lemma {:induction false} NoRunMeansContiguous(bySeq: map<Seq64, Record>, s: Seq64, x: Seq64)
    requires forall a: nat, b: nat :: !MissingRun(bySeq, a, b)
    requires s in bySeq && x <= s
    ensures x in bySeq
    decreases s - x
  {
    if x < s {
      NoRunMeansContiguous(bySeq, s, x + 1);
      if x !in bySeq {
        var a := RunBelow(bySeq, x);
        assert MissingRun(bySeq, a, x + 1);
        assert false;
      }
    }
  }

  /** The start of the missing run that `x` belongs to. */
  lemma {:induction false} RunBelow(bySeq: map<Seq64, Record>, x: Seq64) returns (a: nat)
    requires x !in bySeq
    ensures a <= x && (a == 0 || a - 1 in bySeq)
    ensures forall y: Seq64 :: a <= y <= x ==> y !in bySeq
  {
    a := x;
    if x > 0 && x - 1 !in bySeq {
      a := RunBelow(bySeq, x - 1);
    }
  }

  lemma ChainSilentIff(hash: Hash, boot: Text, bySeq: map<Seq64, Record>)
    ensures ChainProblems(hash, boot, bySeq) == [] <==> forall p :: !ChainFault(hash, boot, bySeq, p)
  {
    var chain := ChainProblems(hash, boot, bySeq);
    if chain != [] {
      ChainProblemsAre(hash, boot, bySeq, chain[0]);
    } else {
      forall p ensures !ChainFault(hash, boot, bySeq, p) {
        ChainProblemsAre(hash, boot, bySeq, p);
      }
    }
  }

  ghost predicate Contiguous(bySeq: map<Seq64, Record>) {
    forall s: Seq64, x: Seq64 :: s in bySeq && x <= s ==> x in bySeq
  }

  ghost predicate Replays(hash: Hash, boot: Text, bySeq: map<Seq64, Record>) {
    forall s: Seq64 :: s in bySeq ==> !Broken(hash, boot, bySeq, s)
  }

  lemma BootAcceptedIff(hash: Hash, boot: Text, d: BootData)
    ensures BootProblems(hash, boot, d) == [] <==> Intact(hash, boot, d)
  {
    hide ChainProblems, ClosureProblems, Contiguous, Replays, Highest;
    ClosureIff(boot, d.bySeq);
    ChainWholeIff(hash, boot, d.bySeq);
  }

  lemma ChainWholeIff(hash: Hash, boot: Text, bySeq: map<Seq64, Record>)
    ensures ChainProblems(hash, boot, bySeq) == [] <==> Contiguous(bySeq) && Replays(hash, boot, bySeq)
  {
    hide ChainProblems;
    ChainSilentIff(hash, boot, bySeq);
    if forall p :: !ChainFault(hash, boot, bySeq, p) {
      ChainIsWhole(hash, boot, bySeq);
    }
    if Contiguous(bySeq) && Replays(hash, boot, bySeq) {
      assert forall p :: !ChainFault(hash, boot, bySeq, p);
    }
  }

  lemma ChainIsWhole(hash: Hash, boot: Text, bySeq: map<Seq64, Record>)
    requires forall p :: !ChainFault(hash, boot, bySeq, p)
    ensures Contiguous(bySeq) && Replays(hash, boot, bySeq)
  {
    forall a: nat, b: nat ensures !MissingRun(bySeq, a, b) {
      assert !ChainFault(hash, boot, bySeq, Gap(boot, a, b));
    }
    forall s: Seq64 ensures !Broken(hash, boot, bySeq, s) {
      assert !ChainFault(hash, boot, bySeq, HeadMismatch(boot, s));
    }
    forall s: Seq64, x: Seq64 | s in bySeq && x <= s ensures x in bySeq {
      NoRunMeansContiguous(bySeq, s, x);
    }
  }

  lemma {:induction false} FlattenMember<T>(parts: seq<seq<T>>, p: T)
    ensures p in Flatten(parts) <==> exists i :: 0 <= i < |parts| && p in parts[i]
  {
    if parts != [] {
      FlattenMember(parts[..|parts| - 1], p);
      if i :| 0 <= i < |parts| && p in parts[i] {
        assert i < |parts| - 1 ==> p in parts[..|parts| - 1][i];
      }
    }
  }

  /** A problem of the stream is a problem of one of the boots it names. */
  lemma ProblemOfBoot(hash: Hash, t: Table, p: Problem)
    requires WellFormed(t)
    ensures p in TableProblems(hash, t) <==> exists b :: b in t.data && p in BootProblems(hash, b, t.data[b])
  {
    hide BootProblems;
    var parts := PerBoot(hash, t);
    FlattenMember(parts, p);
    if p in Flatten(parts) {
      var i :| 0 <= i < |parts| && p in parts[i];
      assert t.order[i] in t.data;
    }
    if b :| b in t.data && p in BootProblems(hash, b, t.data[b]) {
      var i :| 0 <= i < |t.order| && t.order[i] == b;
      assert p in parts[i];
    }
  }

  lemma {:induction false} FlattenEmpty<T>(parts: seq<seq<T>>)
    ensures Flatten(parts) == [] <==> forall i :: 0 <= i < |parts| ==> parts[i] == []
  {
    if parts != [] {
      var n := |parts| - 1;
      FlattenEmpty(parts[..n]);
      assert forall i :: 0 <= i < n ==> parts[..n][i] == parts[i];
    }
  }

  ghost predicate AllIntact(hash: Hash, t: Table) {
    forall b :: b in t.data ==> Intact(hash, b, t.data[b])
  }

  lemma TableAcceptedIff(hash: Hash, t: Table)
    requires WellFormed(t)
    ensures TableProblems(hash, t) == [] <==> AllIntact(hash, t)
  {
    var parts := PerBoot(hash, t);
    FlattenEmpty(parts);
    forall i | 0 <= i < |parts| ensures parts[i] == [] <==> Intact(hash, t.order[i], t.data[t.order[i]]) {
      BootAcceptedIff(hash, t.order[i], t.data[t.order[i]]);
    }
  }

  /** The verifier is silent exactly when every boot named in the stream is whole: its data, by
      `Groups`, are the stream's own first records and last genesis record. */
  lemma AcceptedIff(hash: Hash, records: seq<Record>)
    ensures Groups(Build(records), records)
    ensures Problems(hash, records) == [] <==> AllIntact(hash, Build(records))
  {
    BuildGroups(records);
    TableAcceptedIff(hash, Build(records));
  }

  // ---------------------------------------------------------------------------
  // Duplicates and order
  // ---------------------------------------------------------------------------

  /** A record whose boot and number are already present changes nothing, whatever it says. */
  lemma DuplicateIgnored(hash: Hash, records: seq<Record>, rec: Record, i: nat)
    requires i < |records| && rec.seqNo.Some? && !IsGenesis(rec)
    requires Numbered(records[i], rec.boot, rec.seqNo.value)
    ensures Problems(hash, records + [rec]) == Problems(hash, records)
  {
    hide Add, TableProblems;
    BuildGroups(records);
    var t := Build(records);
    assert records[i].boot == rec.boot;
    assert Collects(t.data[rec.boot], records, rec.boot);
    assert rec.seqNo.value in t.data[rec.boot].bySeq;
    AddPresent(t, rec);
    assert (records + [rec])[..|records|] == records;
  }

  lemma AddPresent(t: Table, rec: Record)
    requires WellFormed(t) && rec.boot in t.data && rec.seqNo.Some? && !IsGenesis(rec)
    requires rec.seqNo.value in t.data[rec.boot].bySeq
    ensures Add(t, rec) == t
  {
  }

  /** Both announce the same boot, or both carry the same number of the same boot. */
  predicate SamePlace(r: Record, r': Record) {
    && r.boot == r'.boot && IsGenesis(r) == IsGenesis(r')
    && (IsGenesis(r) || (r.seqNo.Some? && r.seqNo == r'.seqNo))
  }

  /** Records that claim the same place are the same record. */
  ghost predicate NoConflict(records: seq<Record>) {
    forall r, r' :: r in records && r' in records && SamePlace(r, r') ==> r == r'
  }

  lemma SameBoots(a: seq<Record>, b: seq<Record>, t: Table, u: Table)
    requires Groups(t, a) && Groups(u, b)
    requires forall r :: r in a ==> r in b
    ensures forall k :: k in t.data ==> k in u.data
  {
    forall k | k in t.data ensures k in u.data {
      var i :| 0 <= i < |a| && a[i].boot == k;
      assert a[i] in b;
    }
  }

  lemma KeptIsFrom(d: BootData, a: seq<Record>, boot: Text)
    requires Collects(d, a, boot)
    ensures forall s :: s in d.bySeq ==> d.bySeq[s] in a && Numbered(d.bySeq[s], boot, s)
    ensures d.genesis.Some? ==> d.genesis.value in a && Announces(d.genesis.value, boot)
  {
    hide IsGenesis;
  }

  lemma KeepsAll(e: BootData, b: seq<Record>, boot: Text, r: Record)
    requires Collects(e, b, boot) && r in b
    ensures forall s :: Numbered(r, boot, s) ==> s in e.bySeq
    ensures Announces(r, boot) ==> e.genesis.Some?
  {
    hide IsGenesis, FirstNumbered, LastAnnounced;
    var i :| 0 <= i < |b| && b[i] == r;
  }

  /** Without conflicts, whatever the stream holds for a place is what the table keeps for it. */
  lemma OnlyOneKept(e: BootData, b: seq<Record>, boot: Text, r: Record)
    requires Collects(e, b, boot) && NoConflict(b) && r in b
    ensures forall s :: Numbered(r, boot, s) ==> s in e.bySeq && e.bySeq[s] == r
    ensures Announces(r, boot) ==> e.genesis == Some(r)
  {
    hide IsGenesis, Collects;
    KeptIsFrom(e, b, boot);
    KeepsAll(e, b, boot, r);
  }

  lemma SameNumbers(a: seq<Record>, b: seq<Record>, d: BootData, e: BootData, boot: Text)
    requires Collects(d, a, boot) && Collects(e, b, boot)
    requires NoConflict(b) && forall r :: r in a ==> r in b
    ensures forall s :: s in d.bySeq ==> s in e.bySeq && e.bySeq[s] == d.bySeq[s]
    ensures d.genesis.Some? ==> e.genesis == d.genesis
  {
    hide Collects, NoConflict, Numbered, Announces;
    KeptIsFrom(d, a, boot);
    forall s | s in d.bySeq ensures s in e.bySeq && e.bySeq[s] == d.bySeq[s] {
      OnlyOneKept(e, b, boot, d.bySeq[s]);
    }
    if d.genesis.Some? {
      OnlyOneKept(e, b, boot, d.genesis.value);
    }
  }

  lemma SameData(a: seq<Record>, b: seq<Record>, d: BootData, e: BootData, boot: Text)
    requires Collects(d, a, boot) && Collects(e, b, boot)
    requires NoConflict(b) && NoConflict(a) && forall r :: r in a <==> r in b
    ensures d == e
  {
    SameNumbers(a, b, d, e, boot);
    SameNumbers(b, a, e, d, boot);
    assert d.bySeq == e.bySeq;
  }

  lemma SameTables(a: seq<Record>, b: seq<Record>, t: Table, u: Table)
    requires Groups(t, a) && Groups(u, b)
    requires NoConflict(a) && forall r :: r in a <==> r in b
    ensures t.data == u.data
  {
    SameBoots(a, b, t, u);
    SameBoots(b, a, u, t);
    forall k | k in t.data ensures t.data[k] == u.data[k] {
      SameData(a, b, t.data[k], u.data[k], k);
    }
  }

  /** Reordering a stream without conflicting duplicates leaves the set of problems as it was. */
  lemma OrderIrrelevant(hash: Hash, a: seq<Record>, b: seq<Record>, p: Problem)
    requires multiset(a) == multiset(b) && NoConflict(a)
    ensures p in Problems(hash, a) <==> p in Problems(hash, b)
  {
    BuildGroups(a);
    BuildGroups(b);
    forall r ensures r in a <==> r in b { SameElements(a, b, r); }
    SameTables(a, b, Build(a), Build(b));
    ProblemOfBoot(hash, Build(a), p);
    ProblemOfBoot(hash, Build(b), p);
  }

  lemma SameElements<T>(a: seq<T>, b: seq<T>, x: T)
    requires multiset(a) == multiset(b)
    ensures x in a <==> x in b
  {
    assert x in a <==> x in multiset(a);
  }

  // ---------------------------------------------------------------------------
  // Tamper evidence
  // ---------------------------------------------------------------------------

  predicate Linked(bySeq: map<Seq64, Record>, s: Seq64) {
    s in bySeq && (s == 0 || s - 1 in bySeq)
  }

  /** The bytes hashed for the record at `s`. */
  function InputAt(hash: Hash, boot: Text, bySeq: map<Seq64, Record>, s: Seq64): (r: Bytes)
    requires Linked(bySeq, s)
  {
    StepInput(PrevHead(hash, boot, bySeq, s), s, TextOr(bySeq[s].kind), bySeq[s].subject, TextOr(bySeq[s].detail))
  }

  /** No byte string hashed for one stream collides with a different one hashed for the other. */
  ghost predicate NoCollision(hash: Hash, boot: Text, m: map<Seq64, Record>, n: map<Seq64, Record>) {
    forall s, s' :: Linked(m, s) && Linked(n, s') && hash(InputAt(hash, boot, m, s)) == hash(InputAt(hash, boot, n, s'))
      ==> InputAt(hash, boot, m, s) == InputAt(hash, boot, n, s')
  }

  ghost predicate FixedSize(hash: Hash) {
    forall x :: |hash(x)| == 32
  }

  /** Two records say the same; an absent kind or detail reads as an empty one. */
  predicate SameContent(r: Record, r': Record) {
    TextOr(r.kind) == TextOr(r'.kind) && r.subject == r'.subject && TextOr(r.detail) == TextOr(r'.detail)
    && r.head == r'.head
  }

  ghost predicate Whole(hash: Hash, boot: Text, m: map<Seq64, Record>) {
    Contiguous(m) && Replays(hash, boot, m)
  }

  lemma HeadIsDigest(hash: Hash, boot: Text, m: map<Seq64, Record>, s: Seq64)
    requires Whole(hash, boot, m) && s in m
    ensures Linked(m, s) && m[s].head == Hex(hash(InputAt(hash, boot, m, s)))
  {
    assert s > 0 ==> s - 1 in m;
    assert !Broken(hash, boot, m, s);
  }

  /** A stream without a problem never makes the verifier raise. */
  lemma AcceptedReadable(hash: Hash, records: seq<Record>)
    requires Problems(hash, records) == []
    ensures AllReadable(Build(records))
  {
    AcceptedIff(hash, records);
    hide Build, Problems;
    var t := Build(records);
    forall b | b in t.data ensures Readable(t.data[b].bySeq) {
      forall s | s in t.data[b].bySeq ensures !t.data[b].bySeq[s].head.NotHex? {
        HeadIsDigest(hash, b, t.data[b].bySeq, s);
      }
    }
  }

  lemma PrevSize(hash: Hash, boot: Text, m: map<Seq64, Record>, s: Seq64)
    requires FixedSize(hash) && Whole(hash, boot, m) && s in m
    ensures Linked(m, s) && |PrevHead(hash, boot, m, s)| == 32
  {
    assert s > 0 ==> s - 1 in m;
    if s > 0 {
      HeadIsDigest(hash, boot, m, s - 1);
    }
  }

  lemma EqualInputs(hash: Hash, boot: Text, m: map<Seq64, Record>, n: map<Seq64, Record>, s: Seq64, s': Seq64)
    requires Linked(m, s) && Linked(n, s') && InputAt(hash, boot, m, s) == InputAt(hash, boot, n, s')
    requires |PrevHead(hash, boot, m, s)| == |PrevHead(hash, boot, n, s')|
    requires m[s].head == n[s'].head
    ensures s == s' && SameContent(m[s], n[s])
    ensures s > 0 ==> HeadBytes(m[s - 1].head) == HeadBytes(n[s - 1].head)
  {
    StepInputInjective(
      PrevHead(hash, boot, m, s), s, TextOr(m[s].kind), m[s].subject, TextOr(m[s].detail),
      PrevHead(hash, boot, n, s'), s', TextOr(n[s'].kind), n[s'].subject, TextOr(n[s'].detail));
  }

  lemma SameInput(hash: Hash, boot: Text, m: map<Seq64, Record>, n: map<Seq64, Record>, s: Seq64, s': Seq64)
    requires FixedSize(hash) && NoCollision(hash, boot, m, n)
    requires Whole(hash, boot, m) && Whole(hash, boot, n)
    requires s in m && s' in n && m[s].head == n[s'].head
    ensures Linked(m, s) && Linked(n, s') && InputAt(hash, boot, m, s) == InputAt(hash, boot, n, s')
    ensures |PrevHead(hash, boot, m, s)| == |PrevHead(hash, boot, n, s')|
  {
    HeadIsDigest(hash, boot, m, s);
    HeadIsDigest(hash, boot, n, s');
    PrevSize(hash, boot, m, s);
    PrevSize(hash, boot, n, s');
  }

  /** Equal heads come from equal records at the same place, whose predecessors had equal heads. */
  lemma EqualHeads(hash: Hash, boot: Text, m: map<Seq64, Record>, n: map<Seq64, Record>, s: Seq64, s': Seq64)
    requires FixedSize(hash) && NoCollision(hash, boot, m, n)
    requires Whole(hash, boot, m) && Whole(hash, boot, n)
    requires s in m && s' in n && m[s].head == n[s'].head
    ensures s == s' && SameContent(m[s], n[s])
    ensures s > 0 ==> s - 1 in m && s - 1 in n && m[s - 1].head == n[s - 1].head
  {
    hide FixedSize, NoCollision, Whole, SameContent, InputAt, PrevHead;
    SameInput(hash, boot, m, n, s, s');
    EqualInputs(hash, boot, m, n, s, s');
    if s > 0 {
      HeadIsDigest(hash, boot, m, s - 1);
      HeadIsDigest(hash, boot, n, s - 1);
    }
  }

  lemma {:induction false} EqualBelow(
    hash: Hash, boot: Text, m: map<Seq64, Record>, n: map<Seq64, Record>, s: Seq64, x: Seq64)
    requires FixedSize(hash) && NoCollision(hash, boot, m, n)
    requires Whole(hash, boot, m) && Whole(hash, boot, n)
    requires s in m && s in n && m[s].head == n[s].head && x <= s
    ensures x in m && x in n && SameContent(m[x], n[x])
    decreases s
  {
    hide SameContent, NoCollision, Whole, FixedSize;
    EqualHeads(hash, boot, m, n, s, s);
    if x < s {
      EqualBelow(hash, boot, m, n, s - 1, x);
    }
  }

  /** Two accepted streams of one boot that end in the same head hold the same records: the same
      numbers, and the same kind, subject and detail at each. */
  lemma TamperEvident(hash: Hash, boot: Text, a: seq<Record>, b: seq<Record>, top: Seq64, top': Seq64)
    requires FixedSize(hash)
    requires Problems(hash, a) == [] && Problems(hash, b) == []
    requires boot in Build(a).data && boot in Build(b).data
    requires var m, n := Build(a).data[boot].bySeq, Build(b).data[boot].bySeq;
             && NoCollision(hash, boot, m, n)
             && Highest(m, top) && Highest(n, top') && m[top].head == n[top'].head
    ensures var m, n := Build(a).data[boot].bySeq, Build(b).data[boot].bySeq;
            && m.Keys == n.Keys
            && forall s :: s in m ==> SameContent(m[s], n[s])
  {
    AcceptedIff(hash, a);
    AcceptedIff(hash, b);
    var m, n := Build(a).data[boot].bySeq, Build(b).data[boot].bySeq;
    EqualChains(hash, boot, m, n, top, top');
  }

  lemma EqualChains(hash: Hash, boot: Text, m: map<Seq64, Record>, n: map<Seq64, Record>, top: Seq64, top': Seq64)
    requires FixedSize(hash) && NoCollision(hash, boot, m, n)
    requires Whole(hash, boot, m) && Whole(hash, boot, n)
    requires Highest(m, top) && Highest(n, top') && m[top].head == n[top'].head
    ensures m.Keys == n.Keys
    ensures forall s :: s in m ==> SameContent(m[s], n[s])
  {
    hide FixedSize, NoCollision, Whole, SameContent;
    EqualHeads(hash, boot, m, n, top, top');
    forall s: Seq64 ensures (s in m <==> s in n) && (s in m ==> SameContent(m[s], n[s])) {
      if s <= top {
        EqualBelow(hash, boot, m, n, top, s);
      }
    }
  }

  // ---------------------------------------------------------------------------
  // Localisation
  // ---------------------------------------------------------------------------

  function WithRecord(d: BootData, s: Seq64, rec: Record): (r: BootData) {
    d.(bySeq := d.bySeq[s := rec])
  }

  function WithEntry(t: Table, boot: Text, s: Seq64, rec: Record): (r: Table)
    requires boot in t.data
  {
    t.(data := t.data[boot := WithRecord(t.data[boot], s, rec)])
  }

  lemma ReplaceAdds(t: Table, boot: Text, s: Seq64, rec: Record, other: Record)
    requires WellFormed(t) && boot in t.data && s in t.data[boot].bySeq
    ensures boot in Add(t, other).data && s in Add(t, other).data[boot].bySeq
    ensures WellFormed(WithEntry(t, boot, s, rec))
    ensures Add(WithEntry(t, boot, s, rec), other) == WithEntry(Add(t, other), boot, s, rec)
  {
    hide Update, WithRecord, WellFormed;
    WithEntryWellFormed(t, boot, s, rec);
    AddKeeps(t, boot, s, other);
    UpdateCommutes(t.data[boot], s, rec, other);
    assert Add(WithEntry(t, boot, s, rec), other).data == WithEntry(Add(t, other), boot, s, rec).data;
  }

  lemma WithEntryWellFormed(t: Table, boot: Text, s: Seq64, rec: Record)
    requires WellFormed(t) && boot in t.data
    ensures WellFormed(WithEntry(t, boot, s, rec))
  {
  }

  lemma UpdateCommutes(d: BootData, s: Seq64, rec: Record, other: Record)
    requires s in d.bySeq
    ensures Update(WithRecord(d, s, rec), other) == WithRecord(Update(d, other), s, rec)
  {
    assert Update(WithRecord(d, s, rec), other).bySeq == WithRecord(Update(d, other), s, rec).bySeq;
  }

  lemma BuildStep(records: seq<Record>)
    requires records != []
    ensures var n := |records| - 1; Build(records) == Add(Build(records[..n]), records[n])
  {
  }

  /** Rewriting the first record of a number in the stream rewrites just that entry of the table. */
  lemma {:induction false} BuildReplaced(records: seq<Record>, i: nat, boot: Text, s: Seq64, rec: Record)
    requires FirstNumbered(records, boot, s, i) && Numbered(rec, boot, s)
    ensures boot in Build(records).data && s in Build(records).data[boot].bySeq
    ensures Build(records).data[boot].bySeq[s] == records[i]
    ensures Build(records[i := rec]) == WithEntry(Build(records), boot, s, rec)
  {
    hide Add, WithEntry, Collects;
    var n := |records| - 1;
    var front, last := records[..n], records[n];
    BuildStep(records);
    BuildStep(records[i := rec]);
    if i == n {
      assert records[i := rec][..n] == front;
      AddFirst(front, boot, s, last, rec);
    } else {
      assert FirstNumbered(front, boot, s, i);
      BuildReplaced(front, i, boot, s, rec);
      assert records[i := rec][..n] == front[i := rec];
      ReplaceAdds(Build(front), boot, s, rec, last);
      AddKeeps(Build(front), boot, s, last);
    }
  }

  lemma AddKeeps(t: Table, boot: Text, s: Seq64, other: Record)
    requires WellFormed(t) && boot in t.data && s in t.data[boot].bySeq
    ensures boot in Add(t, other).data && s in Add(t, other).data[boot].bySeq
    ensures Add(t, other).data[boot].bySeq[s] == t.data[boot].bySeq[s]
  {
  }

  lemma AddFirst(front: seq<Record>, boot: Text, s: Seq64, old_: Record, new_: Record)
    requires Numbered(old_, boot, s) && Numbered(new_, boot, s)
    requires forall j :: 0 <= j < |front| ==> !Numbered(front[j], boot, s)
    ensures var t := Add(Build(front), old_);
            && boot in t.data && s in t.data[boot].bySeq && t.data[boot].bySeq[s] == old_
            && Add(Build(front), new_) == WithEntry(t, boot, s, new_)
  {
    var t := Build(front);
    BuildGroups(front);
    Untouched(t, front, boot);
    var d := EntryOf(t, boot);
    assert s !in d.bySeq by {
      assert forall i: nat :: !FirstNumbered(front, boot, s, i);
    }
    FirstOfNumber(t, boot, s, old_, new_);
  }

  lemma FirstOfNumber(t: Table, boot: Text, s: Seq64, old_: Record, new_: Record)
    requires WellFormed(t) && Numbered(old_, boot, s) && Numbered(new_, boot, s)
    requires s !in EntryOf(t, boot).bySeq
    ensures var t' := Add(t, old_);
            && boot in t'.data && s in t'.data[boot].bySeq && t'.data[boot].bySeq[s] == old_
            && Add(t, new_) == WithEntry(t', boot, s, new_)
  {
    var d := EntryOf(t, boot);
    assert Update(d, new_).bySeq == WithRecord(Update(d, old_), s, new_).bySeq;
    assert Update(d, new_) == WithRecord(Update(d, old_), s, new_);
    hide Update;
    assert Add(t, new_).data == WithEntry(Add(t, old_), boot, s, new_).data;
  }

  lemma {:induction false} FlattenSingle<T>(parts: seq<seq<T>>, k: nat)
    requires k < |parts| && forall i :: 0 <= i < |parts| && i != k ==> parts[i] == []
    ensures Flatten(parts) == parts[k]
  {
    var n := |parts| - 1;
    if k == n {
      FlattenEmpty(parts[..n]);
    } else {
      FlattenSingle(parts[..n], k);
    }
  }

  /** The bytes that would be hashed for `rec` in the place of the record at `s`. */
  function InputFor(hash: Hash, boot: Text, m: map<Seq64, Record>, s: Seq64, rec: Record): (r: Bytes)
    requires Linked(m, s)
  {
    StepInput(PrevHead(hash, boot, m, s), s, TextOr(rec.kind), rec.subject, TextOr(rec.detail))
  }

  /** `rec` says something else than the record at `s`, and hashing tells the two apart. */
  ghost predicate Altered(hash: Hash, boot: Text, m: map<Seq64, Record>, s: Seq64, rec: Record) {
    && Linked(m, s)
    && rec == m[s].(subject := rec.subject, detail := rec.detail)
    && (rec.subject != m[s].subject || TextOr(rec.detail) != TextOr(m[s].detail))
    && (hash(InputFor(hash, boot, m, s, rec)) == hash(InputFor(hash, boot, m, s, m[s]))
        ==> InputFor(hash, boot, m, s, rec) == InputFor(hash, boot, m, s, m[s]))
  }

  lemma AlteredIsBroken(hash: Hash, boot: Text, m: map<Seq64, Record>, s: Seq64, rec: Record)
    requires Altered(hash, boot, m, s, rec) && !Broken(hash, boot, m, s)
    ensures rec.head != Hex(StepHead(hash, PrevHead(hash, boot, m, s), s, rec))
  {
    var prev := PrevHead(hash, boot, m, s);
    if InputFor(hash, boot, m, s, rec) == InputFor(hash, boot, m, s, m[s]) {
      StepInputInjective(prev, s, TextOr(rec.kind), rec.subject, TextOr(rec.detail),
                         prev, s, TextOr(m[s].kind), m[s].subject, TextOr(m[s].detail));
      assert false;
    }
  }

  lemma AlteredFaults(hash: Hash, boot: Text, m: map<Seq64, Record>, s: Seq64, rec: Record, p: Problem)
    requires Whole(hash, boot, m) && Altered(hash, boot, m, s, rec)
    ensures ChainFault(hash, boot, m[s := rec], p) <==> p == HeadMismatch(boot, s)
  {
    var m' := m[s := rec];
    assert m'.Keys == m.Keys;
    AlteredIsBroken(hash, boot, m, s, rec);
    forall x: Seq64 ensures Broken(hash, boot, m', x) <==> x == s {
      if x in m {
        assert x > 0 ==> x - 1 in m;
        assert PrevHead(hash, boot, m', x) == PrevHead(hash, boot, m, x);
        assert !Broken(hash, boot, m, x);
      }
    }
    forall a: nat, b: nat ensures !MissingRun(m', a, b) {
      if a < b < TWO_64 && b in m { assert a in m; }
    }
  }

  lemma SingleProblem(c: seq<Problem>, p: Problem, bound: nat)
    requires Climbs(c, bound) && forall q :: q in c <==> q == p
    ensures c == [p]
  {
    assert p in c;
    assert |c| >= 2 ==> Place(c[0]) < Place(c[1]);
    forall k | 0 <= k < |c| ensures c[k] == p { assert c[k] in c; }
  }

  lemma AlteredChain(hash: Hash, boot: Text, m: map<Seq64, Record>, s: Seq64, rec: Record)
    requires Whole(hash, boot, m) && Altered(hash, boot, m, s, rec)
    ensures ChainProblems(hash, boot, m[s := rec]) == [HeadMismatch(boot, s)]
  {
    var m' := m[s := rec];
    forall q ensures q in ChainProblems(hash, boot, m') <==> q == HeadMismatch(boot, s) {
      ChainProblemsAre(hash, boot, m', q);
      AlteredFaults(hash, boot, m, s, rec, q);
    }
    var seqs := Sorted(m'.Keys);
    assert IsSorted(seqs, m');
    ChainClimbs(hash, boot, m', seqs, |seqs|);
    SingleProblem(ChainProblems(hash, boot, m'), HeadMismatch(boot, s), ExpectedAt(seqs, |seqs|));
  }

  lemma AlteredClosure(boot: Text, m: map<Seq64, Record>, s: Seq64, rec: Record)
    requires s in m && rec.kind == m[s].kind && ClosureProblems(boot, m) == []
    ensures ClosureProblems(boot, m[s := rec]) == []
  {
    hide Sorted;
    assert m[s := rec].Keys == m.Keys;
  }

  lemma AlteredBoot(hash: Hash, boot: Text, d: BootData, s: Seq64, rec: Record)
    requires Intact(hash, boot, d) && Altered(hash, boot, d.bySeq, s, rec)
    ensures BootProblems(hash, boot, WithRecord(d, s, rec)) == [HeadMismatch(boot, s)]
  {
    hide ChainProblems, ClosureProblems, Replays, Contiguous;
    BootAcceptedIff(hash, boot, d);
    AlteredChain(hash, boot, d.bySeq, s, rec);
    AlteredClosure(boot, d.bySeq, s, rec);
  }

  /** Altering only the subject or the detail of one record of an accepted stream is reported as
      exactly one problem, a head mismatch at that record. */
  lemma Localised(hash: Hash, records: seq<Record>, i: nat, boot: Text, s: Seq64, rec: Record)
    requires Problems(hash, records) == []
    requires FirstNumbered(records, boot, s, i)
    requires boot in Build(records).data && Altered(hash, boot, Build(records).data[boot].bySeq, s, rec)
    ensures Problems(hash, records[i := rec]) == [HeadMismatch(boot, s)]
  {
    var t := Build(records);
    AcceptedIff(hash, records);
    assert Numbered(rec, boot, s) by { FirstIsKept(records, boot, s, i); }
    BuildReplaced(records, i, boot, s, rec);
    LocalisedTable(hash, t, boot, s, rec);
  }

  lemma FirstIsKept(records: seq<Record>, boot: Text, s: Seq64, i: nat)
    requires FirstNumbered(records, boot, s, i)
    ensures boot in Build(records).data && s in Build(records).data[boot].bySeq
    ensures Build(records).data[boot].bySeq[s] == records[i]
  {
    BuildReplaced(records, i, boot, s, records[i]);
  }

  lemma LocalisedTable(hash: Hash, t: Table, boot: Text, s: Seq64, rec: Record)
    requires WellFormed(t) && AllIntact(hash, t) && boot in t.data
    requires Altered(hash, boot, t.data[boot].bySeq, s, rec)
    requires WellFormed(WithEntry(t, boot, s, rec))
    ensures TableProblems(hash, WithEntry(t, boot, s, rec)) == [HeadMismatch(boot, s)]
  {
    hide Intact, BootProblems, Altered, WithRecord, Flatten;
    var t' := WithEntry(t, boot, s, rec);
    var parts := PerBoot(hash, t');
    var k :| 0 <= k < |t.order| && t.order[k] == boot;
    AlteredBoot(hash, boot, t.data[boot], s, rec);
    forall j | 0 <= j < |parts| && j != k ensures parts[j] == [] {
      var b := t.order[j];
      assert b != boot && t'.data[b] == t.data[b];
      BootAcceptedIff(hash, b, t.data[b]);
    }
    FlattenSingle(parts, k);
  }

  // ---------------------------------------------------------------------------
  // The stream the broker writes
  // ---------------------------------------------------------------------------

  datatype Entry = Entry(kind: Text, subject: Option<Text>, detail: Text)

  /** The chain head after the first `k` entries. */
  function HeadAfter(hash: Hash, boot: Text, entries: seq<Entry>, k: nat): (r: Bytes)
    requires k <= |entries| < TWO_64
  {
    if k == 0 then GenesisHead(hash, boot)
    else
      var e := entries[k - 1];
      hash(StepInput(HeadAfter(hash, boot, entries, k - 1), k - 1, e.kind, e.subject, e.detail))
  }

  function ExportedAt(hash: Hash, boot: Text, entries: seq<Entry>, k: nat): (r: Record)
    requires k < |entries| < TWO_64
  {
    Record(boot, Some(k), Some(entries[k].kind), entries[k].subject, Some(entries[k].detail),
           Hex(HeadAfter(hash, boot, entries, k + 1)))
  }

  /** A boot's export: the genesis announcement, then the entries in order. */
  function Exported(hash: Hash, boot: Text, entries: seq<Entry>): (r: seq<Record>)
    requires |entries| < TWO_64
    ensures |r| == |entries| + 1
  {
    [Record(boot, None, Some(GENESIS_KIND), None, None, Hex(GenesisHead(hash, boot)))]
    + seq(|entries|, k requires 0 <= k < |entries| => ExportedAt(hash, boot, entries, k))
  }

  lemma ExportedNumbers(hash: Hash, boot: Text, entries: seq<Entry>, d: BootData)
    requires |entries| < TWO_64
    requires forall k :: 0 <= k < |entries| ==> entries[k].kind != GENESIS_KIND
    requires Collects(d, Exported(hash, boot, entries), boot)
    ensures forall s: Seq64 :: s in d.bySeq <==> s < |entries|
    ensures forall s: Seq64 :: s in d.bySeq ==> d.bySeq[s] == ExportedAt(hash, boot, entries, s)
    ensures d.genesis.Some? && d.genesis.value.head == Hex(GenesisHead(hash, boot))
  {
    hide HeadAfter, GenesisHead;
    var records := Exported(hash, boot, entries);
    assert Announces(records[0], boot);
    forall i: nat | 0 < i < |records|
      ensures records[i] == ExportedAt(hash, boot, entries, i - 1) && !IsGenesis(records[i])
    {
    }
    forall s: Seq64 ensures s in d.bySeq <==> s < |entries| {
      if s < |entries| {
        assert Numbered(records[s + 1], boot, s);
      }
    }
  }

  lemma ExportedReplays(hash: Hash, boot: Text, entries: seq<Entry>, m: map<Seq64, Record>, s: Seq64)
    requires s < |entries| < TWO_64 && s in m && m[s] == ExportedAt(hash, boot, entries, s)
    requires s > 0 ==> s - 1 in m && m[s - 1] == ExportedAt(hash, boot, entries, s - 1)
    ensures !Broken(hash, boot, m, s)
  {
    hide StepInput, GenesisHead;
    assert PrevHead(hash, boot, m, s) == HeadAfter(hash, boot, entries, s);
  }

  /** Non-empty, without a stray genesis, and closed by the shutdown record. */
  ghost predicate Closed(entries: seq<Entry>) {
    && 0 < |entries| < TWO_64
    && (forall k :: 0 <= k < |entries| ==> entries[k].kind != GENESIS_KIND)
    && entries[|entries| - 1].kind == SHUTDOWN_KIND
  }

  lemma ExportedIntact(hash: Hash, boot: Text, entries: seq<Entry>, d: BootData)
    requires Closed(entries) && Collects(d, Exported(hash, boot, entries), boot)
    ensures Intact(hash, boot, d)
  {
    hide Collects, Exported, Broken, HeadAfter, GenesisHead;
    ExportedNumbers(hash, boot, entries, d);
    forall s: Seq64 | s in d.bySeq ensures !Broken(hash, boot, d.bySeq, s) {
      ExportedReplays(hash, boot, entries, d.bySeq, s);
    }
    var last: Seq64 := |entries| - 1;
    forall s: Seq64 | Highest(d.bySeq, s) ensures d.bySeq[s].kind == Some(SHUTDOWN_KIND) {
      assert last in d.bySeq;
    }
  }

  /** Every chain the broker writes and closes is accepted. */
  lemma ExportedAccepted(hash: Hash, boot: Text, entries: seq<Entry>)
    requires Closed(entries)
    ensures Problems(hash, Exported(hash, boot, entries)) == []
  {
    hide Exported, Build, TableProblems, Intact, Collects;
    var records := Exported(hash, boot, entries);
    AcceptedIff(hash, records);
    OneBoot(hash, boot, entries);
    var t := Build(records);
    forall b | b in t.data ensures Intact(hash, b, t.data[b]) {
      ExportedIntact(hash, boot, entries, t.data[b]);
    }
  }

  lemma OneBoot(hash: Hash, boot: Text, entries: seq<Entry>)
    requires |entries| < TWO_64
    ensures forall i :: 0 <= i <= |entries| ==> Exported(hash, boot, entries)[i].boot == boot
  {
    hide HeadAfter;
  }
}
