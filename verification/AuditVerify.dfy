/** The audit stream verifier (scripts/audit-verify.py): grouping by boot, de-duplication, chain
    replay with resynchronisation across gaps and mismatches, and closure. */
module AuditVerify {
  import opened Results
  import opened Framing
  import opened AuditChain

  /** What the verifier keeps per boot: the last genesis record, and the first record per seq. */
  datatype BootData = BootData(genesis: Option<Record>, bySeq: map<Seq64, Record>)

  /** Boots in order of first appearance, and their data. */
  datatype Table = Table(order: seq<Text>, data: map<Text, BootData>)

  predicate IsGenesis(rec: Record) {
    rec.kind == Some(GENESIS_KIND)
  }

  /** The text is these characters. */
  predicate Reads(t: Text, s: string) {
    |t| == |s| && forall i :: 0 <= i < |s| ==> t[i] == s[i] as int
  }

  /** The two kinds that mean something to the verifier, as they are spelt. */
  lemma KindsSpelt(rec: Record)
    ensures IsGenesis(rec) <==> rec.kind.Some? && Reads(rec.kind.value, "audit.genesis")
    ensures rec.kind == Some(SHUTDOWN_KIND) <==> rec.kind.Some? && Reads(rec.kind.value, "audit.shutdown")
  {
    if rec.kind.Some? {
      var k := rec.kind.value;
      if Reads(k, "audit.genesis") { assert k == GENESIS_KIND; }
      if Reads(k, "audit.shutdown") { assert k == SHUTDOWN_KIND; }
    }
  }

  function TextOr(t: Option<Text>): (r: Text) {
    if t.Some? then t.value else []
  }

  function StepHead(hash: Hash, prev: Bytes, s: Seq64, rec: Record): (r: Bytes) {
    hash(StepInput(prev, s, TextOr(rec.kind), rec.subject, TextOr(rec.detail)))
  }

  // ---------------------------------------------------------------------------
  // Grouping
  // ---------------------------------------------------------------------------

  ghost predicate WellFormed(t: Table) {
    && (forall b :: b in t.data <==> b in t.order)
    && (forall i, j :: 0 <= i < j < |t.order| ==> t.order[i] != t.order[j])
  }

  /** The boot's entry, empty when the boot is new. */
  function EntryOf(t: Table, boot: Text): (d: BootData) {
    if boot in t.data then t.data[boot] else BootData(None, map[])
  }

  /** A genesis record replaces the one before; a numbered record is kept only if it is the first. */
  function Update(d: BootData, rec: Record): (r: BootData) {
    if IsGenesis(rec) then d.(genesis := Some(rec))
    else if rec.seqNo.Some? && rec.seqNo.value !in d.bySeq then d.(bySeq := d.bySeq[rec.seqNo.value := rec])
    else d
  }

  function Add(t: Table, rec: Record): (r: Table)
    requires WellFormed(t)
    ensures WellFormed(r)
  {
    Table(if rec.boot in t.data then t.order else t.order + [rec.boot],
          t.data[rec.boot := Update(EntryOf(t, rec.boot), rec)])
  }

  function Build(records: seq<Record>): (t: Table)
    ensures WellFormed(t)
  {
    if records == [] then Table([], map[])
    else Add(Build(records[..|records| - 1]), records[|records| - 1])
  }

  // ---------------------------------------------------------------------------
  // One boot
  // ---------------------------------------------------------------------------

  ghost predicate Ascending(s: seq<Seq64>) {
    forall i, j :: 0 <= i < j < |s| ==> s[i] < s[j]
  }

  function Least(s: set<Seq64>): (m: Seq64)
    requires s != {}
    ensures m in s && forall x :: x in s ==> m <= x
  {
    LeastExists(s);
    var m :| m in s && forall x :: x in s ==> m <= x;
    m
  }

  lemma {:induction false} LeastExists(s: set<Seq64>)
    requires s != {}
    ensures exists m :: m in s && forall x :: x in s ==> m <= x
  {
    var m := LeastOf(s);
  }

  lemma {:induction false} LeastOf(s: set<Seq64>) returns (m: Seq64)
    requires s != {}
    ensures m in s && forall x :: x in s ==> m <= x
  {
    var y :| y in s;
    var rest := s - {y};
    assert forall x :: x in s ==> x == y || x in rest;
    m := y;
    if rest != {} {
      var n := LeastOf(rest);
      m := if n < y then n else y;
    }
  }

  function Sorted(s: set<Seq64>): (r: seq<Seq64>)
    ensures Ascending(r)
    ensures forall x :: x in r <==> x in s
  {
    if s == {} then [] else [Least(s)] + Sorted(s - {Least(s)})
  }

  /** The chain position before the k-th record in sequence order, and the number expected there. */
  function PrevAt(hash: Hash, boot: Text, bySeq: map<Seq64, Record>, seqs: seq<Seq64>, k: nat): (r: Bytes)
    requires k <= |seqs| && forall i :: 0 <= i < |seqs| ==> seqs[i] in bySeq
  {
    if k == 0 then GenesisHead(hash, boot) else HeadBytes(bySeq[seqs[k - 1]].head)
  }

  function ExpectedAt(seqs: seq<Seq64>, k: nat): (n: nat)
    requires k <= |seqs|
  {
    if k == 0 then 0 else seqs[k - 1] as int + 1
  }

  function ProblemAt(hash: Hash, boot: Text, bySeq: map<Seq64, Record>, seqs: seq<Seq64>, k: nat): (r: seq<Problem>)
    requires k < |seqs| && forall i :: 0 <= i < |seqs| ==> seqs[i] in bySeq
  {
    var s := seqs[k];
    if s != ExpectedAt(seqs, k) then [Gap(boot, ExpectedAt(seqs, k), s)]
    else if bySeq[s].head != Hex(StepHead(hash, PrevAt(hash, boot, bySeq, seqs, k), s, bySeq[s]))
    then [HeadMismatch(boot, s)]
    else []
  }

  function ChainTo(hash: Hash, boot: Text, bySeq: map<Seq64, Record>, seqs: seq<Seq64>, k: nat): (r: seq<Problem>)
    requires k <= |seqs| && forall i :: 0 <= i < |seqs| ==> seqs[i] in bySeq
  {
    if k == 0 then []
    else ChainTo(hash, boot, bySeq, seqs, k - 1) + ProblemAt(hash, boot, bySeq, seqs, k - 1)
  }

  function ChainProblems(hash: Hash, boot: Text, bySeq: map<Seq64, Record>): (r: seq<Problem>) {
    var seqs := Sorted(bySeq.Keys);
    ChainTo(hash, boot, bySeq, seqs, |seqs|)
  }

  function GenesisProblems(hash: Hash, boot: Text, genesis: Option<Record>): (r: seq<Problem>) {
    if genesis.None? then [NoGenesis(boot)]
    else if genesis.value.head != Hex(GenesisHead(hash, boot)) then [BadGenesis(boot)]
    else []
  }

  function ClosureProblems(boot: Text, bySeq: map<Seq64, Record>): (r: seq<Problem>) {
    var seqs := Sorted(bySeq.Keys);
    if seqs == [] then []
    else
      var last := bySeq[seqs[|seqs| - 1]].kind;
      if last != Some(SHUTDOWN_KIND) then [NotClosed(boot, last)] else []
  }

  function BootProblems(hash: Hash, boot: Text, d: BootData): (r: seq<Problem>) {
    GenesisProblems(hash, boot, d.genesis) + ChainProblems(hash, boot, d.bySeq) + ClosureProblems(boot, d.bySeq)
  }

  function Flatten<T>(parts: seq<seq<T>>): (r: seq<T>) {
    if parts == [] then [] else Flatten(parts[..|parts| - 1]) + parts[|parts| - 1]
  }

  /** Each boot's problems, in the order the boots first appeared. */
  function PerBoot(hash: Hash, t: Table): (r: seq<seq<Problem>>)
    requires WellFormed(t)
    ensures |r| == |t.order|
    ensures forall i :: 0 <= i < |r| ==> r[i] == BootProblems(hash, t.order[i], t.data[t.order[i]])
  {
    seq(|t.order|, i requires 0 <= i < |t.order| => BootProblems(hash, t.order[i], t.data[t.order[i]]))
  }

  function TableProblems(hash: Hash, t: Table): (r: seq<Problem>)
    requires WellFormed(t)
  {
    Flatten(PerBoot(hash, t))
  }

  function Problems(hash: Hash, records: seq<Record>): (r: seq<Problem>) {
    TableProblems(hash, Build(records))
  }

  // ---------------------------------------------------------------------------
  // The verifier's loops
  // ---------------------------------------------------------------------------

  /** Every kept record's head is hex, so that replaying can decode it. */
  ghost predicate Readable(bySeq: map<Seq64, Record>) {
    forall s :: s in bySeq ==> !bySeq[s].head.NotHex?
  }

  lemma ReplayStart(hash: Hash, boot: Text, bySeq: map<Seq64, Record>, seqs: seq<Seq64>)
    requires forall i :: 0 <= i < |seqs| ==> seqs[i] in bySeq
    ensures PrevAt(hash, boot, bySeq, seqs, 0) == GenesisHead(hash, boot) && ExpectedAt(seqs, 0) == 0
    ensures ChainTo(hash, boot, bySeq, seqs, 0) == []
  {
  }

  lemma ReplayNext(hash: Hash, boot: Text, bySeq: map<Seq64, Record>, seqs: seq<Seq64>, k: nat)
    requires k < |seqs| && forall i :: 0 <= i < |seqs| ==> seqs[i] in bySeq
    ensures PrevAt(hash, boot, bySeq, seqs, k + 1) == HeadBytes(bySeq[seqs[k]].head)
    ensures ExpectedAt(seqs, k + 1) == seqs[k] as int + 1
    ensures ChainTo(hash, boot, bySeq, seqs, k + 1)
         == ChainTo(hash, boot, bySeq, seqs, k) + ProblemAt(hash, boot, bySeq, seqs, k)
  {
  }

  /** The replay of one boot's records in sequence order; raises on a head it must decode and cannot. */
  /** The replay of one boot's records in sequence order; raises on a head it must decode and cannot. */
  method Replay(hash: Hash, boot: Text, bySeq: map<Seq64, Record>, seqs: seq<Seq64>)
    returns (r: Result<(seq<Problem>, Option<Text>)>)
    requires forall i :: 0 <= i < |seqs| ==> seqs[i] in bySeq
    ensures r.Ok? <==> forall i :: 0 <= i < |seqs| ==> !bySeq[seqs[i]].head.NotHex?
    ensures r.Ok? ==> r.value.0 == ChainTo(hash, boot, bySeq, seqs, |seqs|)
    ensures r.Ok? ==> r.value.1 == if seqs == [] then None else bySeq[seqs[|seqs| - 1]].kind
  {
    hide GenesisHead, StepHead, PrevAt, ExpectedAt, ChainTo;
    ReplayStart(hash, boot, bySeq, seqs);
    var problems: seq<Problem> := [];
    var prev := GenesisHead(hash, boot);
    var expected: nat := 0;
    var lastKind: Option<Text> := None;
    var k := 0;
    while k < |seqs|
      invariant 0 <= k <= |seqs|
      invariant forall i :: 0 <= i < k ==> !bySeq[seqs[i]].head.NotHex?
      invariant prev == PrevAt(hash, boot, bySeq, seqs, k) && expected == ExpectedAt(seqs, k)
      invariant lastKind == if k == 0 then None else bySeq[seqs[k - 1]].kind
      invariant problems == ChainTo(hash, boot, bySeq, seqs, k)
    {
      ReplayNext(hash, boot, bySeq, seqs, k);
      var s := seqs[k];
      var rec := bySeq[s];
      lastKind := rec.kind;
      if s != expected {
        problems := problems + [Gap(boot, expected, s)];
        if rec.head.NotHex? {
          return Raised;
        }
        prev := rec.head.digest;
        expected := s as int + 1;
      } else {
        prev := StepHead(hash, prev, s, rec);
        if rec.head != Hex(prev) {
          problems := problems + [HeadMismatch(boot, s)];
          if rec.head.NotHex? {
            return Raised;
          }
          prev := rec.head.digest;
        }
        expected := expected + 1;
      }
      k := k + 1;
    }
    r := Ok((problems, lastKind));
  }

  lemma SortedKeys(bySeq: map<Seq64, Record>)
    ensures var seqs := Sorted(bySeq.Keys);
            && (forall i :: 0 <= i < |seqs| ==> seqs[i] in bySeq)
            && (Readable(bySeq) <==> forall i :: 0 <= i < |seqs| ==> !bySeq[seqs[i]].head.NotHex?)
  {
    var seqs := Sorted(bySeq.Keys);
    assert forall i :: 0 <= i < |seqs| ==> seqs[i] in seqs;
  }

  method VerifyBoot(hash: Hash, boot: Text, data: BootData) returns (r: Result<seq<Problem>>)
    ensures r.Ok? <==> Readable(data.bySeq)
    ensures r.Ok? ==> r.value == BootProblems(hash, boot, data)
  {
    hide ChainTo, GenesisHead, Sorted, Readable;
    SortedKeys(data.bySeq);
    var problems: seq<Problem> := [];
    if data.genesis.None? {
      problems := problems + [NoGenesis(boot)];
    } else if data.genesis.value.head != Hex(GenesisHead(hash, boot)) {
      problems := problems + [BadGenesis(boot)];
    }
    assert problems == GenesisProblems(hash, boot, data.genesis);
    var seqs := Sorted(data.bySeq.Keys);
    var replayed := Replay(hash, boot, data.bySeq, seqs);
    if replayed.Raised? {
      return Raised;
    }
    var (chain, lastKind) := replayed.value;
    assert chain == ChainProblems(hash, boot, data.bySeq);
    problems := problems + chain;
    ghost var soFar := problems;
    if seqs != [] && lastKind != Some(SHUTDOWN_KIND) {
      problems := problems + [NotClosed(boot, lastKind)];
    }
    assert problems == soFar + ClosureProblems(boot, data.bySeq);
    r := Ok(problems);
  }

  method Group(records: seq<Record>) returns (boots: Table)
    ensures boots == Build(records)
  {
    boots := Table([], map[]);
    var i := 0;
    while i < |records|
      invariant 0 <= i <= |records|
      invariant boots == Build(records[..i])
    {
      assert records[..i + 1][..i] == records[..i];
      boots := Add(boots, records[i]);
      i := i + 1;
    }
    assert records[..i] == records;
  }

  ghost predicate AllReadable(t: Table) {
    forall b :: b in t.data ==> Readable(t.data[b].bySeq)
  }

  ghost predicate ReadableTo(t: Table, n: nat)
    requires WellFormed(t) && n <= |t.order|
  {
    forall i :: 0 <= i < n ==> Readable(t.data[t.order[i]].bySeq)
  }

  lemma AllReadableIff(t: Table)
    requires WellFormed(t)
    ensures AllReadable(t) <==> ReadableTo(t, |t.order|)
  {
    hide Readable;
    forall b | b in t.data ensures exists i :: 0 <= i < |t.order| && t.order[i] == b { assert b in t.order; }
  }

  lemma FlattenNext<T>(parts: seq<seq<T>>, n: nat)
    requires n < |parts|
    ensures Flatten(parts[..n + 1]) == Flatten(parts[..n]) + parts[n]
  {
    assert parts[..n + 1][..n] == parts[..n];
  }

  lemma TableStart(hash: Hash, t: Table)
    requires WellFormed(t)
    ensures ReadableTo(t, 0) && Flatten(PerBoot(hash, t)[..0]) == []
    ensures TableProblems(hash, t) == Flatten(PerBoot(hash, t)[..|t.order|])
  {
    assert PerBoot(hash, t)[..|t.order|] == PerBoot(hash, t);
  }

  lemma TableNext(hash: Hash, t: Table, n: nat)
    requires WellFormed(t) && n < |t.order|
    ensures t.order[n] in t.data
    ensures ReadableTo(t, n + 1) <==> ReadableTo(t, n) && Readable(t.data[t.order[n]].bySeq)
    ensures Flatten(PerBoot(hash, t)[..n + 1])
         == Flatten(PerBoot(hash, t)[..n]) + BootProblems(hash, t.order[n], t.data[t.order[n]])
  {
    hide Readable, BootProblems, Flatten;
    assert t.order[n] in t.order;
    FlattenNext(PerBoot(hash, t), n);
  }

  lemma ReadablePrefix(t: Table, n: nat)
    requires WellFormed(t) && n <= |t.order| && ReadableTo(t, |t.order|)
    ensures ReadableTo(t, n)
  {
    hide Readable;
  }

  method VerifyTable(hash: Hash, boots: Table) returns (r: Result<seq<Problem>>)
    requires WellFormed(boots)
    ensures r.Ok? <==> AllReadable(boots)
    ensures r.Ok? ==> r.value == TableProblems(hash, boots)
  {
    hide WellFormed, BootProblems, Readable, AllReadable, ReadableTo, Flatten, PerBoot, TableProblems;
    ghost var parts := PerBoot(hash, boots);
    var problems: seq<Problem> := [];
    AllReadableIff(boots);
    TableStart(hash, boots);
    var n := 0;
    while n < |boots.order|
      invariant 0 <= n <= |boots.order|
      invariant ReadableTo(boots, n)
      invariant problems == Flatten(parts[..n])
    {
      TableNext(hash, boots, n);
      var more := VerifyBoot(hash, boots.order[n], boots.data[boots.order[n]]);
      if more.Raised? {
        if ReadableTo(boots, |boots.order|) {
          ReadablePrefix(boots, n + 1);
        }
        return Raised;
      }
      problems := problems + more.value;
      n := n + 1;
    }
    r := Ok(problems);
  }

  /** The whole verifier: group the records, then check boot after boot. It raises exactly when a record
      it keeps has a head that is not hex. */
  method Verify(hash: Hash, records: seq<Record>) returns (r: Result<seq<Problem>>)
    ensures r.Ok? <==> AllReadable(Build(records))
    ensures r.Ok? ==> r.value == Problems(hash, records)
  {
    var boots := Group(records);
    r := VerifyTable(hash, boots);
  }
}
