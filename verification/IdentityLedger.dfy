/** The identity ledger (bench/scale/lane-e-evidence.py): every message a publisher sent, had
    acknowledged, and a subscriber received, by topic and number, and what it means that they close. */
module IdentityLedger {
  import opened Results

  datatype Kind = Sent | Acked | Received

  datatype Topic = Topic(name: string)

  /** A ledger row. `kind` is None when it is not one of the three; `bits` are the numbers recorded. */
  datatype Row = Row(kind: Option<Kind>, topic: Topic, process: string, count: int, bits: set<nat>)

  /** A ledger file; None when it is missing or cut short. */
  type File = Option<seq<Row>>

  type Id = (Topic, nat)
  type Table = map<Topic, set<nat>>

  // ---------------------------------------------------------------------------
  // Identities
  // ---------------------------------------------------------------------------

  function At(m: Table, topic: Topic): (r: set<nat>) {
    if topic in m then m[topic] else {}
  }

  ghost function Ids(m: Table): (r: set<Id>) {
    set t, n | t in m && n in m[t] :: (t, n)
  }

  lemma InIds(m: Table)
    ensures forall i :: i in Ids(m) <==> i.1 in At(m, i.0)
  {
  }

  function Tag(topic: Topic, ns: set<nat>): (r: set<Id>) {
    set n | n in ns :: (topic, n)
  }

  lemma InTag(topic: Topic, ns: set<nat>)
    ensures forall i :: i in Tag(topic, ns) <==> i.0 == topic && i.1 in ns
  {
  }

  function RowIds(r: Row): (ids: set<Id>) {
    Tag(r.topic, r.bits)
  }

  /** Everything the rows of one kind record. */
  function RecordedIds(rows: seq<Row>, kind: Kind): (ids: set<Id>) {
    if rows == [] then {}
    else
      var last := rows[|rows| - 1];
      RecordedIds(rows[..|rows| - 1], kind) + if last.kind == Some(kind) then RowIds(last) else {}
  }

  function Total(rows: seq<Row>, kind: Kind): (n: int) {
    if rows == [] then 0
    else
      var last := rows[|rows| - 1];
      Total(rows[..|rows| - 1], kind) + if last.kind == Some(kind) then last.count else 0
  }

  predicate RowOk(r: Row) {
    r.kind.Some? && r.count >= |r.bits|
  }

  predicate SameKey(a: Row, b: Row) {
    a.kind == b.kind && a.topic == b.topic && a.process == b.process
  }

  ghost predicate RowsOk(rows: seq<Row>, n: nat)
    requires n <= |rows|
  {
    && (forall k :: 0 <= k < n ==> RowOk(rows[k]))
    && (forall i, j :: 0 <= i < j < n ==> !SameKey(rows[i], rows[j]))
  }

  ghost predicate FilesOk(files: seq<File>) {
    forall k :: 0 <= k < |files| ==> FileOk(files[k])
  }

  ghost predicate FileOk(f: File) {
    f.Some? && RowsOk(f.value, |f.value|)
  }

  /** All the rows of the readable files, in order. */
  function AllRows(files: seq<File>): (r: seq<Row>) {
    if files == [] then []
    else
      var last := files[|files| - 1];
      AllRows(files[..|files| - 1]) + if last.Some? then last.value else []
  }

  lemma {:induction false} RecordedConcat(a: seq<Row>, b: seq<Row>, kind: Kind)
    ensures RecordedIds(a + b, kind) == RecordedIds(a, kind) + RecordedIds(b, kind)
    ensures Total(a + b, kind) == Total(a, kind) + Total(b, kind)
  {
    if b == [] {
      assert a + b == a;
    } else {
      RecordedConcat(a, b[..|b| - 1], kind);
      assert (a + b)[..|a + b| - 1] == a + b[..|b| - 1];
    }
  }

  // ---------------------------------------------------------------------------
  // ledger
  // ---------------------------------------------------------------------------

  function Merged(m: Table, r: Row): (next: Table) {
    m[r.topic := At(m, r.topic) + r.bits]
  }

  lemma TableAdd(m: Table, r: Row)
    ensures Ids(Merged(m, r)) == Ids(m) + RowIds(r)
  {
    var next := Merged(m, r);
    InIds(m);
    InIds(next);
    InTag(r.topic, r.bits);
    hide Ids, Tag;
    forall i: Id ensures i in Ids(next) <==> i in Ids(m) + RowIds(r) {
    }
  }

  datatype RowKey = RowKey(kind: Option<Kind>, topic: Topic, process: string)

  function KeyOf(r: Row): (k: RowKey) {
    RowKey(r.kind, r.topic, r.process)
  }

  ghost predicate SeenBefore(rows: seq<Row>, n: nat, k: RowKey)
    requires n <= |rows|
  {
    exists i :: 0 <= i < n && KeyOf(rows[i]) == k
  }

  lemma RowAdded(rows: seq<Row>, n: nat, kind: Kind)
    requires n < |rows|
    ensures RecordedIds(rows[..n + 1], kind) ==
            RecordedIds(rows[..n], kind) + if rows[n].kind == Some(kind) then RowIds(rows[n]) else {}
    ensures Total(rows[..n + 1], kind)
         == Total(rows[..n], kind) + if rows[n].kind == Some(kind) then rows[n].count else 0
  {
    assert rows[..n + 1][..n] == rows[..n];
    hide RowIds;
  }

  ghost predicate SeenAre(seen: set<RowKey>, rows: seq<Row>, n: nat)
    requires n <= |rows|
  {
    forall k :: k in seen <==> SeenBefore(rows, n, k)
  }

  lemma RowSeen(seen: set<RowKey>, rows: seq<Row>, n: nat)
    requires n < |rows| && SeenAre(seen, rows, n)
    ensures SeenAre(seen + {KeyOf(rows[n])}, rows, n + 1)
    ensures RowsOk(rows, n + 1) <==> RowsOk(rows, n) && RowOk(rows[n]) && KeyOf(rows[n]) !in seen
  {
    hide RowOk;
    forall k ensures SeenBefore(rows, n + 1, k) <==> SeenBefore(rows, n, k) || k == KeyOf(rows[n]) {
      if k == KeyOf(rows[n]) { assert KeyOf(rows[n]) == k; }
    }
    forall i | 0 <= i < n ensures KeyOf(rows[i]) == KeyOf(rows[n]) <==> SameKey(rows[i], rows[n]) {}
  }

  lemma RowsOkPrefix(rows: seq<Row>, n: nat)
    requires n <= |rows| && RowsOk(rows, |rows|)
    ensures RowsOk(rows, n)
  {
  }

  /** The table and the total, with these identities and this count added. */
  ghost predicate Adds(more: Table, sum: int, combined: Table, total: int, ids: set<Id>, count: int) {
    Ids(more) == Ids(combined) + ids && sum == total + count
  }

  lemma AddsRow(more: Table, sum: int, combined: Table, total: int, ids: set<Id>, count: int, r: Row)
    requires Adds(more, sum, combined, total, ids, count)
    ensures Adds(Merged(more, r), sum + r.count, combined, total, ids + RowIds(r), count + r.count)
  {
    TableAdd(more, r);
    hide Ids, RowIds;
  }

  /** The first `n` rows, added to what was there. */
  ghost predicate AddsRows(more: Table, sum: int, combined: Table, total: int, rows: seq<Row>, n: nat, kind: Kind)
    requires n <= |rows|
  {
    Adds(more, sum, combined, total, RecordedIds(rows[..n], kind), Total(rows[..n], kind))
  }

  lemma AddsNext(more: Table, sum: int, combined: Table, total: int, rows: seq<Row>, n: nat, kind: Kind)
    requires n < |rows| && AddsRows(more, sum, combined, total, rows, n, kind)
    ensures if rows[n].kind == Some(kind)
            then AddsRows(Merged(more, rows[n]), sum + rows[n].count,
                          combined, total, rows, n + 1, kind)
            else AddsRows(more, sum, combined, total, rows, n + 1, kind)
  {
    RowAdded(rows, n, kind);
    AddsRow(more, sum, combined, total, RecordedIds(rows[..n], kind), Total(rows[..n], kind), rows[n]);
    hide Adds, RecordedIds, Total, RowIds, At;
    assert RecordedIds(rows[..n], kind) + {} == RecordedIds(rows[..n], kind);
  }

  lemma AddsEnds(more: Table, sum: int, combined: Table, total: int, rows: seq<Row>, kind: Kind)
    ensures AddsRows(combined, total, combined, total, rows, 0, kind)
    ensures AddsRows(more, sum, combined, total, rows, |rows|, kind) ==>
              Adds(more, sum, combined, total, RecordedIds(rows, kind), Total(rows, kind))
  {
    assert rows[..0] == [] && rows[..|rows|] == rows;
    hide Ids;
    assert Ids(combined) + {} == Ids(combined);
  }

  /** One file's rows, added to what the files before it gave. */
  method ReadFile(rows: seq<Row>, kind: Kind, combined: Table, total: int) returns (ok: bool, more: Table, sum: int)
    ensures ok <==> RowsOk(rows, |rows|)
    ensures ok ==> Adds(more, sum, combined, total, RecordedIds(rows, kind), Total(rows, kind))
  {
    more, sum := combined, total;
    var seen: set<RowKey> := {};
    AddsEnds(more, sum, combined, total, rows, kind);
    hide Adds, AddsRows, Merged, RecordedIds, Total;
    for k := 0 to |rows|
      invariant RowsOk(rows, k) && SeenAre(seen, rows, k)
      invariant AddsRows(more, sum, combined, total, rows, k, kind)
    {
      ok := false;
      var row := rows[k];
      AddsNext(more, sum, combined, total, rows, k, kind);
      RowSeen(seen, rows, k);
      if RowsOk(rows, |rows|) { RowsOkPrefix(rows, k + 1); }
      hide RowsOk, SeenAre, KeyOf;
      if row.kind.None? || row.count < |row.bits| {
        return;
      }
      if KeyOf(row) in seen {
        return;
      }
      seen := seen + {KeyOf(row)};
      if row.kind == Some(kind) {
        sum := sum + row.count;
        more := Merged(more, row);
      }
    }
    AddsEnds(more, sum, combined, total, rows, kind);
    ok := true;
  }

  /** The table holds what the rows of the kind record, and the total is their counts. */
  ghost predicate Gathered(combined: Table, total: int, rows: seq<Row>, kind: Kind) {
    Ids(combined) == RecordedIds(rows, kind) && total == Total(rows, kind)
  }

  lemma GatheredFile(combined: Table, total: int, rows: seq<Row>, more: Table, sum: int, file: seq<Row>, kind: Kind)
    requires Gathered(combined, total, rows, kind)
    requires Adds(more, sum, combined, total, RecordedIds(file, kind), Total(file, kind))
    ensures Gathered(more, sum, rows + file, kind)
  {
    RecordedConcat(rows, file, kind);
    hide RecordedIds, Total, Ids;
  }

  ghost predicate FilesOkTo(files: seq<File>, n: nat)
    requires n <= |files|
  {
    forall k :: 0 <= k < n ==> FileOk(files[k])
  }

  lemma FileAdded(files: seq<File>, n: nat)
    requires n < |files|
    ensures FilesOkTo(files, n + 1) <==> FilesOkTo(files, n) && FileOk(files[n])
    ensures FilesOk(files) ==> FileOk(files[n])
    ensures AllRows(files[..n + 1]) == AllRows(files[..n]) + if files[n].Some? then files[n].value else []
  {
    assert files[..n + 1][..n] == files[..n];
    hide FileOk;
  }

  /** `ledger`: raises exactly on a missing, truncated or impossible file; otherwise the table holds
      what the rows of the kind record and the total is their counts. */
  method Ledger(files: seq<File>, kind: Kind) returns (r: Result<(Table, int)>)
    ensures r.Ok? <==> FilesOk(files)
    ensures r.Ok? ==> Gathered(r.value.0, r.value.1, AllRows(files), kind)
  {
    var combined, total := map[], 0;
    assert Gathered(combined, total, [], kind) && AllRows(files[..0]) == [];
    assert files[..|files|] == files;
    hide AllRows, Gathered, Adds;
    for k := 0 to |files|
      invariant FilesOkTo(files, k) && Gathered(combined, total, AllRows(files[..k]), kind)
    {
      FileAdded(files, k);
      hide FilesOkTo, RowsOk, FilesOk;
      if files[k].None? {
        return Raised;
      }
      var ok, more, sum := ReadFile(files[k].value, kind, combined, total);
      if !ok {
        return Raised;
      }
      GatheredFile(combined, total, AllRows(files[..k]), more, sum, files[k].value, kind);
      combined, total := more, sum;
    }
    r := Ok((combined, total));
  }

  // ---------------------------------------------------------------------------
  // reconcile
  // ---------------------------------------------------------------------------

  datatype Counts = Counts(missing: nat, unexpected: nat, unacked: nat, unexpectedAcks: nat, unique: nat)

  /** The identities of the topics in `topics`. */
  ghost function On(ids: set<Id>, topics: set<Topic>): (r: set<Id>) {
    set i | i in ids && i.0 in topics
  }

  /** Numbers of one topic that the first table has and the second does not. */
  function Only(a: Table, b: Table, topic: Topic): (r: set<nat>) {
    At(a, topic) - At(b, topic)
  }

  lemma {:induction false} TagSize(topic: Topic, ns: set<nat>)
    ensures |Tag(topic, ns)| == |ns|
  {
    if ns == {} {
      assert Tag(topic, ns) == {};
    } else {
      var n :| n in ns;
      TagSize(topic, ns - {n});
      InTag(topic, ns);
      InTag(topic, ns - {n});
      assert Tag(topic, ns) == Tag(topic, ns - {n}) + {(topic, n)};
    }
  }

  /** Counting a topic at a time counts the whole difference. */
  lemma OnStep(a: Table, b: Table, topics: set<Topic>, topic: Topic)
    requires topic !in topics
    ensures |On(Ids(a) - Ids(b), topics + {topic})| == |On(Ids(a) - Ids(b), topics)| + |Only(a, b, topic)|
  {
    var ids := Ids(a) - Ids(b);
    var mine := Tag(topic, Only(a, b, topic));
    InIds(a);
    InIds(b);
    InTag(topic, Only(a, b, topic));
    hide Ids, Tag;
    assert forall i :: i in mine <==> i in ids && i.0 == topic;
    hide At, Only;
    assert On(ids, topics + {topic}) == On(ids, topics) + mine;
    assert On(ids, topics) !! mine;
    TagSize(topic, Only(a, b, topic));
  }

  lemma OnAll(ids: set<Id>, topics: set<Topic>)
    requires forall i :: i in ids ==> i.0 in topics
    ensures On(ids, topics) == ids
  {
  }

  ghost predicate CountsOn(v: Counts, sent: Table, acked: Table, received: Table, done: set<Topic>) {
    && v.missing == |On(Ids(sent) - Ids(received), done)| && v.unexpected == |On(Ids(received) - Ids(sent), done)|
    && v.unacked == |On(Ids(sent) - Ids(acked), done)| && v.unexpectedAcks == |On(Ids(acked) - Ids(sent), done)|
    && v.unique == |On(Ids(received) - Ids(map[]), done)|
  }

  function Topics(sent: Table, acked: Table, received: Table): (r: set<Topic>) {
    sent.Keys + acked.Keys + received.Keys
  }

  function AddTopic(v: Counts, sent: Table, acked: Table, received: Table, t: Topic): (r: Counts) {
    Counts(v.missing + |Only(sent, received, t)|, v.unexpected + |Only(received, sent, t)|,
           v.unacked + |Only(sent, acked, t)|, v.unexpectedAcks + |Only(acked, sent, t)|,
           v.unique + |Only(received, map[], t)|)
  }

  ghost predicate Split(topics: set<Topic>, todo: set<Topic>, done: set<Topic>) {
    done !! todo && done + todo == topics
  }

  lemma SplitStep(topics: set<Topic>, todo: set<Topic>, done: set<Topic>, t: Topic)
    requires Split(topics, todo, done) && t in todo
    ensures Split(topics, todo - {t}, done + {t}) && t !in done && |todo - {t}| < |todo|
  {
  }

  lemma SplitDone(topics: set<Topic>, done: set<Topic>)
    requires Split(topics, {}, done)
    ensures done == topics
  {
  }

  lemma CountsNone(sent: Table, acked: Table, received: Table)
    ensures CountsOn(Counts(0, 0, 0, 0, 0), sent, acked, received, {})
  {
    hide Ids;
    forall ids: set<Id> ensures On(ids, {}) == {} {}
  }

  lemma CountsStep(v: Counts, sent: Table, acked: Table, received: Table, done: set<Topic>, t: Topic)
    requires CountsOn(v, sent, acked, received, done) && t !in done
    ensures CountsOn(AddTopic(v, sent, acked, received, t), sent, acked, received, done + {t})
  {
    OnStep(sent, received, done, t);
    OnStep(received, sent, done, t);
    OnStep(sent, acked, done, t);
    OnStep(acked, sent, done, t);
    OnStep(received, map[], done, t);
    hide On, Ids, Only;
  }

  lemma CountsAll(v: Counts, sent: Table, acked: Table, received: Table, topics: set<Topic>)
    requires CountsOn(v, sent, acked, received, topics) && topics == Topics(sent, acked, received)
    ensures Reconciled(v, Ids(sent), Ids(acked), Ids(received))
  {
    assert Ids(map[]) == {};
    OnAll(Ids(sent) - Ids(received), topics);
    OnAll(Ids(received) - Ids(sent), topics);
    OnAll(Ids(sent) - Ids(acked), topics);
    OnAll(Ids(acked) - Ids(sent), topics);
    OnAll(Ids(received) - Ids(map[]), topics);
    hide On, Ids;
    assert Ids(received) - {} == Ids(received);
  }

  /** Each count is the size of a difference of identities. */
  ghost predicate Reconciled(v: Counts, sent: set<Id>, acked: set<Id>, received: set<Id>) {
    && v.missing == |sent - received| && v.unexpected == |received - sent|
    && v.unacked == |sent - acked| && v.unexpectedAcks == |acked - sent|
    && v.unique == |received|
  }

  /** `reconcile`, a topic at a time. */
  method Reconcile(sent: Table, acked: Table, received: Table) returns (v: Counts)
    ensures Reconciled(v, Ids(sent), Ids(acked), Ids(received))
  {
    var topics := Topics(sent, acked, received);
    var todo := topics;
    ghost var done: set<Topic> := {};
    v := Counts(0, 0, 0, 0, 0);
    CountsNone(sent, acked, received);
    assert Split(topics, todo, done);
    hide CountsOn, Reconciled, AddTopic, Split, Topics, Ids;
    while todo != {}
      invariant Split(topics, todo, done) && CountsOn(v, sent, acked, received, done)
      decreases |todo|
    {
      var t :| t in todo;
      SplitStep(topics, todo, done, t);
      CountsStep(v, sent, acked, received, done, t);
      v := AddTopic(v, sent, acked, received, t);
      todo, done := todo - {t}, done + {t};
    }
    SplitDone(topics, done);
    CountsAll(v, sent, acked, received, topics);
  }

  /** The bits of a table, counted a topic at a time. */
  method Size(m: Table) returns (n: nat)
    ensures n == |Ids(m)|
  {
    var none := map[];
    var v := Reconcile(none, none, m);
    n := v.unique;
  }

  // ---------------------------------------------------------------------------
  // identity_ledger
  // ---------------------------------------------------------------------------

  datatype Verdict = Verdict(counts: Counts, sent: int, acked: int, received: int, duplicates: int, close: bool)

  /** What the publishers' and the subscribers' own counters said at the end. */
  datatype Terminal = Terminal(sent: int, acked: int, received: int)

  ghost predicate TotalsAre(sent: int, acked: int, received: int, pub: seq<Row>, sub: seq<Row>) {
    sent == Total(pub, Sent) && acked == Total(pub, Acked) && received == Total(sub, Received)
  }

  // ---------------------------------------------------------------------------
  // What it means to close
  // ---------------------------------------------------------------------------

  /** Each row of the kind among the first `n` counts each of its numbers once, and no two of them share
      an identity. */
  ghost predicate OnceTo(rows: seq<Row>, n: nat, kind: Kind)
    requires n <= |rows|
  {
    && (forall k :: 0 <= k < n && rows[k].kind == Some(kind) ==> rows[k].count == |rows[k].bits|)
    && (forall j :: 0 <= j < n && rows[j].kind == Some(kind) ==> ApartFrom(rows, j, kind, rows[j]))
  }

  ghost predicate RecordedOnce(rows: seq<Row>, kind: Kind) {
    OnceTo(rows, |rows|, kind)
  }

  ghost predicate ApartFrom(rows: seq<Row>, n: nat, kind: Kind, r: Row)
    requires n <= |rows|
  {
    forall i :: 0 <= i < n && rows[i].kind == Some(kind) ==> Apart(rows[i], r)
  }

  predicate Apart(a: Row, b: Row) {
    RowIds(a) !! RowIds(b)
  }

  lemma {:induction false} ApartFromAll(rows: seq<Row>, n: nat, kind: Kind, r: Row)
    requires n <= |rows|
    ensures RecordedIds(rows[..n], kind) !! RowIds(r) <==> ApartFrom(rows, n, kind, r)
  {
    if n > 0 {
      ApartFromAll(rows, n - 1, kind, r);
      RowAdded(rows, n - 1, kind);
      hide RowIds, RecordedIds;
    }
  }

  lemma UnionSize(a: set<Id>, b: set<Id>)
    ensures |a + b| <= |a| + |b|
    ensures |a + b| == |a| + |b| <==> a !! b
  {
    assert a + b == a + (b - a) && b == (b - a) + (a * b);
    if a * b == {} { assert a !! b; }
  }

  ghost function IdCount(rows: seq<Row>, n: nat, kind: Kind): (c: nat)
    requires n <= |rows|
  {
    |RecordedIds(rows[..n], kind)|
  }

  function TotalOf(rows: seq<Row>, n: nat, kind: Kind): (c: int)
    requires n <= |rows|
  {
    Total(rows[..n], kind)
  }

  lemma CountNext(rows: seq<Row>, n: nat, kind: Kind)
    requires n < |rows|
    ensures TotalOf(rows, n + 1, kind)
         == TotalOf(rows, n, kind) + if rows[n].kind == Some(kind) then rows[n].count else 0
    ensures rows[n].kind != Some(kind) ==> IdCount(rows, n + 1, kind) == IdCount(rows, n, kind)
    ensures rows[n].kind == Some(kind) ==>
              && IdCount(rows, n + 1, kind) <= IdCount(rows, n, kind) + |rows[n].bits|
              && (IdCount(rows, n + 1, kind) == IdCount(rows, n, kind) + |rows[n].bits| <==>
                    ApartFrom(rows, n, kind, rows[n]))
  {
    RowAdded(rows, n, kind);
    var ids, r := RecordedIds(rows[..n], kind), rows[n];
    hide RecordedIds, Total;
    if r.kind == Some(kind) {
      ApartFromAll(rows, n, kind, r);
      TagSize(r.topic, r.bits);
      hide ApartFrom, Tag;
      UnionSize(ids, RowIds(r));
    } else {
      assert ids + {} == ids;
    }
  }

  lemma OnceNext(rows: seq<Row>, n: nat, kind: Kind)
    requires n < |rows|
    ensures OnceTo(rows, n + 1, kind) <==>
            && OnceTo(rows, n, kind)
            && (rows[n].kind == Some(kind) ==> rows[n].count == |rows[n].bits| && ApartFrom(rows, n, kind, rows[n]))
  {
    hide ApartFrom;
  }

  lemma NoneCounted(rows: seq<Row>, kind: Kind)
    ensures IdCount(rows, 0, kind) == TotalOf(rows, 0, kind) == 0 && OnceTo(rows, 0, kind)
  {
    assert rows[..0] == [];
  }

  lemma {:induction false} TotalTo(rows: seq<Row>, n: nat, kind: Kind)
    requires n <= |rows| && forall k :: 0 <= k < |rows| ==> RowOk(rows[k])
    ensures IdCount(rows, n, kind) <= TotalOf(rows, n, kind)
    ensures TotalOf(rows, n, kind) == IdCount(rows, n, kind) <==> OnceTo(rows, n, kind)
  {
    hide IdCount, TotalOf, OnceTo, ApartFrom;
    if n == 0 {
      NoneCounted(rows, kind);
    } else {
      assert RowOk(rows[n - 1]);
      TotalTo(rows, n - 1, kind);
      OnceNext(rows, n - 1, kind);
      CountNext(rows, n - 1, kind);
    }
  }

  /** The total never falls short of the identities, and equals them exactly when each was recorded once. */
  lemma TotalIff(rows: seq<Row>, kind: Kind)
    requires forall k :: 0 <= k < |rows| ==> RowOk(rows[k])
    ensures |RecordedIds(rows, kind)| <= Total(rows, kind)
    ensures Total(rows, kind) == |RecordedIds(rows, kind)| <==> RecordedOnce(rows, kind)
  {
    TotalTo(rows, |rows|, kind);
    assert rows[..|rows|] == rows;
    hide RecordedIds, Total, OnceTo;
  }

  lemma {:induction false} AllRowsOk(files: seq<File>)
    requires FilesOk(files)
    ensures forall k :: 0 <= k < |AllRows(files)| ==> RowOk(AllRows(files)[k])
  {
    if files != [] {
      AllRowsOk(files[..|files| - 1]);
      assert RowsOk(files[|files| - 1].value, |files[|files| - 1].value|);
      hide RowOk;
    }
  }

  lemma NoDifference(a: set<Id>, b: set<Id>)
    ensures |a - b| == 0 && |b - a| == 0 <==> a == b
  {
    if |a - b| == 0 && |b - a| == 0 {
      assert a - b == {} && b - a == {};
      assert forall i :: i in a ==> i !in a - b ==> i in b;
      assert forall i :: i in b ==> i !in b - a ==> i in a;
    }
  }

  /** Something was sent, each sent identity was recorded once across all the publishers' rows, and the
      sent, the acknowledged and the received identities are the same. */
  ghost predicate Closed(p: seq<Row>, q: seq<Row>) {
    && RecordedIds(p, Sent) != {} && RecordedOnce(p, Sent)
    && RecordedIds(p, Sent) == RecordedIds(p, Acked) == RecordedIds(q, Received)
  }

  /** What `identities_close` computes from totals and counts is that. */
  lemma ClosesIff(v: Verdict, p: seq<Row>, q: seq<Row>)
    requires Reconciled(v.counts, RecordedIds(p, Sent), RecordedIds(p, Acked), RecordedIds(q, Received))
    requires TotalsAre(v.sent, v.acked, v.received, p, q) && forall k :: 0 <= k < |p| ==> RowOk(p[k])
    requires v.close <==> v.sent != 0 && v.sent == |RecordedIds(p, Sent)|
                          && v.counts.missing == v.counts.unexpected == v.counts.unacked == v.counts.unexpectedAcks == 0
    ensures v.close <==> Closed(p, q)
  {
    TotalIff(p, Sent);
    NoDifference(RecordedIds(p, Sent), RecordedIds(p, Acked));
    NoDifference(RecordedIds(p, Sent), RecordedIds(q, Received));
    hide RecordedIds, Total, RecordedOnce;
  }

  /** Duplicates are never negative, and no number of them hides a loss: a message that was sent and not
      received is counted missing whatever the totals. */
  lemma LossShows(v: Verdict, p: seq<Row>, q: seq<Row>)
    requires Reconciled(v.counts, RecordedIds(p, Sent), RecordedIds(p, Acked), RecordedIds(q, Received))
    requires TotalsAre(v.sent, v.acked, v.received, p, q) && forall k :: 0 <= k < |q| ==> RowOk(q[k])
    requires v.duplicates == v.received - v.counts.unique
    ensures v.duplicates >= 0
    ensures v.duplicates == 0 <==> RecordedOnce(q, Received)
    ensures v.counts.missing > 0 <==> exists i :: i in RecordedIds(p, Sent) && i !in RecordedIds(q, Received)
  {
    TotalIff(q, Received);
    var lost := RecordedIds(p, Sent) - RecordedIds(q, Received);
    hide RecordedIds, Total, RecordedOnce;
    if i :| i in lost { assert lost != {}; } else { assert lost == {}; }
  }

  /** `identity_ledger`: raises exactly when a ledger file is not usable or disagrees with the endpoints'
      own terminal counters. */
  method ReadLedgers(pub: seq<File>, sub: seq<File>, terminal: Terminal) returns (r: Result<Verdict>)
    ensures r.Ok? <==> FilesOk(pub) && FilesOk(sub) &&
                       TotalsAre(terminal.sent, terminal.acked, terminal.received, AllRows(pub), AllRows(sub))
    ensures r.Ok? ==>
              var v, p, q := r.value, AllRows(pub), AllRows(sub);
              && Reconciled(v.counts, RecordedIds(p, Sent), RecordedIds(p, Acked), RecordedIds(q, Received))
              && TotalsAre(v.sent, v.acked, v.received, p, q)
              && v.duplicates == v.received - v.counts.unique
              && v.duplicates >= 0 && (v.duplicates == 0 <==> RecordedOnce(q, Received))
              && (v.close <==> Closed(p, q))
  {
    hide FilesOk, AllRows, RecordedIds, Total, Ids, Reconciled, RecordedOnce, Closed, RowOk;
    var s := Ledger(pub, Sent);
    if s.Raised? { return Raised; }
    var a := Ledger(pub, Acked);
    if a.Raised? { return Raised; }
    var d := Ledger(sub, Received);
    if d.Raised? { return Raised; }
    var counts := Reconcile(s.value.0, a.value.0, d.value.0);
    if terminal.sent != s.value.1 || terminal.acked != a.value.1 || terminal.received != d.value.1 {
      return Raised;
    }
    var unique := Size(s.value.0);
    var none := counts.missing == 0 && counts.unexpected == 0 && counts.unacked == 0 && counts.unexpectedAcks == 0;
    r := Ok(Verdict(counts, s.value.1, a.value.1, d.value.1, d.value.1 - counts.unique,
                    s.value.1 != 0 && s.value.1 == unique && none));
    AllRowsOk(pub);
    AllRowsOk(sub);
    ClosesIff(r.value, AllRows(pub), AllRows(sub));
    LossShows(r.value, AllRows(pub), AllRows(sub));
  }
}
