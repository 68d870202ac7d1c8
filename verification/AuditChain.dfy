/** The verifier of the hash-chained audit export (scripts/audit-verify.py). SHA-256 is a parameter
    `hash`; where a result needs it to be collision free, that is asked only of the byte strings the
    streams under discussion feed into it. A record is what the JSON decoder yields: text fields as
    their UTF-8 bytes, `head` as what its text names, `seq` an unsigned 64-bit number. */
module AuditChain {
  import opened Results
  import opened Framing

  const TWO_64: int := 0x1_0000_0000_0000_0000

  type Seq64 = n: int | 0 <= n < TWO_64
  type Text = t: Bytes | |t| < TWO_64
  type Hash = Bytes -> Bytes

  /** A head's text: the lower-case hex of a digest, as the broker writes it; some other hex spelling of
      one (upper case, spaces); or no hex at all. */
  datatype Head = Hex(digest: Bytes) | OtherHex(digest: Bytes) | NotHex

  /** What decoding the text yields; nothing when it raises. */
  function HeadBytes(h: Head): (r: Bytes) {
    if h.NotHex? then [] else h.digest
  }

  datatype Record = Record(boot: Text, seqNo: Option<Seq64>, kind: Option<Text>, subject: Option<Text>,
                           detail: Option<Text>, head: Head)

  datatype Problem =
    | NoGenesis(boot: Text)
    | BadGenesis(boot: Text)
    | Gap(boot: Text, expected: nat, next: nat)
    | HeadMismatch(boot: Text, seqNo: nat)
    | NotClosed(boot: Text, lastKind: Option<Text>)

  function Ascii(s: string): (r: Bytes)
    requires forall i :: 0 <= i < |s| ==> s[i] < 128 as char
    ensures |r| == |s|
  {
    seq(|s|, i requires 0 <= i < |s| => s[i] as int)
  }

  const CHAIN_GENESIS: Bytes := Ascii("mqttd-audit-chain-genesis:v1:boot:")
  const GENESIS_KIND: Bytes := Ascii("audit.genesis")
  const SHUTDOWN_KIND: Bytes := Ascii("audit.shutdown")

  // ---------------------------------------------------------------------------
  // The hashed encoding
  // ---------------------------------------------------------------------------

  /** `n` in `k` big-endian bytes. */
  function BigEndian(n: nat, k: nat): (r: Bytes)
    ensures |r| == k
  {
    if k == 0 then [] else BigEndian(n / 256, k - 1) + [n % 256]
  }

  function U64(n: Seq64): (r: Bytes)
    ensures |r| == 8
  {
    BigEndian(n, 8)
  }

  /** A length-prefixed field. */
  function Lp(b: Text): (r: Bytes) {
    U64(|b|) + b
  }

  function SubjectField(subject: Option<Text>): (r: Bytes) {
    if subject.None? then [0] else [1] + Lp(subject.value)
  }

  /** Everything one step of the chain hashes, in order. */
  function StepInput(prev: Bytes, seqNo: Seq64, kind: Text, subject: Option<Text>, detail: Text): (r: Bytes) {
    prev + (U64(seqNo) + (Lp(kind) + (SubjectField(subject) + Lp(detail))))
  }

  function GenesisHead(hash: Hash, boot: Text): (r: Bytes) {
    hash(CHAIN_GENESIS + boot)
  }

  function Pow256(k: nat): (r: nat)
    ensures r >= 1
  {
    if k == 0 then 1 else 256 * Pow256(k - 1)
  }

  lemma {:induction false} BigEndianInjective(a: nat, b: nat, k: nat)
    requires a < Pow256(k) && b < Pow256(k)
    requires BigEndian(a, k) == BigEndian(b, k)
    ensures a == b
    decreases k
  {
    if k > 0 {
      var x, y := BigEndian(a, k), BigEndian(b, k);
      assert x[..k - 1] == BigEndian(a / 256, k - 1) && y[..k - 1] == BigEndian(b / 256, k - 1);
      assert x[k - 1] == a % 256 && y[k - 1] == b % 256;
      BigEndianInjective(a / 256, b / 256, k - 1);
    }
  }

  lemma Monotone(d: nat, a: nat, b: nat)
    ensures a <= b ==> d * a <= d * b
  {
  }

  lemma Quotient(n: nat, d: nat, q: nat, r: nat)
    requires 0 < d && n == d * q + r && r < d
    ensures n / d == q
  {
    var q', r' := n / d, n % d;
    assert d * q' + r' == d * q + r;
    Monotone(d, q' + 1, q);
    Monotone(d, q + 1, q');
  }

  lemma DivideTwice(n: nat, b: nat)
    requires 0 < b
    ensures n / 256 / b == n / (256 * b)
  {
    var q2, r2 := n / 256 / b, n / 256 % b;
    assert n / 256 == b * q2 + r2;
    assert 256 * (b * q2) == 256 * b * q2;
    Quotient(n, 256 * b, q2, 256 * r2 + n % 256);
  }

  /** The bytes by position: the highest first. */
  lemma {:induction false} BigEndianAt(n: nat, k: nat, i: nat)
    requires i < k
    ensures BigEndian(n, k)[i] == n / Pow256(k - 1 - i) % 256
    decreases k
  {
    if i < k - 1 {
      BigEndianAt(n / 256, k - 1, i);
      DivideTwice(n, Pow256(k - 2 - i));
    }
  }

  lemma U64Injective(a: Seq64, b: Seq64)
    requires U64(a) == U64(b)
    ensures a == b
  {
    assert Pow256(8) == TWO_64 by {
      assert Pow256(2) == 65536 && Pow256(4) == 256 * (256 * Pow256(2)) && Pow256(6) == 256 * (256 * Pow256(4));
      assert Pow256(8) == 256 * (256 * Pow256(6));
    }
    BigEndianInjective(a, b, 8);
  }

  lemma SplitAt(a: Bytes, x: Bytes, b: Bytes, y: Bytes)
    requires |a| == |b| && a + x == b + y
    ensures a == b && x == y
  {
    assert (a + x)[..|a|] == a && (b + y)[..|a|] == b;
    assert (a + x)[|a|..] == x && (b + y)[|a|..] == y;
  }

  /** A length-prefixed field is read back unambiguously, whatever follows it. */
  lemma LpInjective(a: Text, x: Bytes, b: Text, y: Bytes)
    requires Lp(a) + x == Lp(b) + y
    ensures a == b && x == y
  {
    assert Lp(a) + x == U64(|a|) + (a + x) && Lp(b) + y == U64(|b|) + (b + y);
    SplitAt(U64(|a|), a + x, U64(|b|), b + y);
    U64Injective(|a|, |b|);
    SplitAt(a, x, b, y);
  }

  lemma SubjectInjective(u: Option<Text>, x: Bytes, u': Option<Text>, x': Bytes)
    requires SubjectField(u) + x == SubjectField(u') + x'
    ensures u == u' && x == x'
  {
    hide U64, Lp;
    assert (SubjectField(u) + x)[0] == SubjectField(u)[0];
    assert (SubjectField(u') + x')[0] == SubjectField(u')[0];
    if u.None? {
      SplitAt([0], x, [0], x');
    } else {
      assert SubjectField(u) + x == [1] + (Lp(u.value) + x);
      assert SubjectField(u') + x' == [1] + (Lp(u'.value) + x');
      SplitAt([1], Lp(u.value) + x, [1], Lp(u'.value) + x');
      LpInjective(u.value, x, u'.value, x');
    }
  }

  lemma TailInjective(k: Text, u: Option<Text>, d: Text, k': Text, u': Option<Text>, d': Text)
    requires Lp(k) + (SubjectField(u) + Lp(d)) == Lp(k') + (SubjectField(u') + Lp(d'))
    ensures k == k' && u == u' && d == d'
  {
    LpInjective(k, SubjectField(u) + Lp(d), k', SubjectField(u') + Lp(d'));
    SubjectInjective(u, Lp(d), u', Lp(d'));
    assert Lp(d) + [] == Lp(d) && Lp(d') + [] == Lp(d');
    LpInjective(d, [], d', []);
  }

  /** No two different records hash the same bytes; an absent subject is not an empty one. */
  lemma StepInputInjective(p: Bytes, s: Seq64, k: Text, u: Option<Text>, d: Text,
                           p': Bytes, s': Seq64, k': Text, u': Option<Text>, d': Text)
    requires |p| == |p'|
    requires StepInput(p, s, k, u, d) == StepInput(p', s', k', u', d')
    ensures p == p' && s == s' && k == k' && u == u' && d == d'
  {
    var tail, tail' := Lp(k) + (SubjectField(u) + Lp(d)), Lp(k') + (SubjectField(u') + Lp(d'));
    SplitAt(p, U64(s) + tail, p', U64(s') + tail');
    SplitAt(U64(s), tail, U64(s'), tail');
    U64Injective(s, s');
    TailInjective(k, u, d, k', u', d');
  }

  // ---------------------------------------------------------------------------
  // The hashed bytes by offset
  // ---------------------------------------------------------------------------

  /** The eight bytes at `at` are `n`, the highest first. */
  ghost predicate Number(b: Bytes, at: nat, n: nat) {
    at + 8 <= |b| && forall j :: at <= j < at + 8 ==> b[j] == n / Pow256(at + 7 - j) % 256
  }

  /** A number of bytes, then the bytes themselves. */
  ghost predicate Field(b: Bytes, at: nat, text: Bytes) {
    Number(b, at, |text|) && at + 8 + |text| <= |b| && b[at + 8..at + 8 + |text|] == text
  }

  lemma NumberStands(before: Bytes, n: Seq64, after: Bytes)
    ensures Number(before + U64(n) + after, |before|, n)
  {
    var b, at := before + U64(n) + after, |before|;
    forall j | at <= j < at + 8 ensures b[j] == n / Pow256(at + 7 - j) % 256 {
      BigEndianAt(n, 8, j - at);
      assert b[j] == U64(n)[j - at];
    }
  }

  lemma FieldStands(before: Bytes, text: Text, after: Bytes)
    ensures |Lp(text)| == 8 + |text| && Field(before + Lp(text) + after, |before|, text)
  {
    hide Number, U64;
    var b, at := before + Lp(text) + after, |before|;
    NumberStands(before, |text|, text + after);
    assert b == before + U64(|text|) + (text + after);
    assert b[at + 8..at + 8 + |text|] == text;
  }

  lemma Regroup(p: Bytes, n: Bytes, k: Bytes, s: Bytes, d: Bytes)
    ensures var b := p + (n + (k + (s + d)));
            && b == p + n + (k + (s + d)) && b == (p + n) + k + (s + d) && b == (p + n + k + s) + d + []
            && b[..|p|] == p && |b| == |p| + |n| + |k| + |s| + |d|
            && (s != [] ==> b[|p + n + k|] == s[0])
  {
  }

  /** What a step hashes: the head before, the number in eight bytes, the kind with its length; a zero byte
      without a subject, a one and the subject with its length where there is one; the detail with its length. */
  lemma StepLayout(prev: Bytes, seqNo: Seq64, kind: Text, subject: Option<Text>, detail: Text)
    ensures var b := StepInput(prev, seqNo, kind, subject, detail);
            var p := |prev|;
            var tag := p + 16 + |kind|;
            var rest := tag + if subject.None? then 1 else 9 + |subject.value|;
            && |b| == rest + 8 + |detail|
            && b[..p] == prev && Number(b, p, seqNo) && Field(b, p + 8, kind)
            && (if subject.None? then b[tag] == 0 else b[tag] == 1 && Field(b, tag + 1, subject.value))
            && Field(b, rest, detail)
  {
    hide Field, Number, Lp, U64;
    var number, field := U64(seqNo), SubjectField(subject);
    Regroup(prev, number, Lp(kind), field, Lp(detail));
    NumberStands(prev, seqNo, Lp(kind) + (field + Lp(detail)));
    FieldStands(prev + number, kind, field + Lp(detail));
    FieldStands(prev + number + Lp(kind) + field, detail, []);
    if subject.Some? {
      SubjectStands(prev + number + Lp(kind), subject.value, Lp(detail));
      assert StepInput(prev, seqNo, kind, subject, detail) == (prev + number + Lp(kind)) + field + Lp(detail);
    }
  }

  lemma SubjectStands(before: Bytes, subject: Text, after: Bytes)
    ensures |SubjectField(Some(subject))| == 9 + |subject|
    ensures Field(before + SubjectField(Some(subject)) + after, |before| + 1, subject)
  {
    hide Field, Lp;
    FieldStands(before + [1], subject, after);
    assert before + SubjectField(Some(subject)) + after == (before + [1]) + Lp(subject) + after;
  }

  /** What a boot's first head hashes: the chain's name and version, then the boot's own name. */
  lemma GenesisLayout(hash: Hash, boot: Text)
    ensures exists b: Bytes ::
              GenesisHead(hash, boot) == hash(b) && Spells(b, "mqttd-audit-chain-genesis:v1:boot:", boot)
  {
    var name := "mqttd-audit-chain-genesis:v1:boot:";
    assert Spells(CHAIN_GENESIS + boot, name, boot);
  }

  ghost predicate Spells(b: Bytes, name: string, boot: Bytes) {
    && |b| == |name| + |boot| && b[|name|..] == boot
    && forall i :: 0 <= i < |name| ==> b[i] == name[i] as int
  }
}
