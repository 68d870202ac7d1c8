/** The incremental packet reader and the two clients built on it: the SUBSCRIBE handshake and the
    subscriber that records every payload (bench/scale/forward-canary.py). The socket, the stop
    flag and the clock are inputs: one `Poll` per turn of the reader's loop. */
module PacketStream {
  import opened Results
  import opened Framing

  datatype Pkt = Pkt(first: Byte, body: Bytes)

  /** What `recv` gave: a read timeout, or a chunk. An empty chunk is the peer's close. */
  datatype Recv = TimedOut | Chunk(data: Bytes)

  /** One turn of the reader's loop: is the stop flag set, has the deadline passed, what came. */
  datatype Poll = Poll(stopSet: bool, expired: bool, recv: Recv)

  /** `Waiting`: the given polls are used up and the call has not returned yet. */
  datatype Outcome = Got(pkt: Pkt) | Stopped | DeadlinePassed | Closed | ProtocolFault | Waiting

  /** One call of `read`: its outcome, the buffer it leaves, how many polls it used. */
  datatype ReadStep = ReadStep(outcome: Outcome, buf: Bytes, used: nat)

  function ReadSpec(buf: Bytes, polls: seq<Poll>): (r: ReadStep)
    ensures r.used <= |polls|
    ensures r.outcome.Stopped? || r.outcome.DeadlinePassed? || r.outcome.Closed? ==> r.used >= 1
    ensures r.outcome.Got? && r.used == 0 ==> |r.buf| < |buf|
    ensures r.outcome.Waiting? ==> r.used == |polls|
    decreases |polls|
  {
    match Decode(buf)
    case Malformed => ReadStep(ProtocolFault, buf, 0)
    case Packet(first, body, used) =>
      DecodedIsFrame(buf);
      ReadStep(Got(Pkt(first, body)), buf[used..], 0)
    case NeedMore =>
      if polls == [] then ReadStep(Waiting, buf, 0)
      else if polls[0].stopSet then ReadStep(Stopped, buf, 1)
      else if polls[0].expired then ReadStep(DeadlinePassed, buf, 1)
      else
        match polls[0].recv
        case TimedOut =>
          var r := ReadSpec(buf, polls[1..]);
          r.(used := r.used + 1)
        case Chunk(data) =>
          if data == [] then ReadStep(Closed, buf, 1)
          else
            var r := ReadSpec(buf + data, polls[1..]);
            r.(used := r.used + 1)
  }

  // ---------------------------------------------------------------------------
  // One read, from the polls alone
  // ---------------------------------------------------------------------------

  /** A turn that ends the call: the stop flag, the deadline, or the peer's close. */
  predicate Ends(poll: Poll) {
    poll.stopSet || poll.expired || poll.recv == Chunk([])
  }

  /** All the bytes a run of turns brought. */
  function Brought(polls: seq<Poll>): (r: Bytes) {
    if polls == [] then []
    else (if polls[0].recv.Chunk? then polls[0].recv.data else []) + Brought(polls[1..])
  }

  /** Which turn ends a read, and how: it goes on exactly as long as buffer and bytes so far make no packet and
      no turn has ended it. The turn that ends it decides, the stop flag before the deadline before the close;
      else a packet or a fault is returned as soon as the bytes make one, and with neither it waits for more
      turns. Whatever was not returned stays in the buffer. */
  ghost predicate ReadAs(buf: Bytes, polls: seq<Poll>, r: ReadStep) {
    && r.used <= |polls|
    && (forall k :: 0 <= k < r.used ==> Decode(buf + Brought(polls[..k])).NeedMore?)
    && (forall k :: 0 <= k < r.used - 1 ==> !Ends(polls[k]))
    && if r.used > 0 && Ends(polls[r.used - 1]) then
         r.buf == buf + Brought(polls[..r.used - 1]) && EndedBy(polls[r.used - 1], r.outcome)
       else DecodedTo(buf + Brought(polls[..r.used]), r.used == |polls|, r.outcome, r.buf)
  }

  predicate EndedBy(last: Poll, outcome: Outcome) {
    && (outcome.Stopped? <==> last.stopSet)
    && (outcome.DeadlinePassed? <==> !last.stopSet && last.expired)
    && (outcome.Closed? <==> !last.stopSet && !last.expired && last.recv == Chunk([]))
  }

  predicate DecodedTo(all: Bytes, usedUp: bool, outcome: Outcome, rest: Bytes) {
    match Decode(all)
    case Packet(first, body, size) => outcome == Got(Pkt(first, body)) && size <= |all| && rest == all[size..]
    case Malformed => outcome == ProtocolFault && rest == all
    case NeedMore => outcome == Waiting && rest == all && usedUp
  }

  lemma BroughtNext(polls: seq<Poll>, k: nat)
    requires polls != [] && k < |polls|
    ensures Brought(polls[..0]) == []
    ensures Brought(polls[..k + 1])
         == (if polls[0].recv.Chunk? then polls[0].recv.data else []) + Brought(polls[1..][..k])
  {
    assert polls[..k + 1][1..] == polls[1..][..k];
  }

  /** A turn that does not end the read is taken off the front. */
  lemma ReadShift(buf: Bytes, polls: seq<Poll>, r: ReadStep)
    requires Decode(buf).NeedMore? && polls != [] && !Ends(polls[0])
    ensures var next := buf + if polls[0].recv.Chunk? then polls[0].recv.data else [];
            ReadAs(buf, polls, r) <==> r.used > 0 && ReadAs(next, polls[1..], r.(used := r.used - 1))
  {
    hide Decode, EndedBy, DecodedTo, Ends, Brought;
    var next := buf + if polls[0].recv.Chunk? then polls[0].recv.data else [];
    BroughtNext(polls, 0);
    assert buf + [] == buf;
    forall k | 0 <= k < |polls| ensures buf + Brought(polls[..k + 1]) == next + Brought(polls[1..][..k]) {
      BroughtNext(polls, k);
    }
    if r.used == 0 {
      WaitsForMore(buf, r.outcome, r.buf);
    } else if r.used <= |polls| {
      ShiftTurns(buf, next, polls, r.used);
      assert buf + Brought(polls[..(r.used - 1) + 1]) == next + Brought(polls[1..][..r.used - 1]);
      if r.used > 1 {
        assert polls[r.used - 1] == polls[1..][r.used - 2];
        assert buf + Brought(polls[..(r.used - 2) + 1]) == next + Brought(polls[1..][..r.used - 2]);
      }
    }
  }

  lemma WaitsForMore(buf: Bytes, outcome: Outcome, rest: Bytes)
    requires Decode(buf).NeedMore?
    ensures !DecodedTo(buf, false, outcome, rest)
  {
    hide Decode;
  }

  lemma ShiftTurns(buf: Bytes, next: Bytes, polls: seq<Poll>, used: nat)
    requires Decode(buf).NeedMore? && polls != [] && !Ends(polls[0]) && 0 < used
    requires Brought(polls[..0]) == []
    requires forall k :: 0 <= k < |polls| ==> buf + Brought(polls[..k + 1]) == next + Brought(polls[1..][..k])
    ensures used <= |polls| ==>
              ((forall k :: 0 <= k < used ==> Decode(buf + Brought(polls[..k])).NeedMore?) <==>
               (forall k :: 0 <= k < used - 1 ==> Decode(next + Brought(polls[1..][..k])).NeedMore?))
    ensures used <= |polls| ==>
              ((forall k :: 0 <= k < used - 1 ==> !Ends(polls[k])) <==>
               (forall k :: 0 <= k < used - 2 ==> !Ends(polls[1..][k])))
  {
    hide Decode, Ends, Brought;
    assert buf + [] == buf;
    if used <= |polls| {
      if forall k :: 0 <= k < used - 1 ==> Decode(next + Brought(polls[1..][..k])).NeedMore? {
        forall k | 0 <= k < used ensures Decode(buf + Brought(polls[..k])).NeedMore? {
          if k > 0 { assert buf + Brought(polls[..(k - 1) + 1]) == next + Brought(polls[1..][..k - 1]); }
        }
      }
      if forall k :: 0 <= k < used ==> Decode(buf + Brought(polls[..k])).NeedMore? {
        forall k | 0 <= k < used - 1 ensures Decode(next + Brought(polls[1..][..k])).NeedMore? {
          assert Decode(buf + Brought(polls[..k + 1])).NeedMore?;
        }
      }
      forall k | 0 <= k < used - 2 && !Ends(polls[k + 1]) ensures !Ends(polls[1..][k]) { }
      forall k | 1 <= k < used - 1 && !Ends(polls[1..][k - 1]) ensures !Ends(polls[k]) { }
    }
  }

  /** The reader's recursion is that and nothing else. */
  lemma {:induction false} ReadIff(buf: Bytes, polls: seq<Poll>, r: ReadStep)
    ensures r == ReadSpec(buf, polls) <==> ReadAs(buf, polls, r)
    decreases |polls|
  {
    var spec := ReadSpec(buf, polls);
    if !Decode(buf).NeedMore? || polls == [] {
      AtOnceIff(buf, polls, r);
    } else if Ends(polls[0]) {
      FirstEnds(buf, polls, r);
    } else {
      var data := if polls[0].recv.Chunk? then polls[0].recv.data else [];
      ReadShift(buf, polls, r);
      assert polls[0].recv.TimedOut? ==> buf + data == buf;
      if r.used > 0 { ReadIff(buf + data, polls[1..], r.(used := r.used - 1)); }
      hide ReadAs, Decode;
    }
  }

  lemma AtOnceIff(buf: Bytes, polls: seq<Poll>, r: ReadStep)
    requires !Decode(buf).NeedMore? || polls == []
    ensures r == ReadSpec(buf, polls) <==> ReadAs(buf, polls, r)
  {
    assert polls[..0] == [] && buf + [] == buf;
    if Decode(buf).Packet? { DecodedIsFrame(buf); }
    hide Decode;
    assert polls != [] ==> !Decode(buf + Brought(polls[..0])).NeedMore?;
  }

  lemma FirstEnds(buf: Bytes, polls: seq<Poll>, r: ReadStep)
    requires Decode(buf).NeedMore? && polls != [] && Ends(polls[0])
    ensures r == ReadSpec(buf, polls) <==> ReadAs(buf, polls, r)
  {
    assert polls[..0] == [] && buf + [] == buf;
    hide Decode;
  }

  class PacketReader {
    var buf: Bytes

    constructor ()
      ensures buf == []
    {
      buf := [];
    }

    /** The loop: decode, else poll the flags, else receive and append. */
    method Read(polls: seq<Poll>) returns (outcome: Outcome, used: nat)
      modifies this
      ensures ReadStep(outcome, buf, used) == ReadSpec(old(buf), polls)
      ensures ReadAs(old(buf), polls, ReadStep(outcome, buf, used))
    {
      ReadIff(buf, polls, ReadSpec(buf, polls));
      hide ReadAs;
      used := 0;
      while true
        invariant used <= |polls|
        invariant var rest := ReadSpec(buf, polls[used..]);
                  ReadSpec(old(buf), polls) == rest.(used := rest.used + used)
        decreases |polls| - used
      {
        var got := DecodePacket(buf);
        match got {
          case Malformed =>
            return ProtocolFault, used;
          case Packet(first, body, size) =>
            DecodedIsFrame(buf);
            buf := buf[size..];
            return Got(Pkt(first, body)), used;
          case NeedMore =>
        }
        if used == |polls| {
          return Waiting, used;
        }
        var poll := polls[used];
        assert polls[used..][1..] == polls[used + 1..];
        used := used + 1;
        if poll.stopSet {
          return Stopped, used;
        }
        if poll.expired {
          return DeadlinePassed, used;
        }
        if poll.recv.Chunk? {
          if poll.recv.data == [] {
            return Closed, used;
          }
          buf := buf + poll.recv.data;
        }
      }
    }

    /** Read again and again: after a stop or a deadline once more, until the stream ends. */
    method ReadAll(polls: seq<Poll>) returns (pkts: seq<Pkt>, ending: Outcome)
      modifies this
      ensures Session(pkts, buf, ending) == Reads(old(buf), polls)
    {
      hide ReadSpec, Reads, After;
      pkts := [];
      var used := 0;
      ReadsStart(buf, polls);
      while true
        invariant used <= |polls|
        invariant Reads(old(buf), polls) == After(pkts, Reads(buf, polls[used..]))
        decreases |polls| - used, |buf|
      {
        ReadsUnfold(buf, polls, used, pkts);
        var outcome, more := Read(polls[used..]);
        used := used + more;
        if outcome.Got? {
          pkts := pkts + [outcome.pkt];
        } else if !outcome.Stopped? && !outcome.DeadlinePassed? {
          return pkts, outcome;
        }
      }
    }
  }

  /** A session with packets already read before it. */
  function After(pkts: seq<Pkt>, s: Session): (r: Session) {
    s.(pkts := pkts + s.pkts)
  }

  lemma ReadsStart(buf: Bytes, polls: seq<Poll>)
    ensures After([], Reads(buf, polls[0..])) == Reads(buf, polls)
  {
    hide Reads;
    assert polls[0..] == polls;
  }

  lemma ReadsUnfold(buf: Bytes, polls: seq<Poll>, used: nat, pkts: seq<Pkt>)
    requires used <= |polls|
    ensures var r := ReadSpec(buf, polls[used..]);
            && used + r.used <= |polls|
            && (r.used == 0 && r.outcome.Got? ==> |r.buf| < |buf|)
            && (r.outcome.Stopped? || r.outcome.DeadlinePassed? ==> r.used > 0)
            && After(pkts, Reads(buf, polls[used..])) ==
               if r.outcome.Got? then After(pkts + [r.outcome.pkt], Reads(r.buf, polls[used + r.used..]))
               else if r.outcome.Stopped? || r.outcome.DeadlinePassed?
               then After(pkts, Reads(r.buf, polls[used + r.used..]))
               else Session(pkts, r.buf, r.outcome)
  {
    var r := ReadSpec(buf, polls[used..]);
    assert polls[used..][r.used..] == polls[used + r.used..];
    hide ReadSpec;
    if r.outcome.Got? {
      var s := Reads(r.buf, polls[used + r.used..]);
      assert Reads(buf, polls[used..]) == s.(pkts := [r.outcome.pkt] + s.pkts);
      assert pkts + ([r.outcome.pkt] + s.pkts) == pkts + [r.outcome.pkt] + s.pkts;
    }
  }

  // ---------------------------------------------------------------------------
  // The reference: the whole byte stream at once
  // ---------------------------------------------------------------------------

  /** The packets of a byte stream, up to the first incomplete or malformed one. */
  function Parse(stream: Bytes): (r: seq<Pkt>)
    decreases |stream|
  {
    match Decode(stream)
    case Packet(first, body, used) =>
      DecodedIsFrame(stream);
      [Pkt(first, body)] + Parse(stream[used..])
    case _ => []
  }

  /** What is left of the stream after its packets. */
  function Residue(stream: Bytes): (r: Bytes)
    decreases |stream|
  {
    match Decode(stream)
    case Packet(first, body, used) =>
      DecodedIsFrame(stream);
      Residue(stream[used..])
    case _ => stream
  }

  predicate Receives(poll: Poll) {
    !poll.stopSet && !poll.expired && poll.recv.Chunk?
  }

  /** The bytes a run of polls brings in, up to the peer's close. */
  function Arrived(polls: seq<Poll>): (r: Bytes) {
    if polls == [] then []
    else if Receives(polls[0]) then
      if polls[0].recv.data == [] then [] else polls[0].recv.data + Arrived(polls[1..])
    else Arrived(polls[1..])
  }

  // ---------------------------------------------------------------------------
  // Successive reads
  // ---------------------------------------------------------------------------

  /** Everything that calling `read` again and again yields: after a stop or a deadline the caller
      calls once more; a close, a fault or exhausted polls end it. */
  datatype Session = Session(pkts: seq<Pkt>, buf: Bytes, ending: Outcome)

  function Reads(buf: Bytes, polls: seq<Poll>): (s: Session)
    decreases |polls|, |buf|
  {
    var r := ReadSpec(buf, polls);
    match r.outcome
    case Got(pkt) =>
      var s := Reads(r.buf, polls[r.used..]);
      s.(pkts := [pkt] + s.pkts)
    case Stopped => Reads(r.buf, polls[r.used..])
    case DeadlinePassed => Reads(r.buf, polls[r.used..])
    case other => Session([], r.buf, other)
  }

  lemma ParseStep(buf: Bytes, more: Bytes)
    requires Decode(buf).Packet?
    ensures var used := Decode(buf).used;
            && 0 < used <= |buf|
            && Decode(buf + more) == Decode(buf)
            && (buf + more)[used..] == buf[used..] + more
  {
    DecodedIsFrame(buf);
    DecodeStable(buf, more);
  }

  /** How one read relates the stream before it (`all`) to the stream after it (`left`). */
  ghost predicate TakesFrom(all: Bytes, left: Bytes, outcome: Outcome, buf: Bytes) {
    match outcome
    case Got(pkt) => Parse(all) == [pkt] + Parse(left) && Residue(all) == Residue(left)
    case ProtocolFault => Parse(all) == [] && Residue(all) == all && Decode(all).Malformed?
    case _ => all == left && Decode(buf).NeedMore?
  }

  function Left(r: ReadStep, polls: seq<Poll>): (b: Bytes)
    requires r.used <= |polls|
  {
    r.buf + if r.outcome.Closed? then [] else Arrived(polls[r.used..])
  }

  lemma LeftShift(r: ReadStep, polls: seq<Poll>)
    requires polls != [] && r.used <= |polls| - 1
    ensures Left(r.(used := r.used + 1), polls) == Left(r, polls[1..])
  {
    assert polls[r.used + 1..] == polls[1..][r.used..];
  }

  lemma TakesAtOnce(buf: Bytes, polls: seq<Poll>)
    requires !Decode(buf).NeedMore?
    ensures var r := ReadSpec(buf, polls);
            TakesFrom(buf + Arrived(polls), Left(r, polls), r.outcome, r.buf)
  {
    if Decode(buf).Malformed? {
      DecodeStable(buf, Arrived(polls));
    } else {
      ParseStep(buf, Arrived(polls));
    }
  }

  lemma TakesNothing(buf: Bytes, polls: seq<Poll>, r: ReadStep)
    requires Decode(buf).NeedMore? && r.used <= |polls| && r.buf == buf
    requires !r.outcome.Got? && !r.outcome.ProtocolFault?
    requires Arrived(polls) == if r.outcome.Closed? then [] else Arrived(polls[r.used..])
    ensures TakesFrom(buf + Arrived(polls), Left(r, polls), r.outcome, r.buf)
  {
  }

  /** One read against the reference: it takes the next packet of the stream, or none. */
  lemma {:induction false} ReadAgainstStream(buf: Bytes, polls: seq<Poll>)
    ensures var r := ReadSpec(buf, polls);
            TakesFrom(buf + Arrived(polls), Left(r, polls), r.outcome, r.buf)
    decreases |polls|
  {
    hide TakesFrom, Left, Decode;
    if !Decode(buf).NeedMore? {
      TakesAtOnce(buf, polls);
    } else if polls == [] || polls[0].stopSet || polls[0].expired {
      TakesNothing(buf, polls, ReadSpec(buf, polls));
    } else {
      match polls[0].recv
      case TimedOut =>
        ReadAgainstStream(buf, polls[1..]);
        LeftShift(ReadSpec(buf, polls[1..]), polls);
      case Chunk(data) =>
        if data == [] {
          TakesNothing(buf, polls, ReadSpec(buf, polls));
        } else {
          ReadAgainstStream(buf + data, polls[1..]);
          LeftShift(ReadSpec(buf + data, polls[1..]), polls);
          assert buf + data + Arrived(polls[1..]) == buf + Arrived(polls);
        }
    }
  }

  /** However the bytes are cut into chunks, and wherever timeouts, stop polls and deadlines fall,
      successive reads return exactly the packets of the stream, in order, and the buffer is left
      with exactly the unparsed rest. */
  lemma {:induction false} ReadsAreTheStream(buf: Bytes, polls: seq<Poll>)
    ensures var s := Reads(buf, polls);
            var all := buf + Arrived(polls);
            && s.pkts == Parse(all)
            && (s.ending.ProtocolFault? <==> Decode(Residue(all)).Malformed?)
            && (!s.ending.ProtocolFault? ==> s.buf == Residue(all))
    decreases |polls|, |buf|
  {
    var r := ReadSpec(buf, polls);
    ReadAgainstStream(buf, polls);
    match r.outcome
    case Got(pkt) => ReadsAreTheStream(r.buf, polls[r.used..]);
    case Stopped => ReadsAreTheStream(r.buf, polls[r.used..]);
    case DeadlinePassed => ReadsAreTheStream(r.buf, polls[r.used..]);
    case ProtocolFault =>
    case Closed => assert r.buf + [] == r.buf;
    case Waiting =>
      assert polls[r.used..] == [];
      assert r.buf + [] == r.buf;
  }

  // ---------------------------------------------------------------------------
  // Streams the peer wrote packet by packet
  // ---------------------------------------------------------------------------

  predicate Sendable(pkts: seq<Pkt>) {
    forall k :: 0 <= k < |pkts| ==> |pkts[k].body| <= MAX_REMAINING
  }

  /** The bytes of the packets, one encoding after the other. */
  function Wire(pkts: seq<Pkt>): (r: Bytes) {
    if pkts == [] then [] else PacketBytes(pkts[0].first, pkts[0].body) + Wire(pkts[1..])
  }

  lemma WireCons(p: Pkt, rest: seq<Pkt>)
    ensures Wire([p] + rest) == PacketBytes(p.first, p.body) + Wire(rest)
  {
    assert ([p] + rest)[1..] == rest;
  }

  lemma ParseCons(p: Pkt, tail: Bytes)
    requires |p.body| <= MAX_REMAINING
    ensures var all := PacketBytes(p.first, p.body) + tail;
            Parse(all) == [p] + Parse(tail) && Residue(all) == Residue(tail)
  {
    var head := PacketBytes(p.first, p.body);
    RoundTrip(p.first, p.body, tail);
    assert (head + tail)[|head|..] == tail;
  }

  /** A stream cut anywhere inside `pkts` holds a prefix of them, whole, and then the cut packet's
      first bytes; nothing in it is malformed. */
  lemma {:induction false} WireCut(pkts: seq<Pkt>, cut: nat) returns (m: nat)
    requires Sendable(pkts) && cut <= |Wire(pkts)|
    ensures m <= |pkts|
    ensures var got := Wire(pkts)[..cut];
            && Parse(got) == pkts[..m]
            && Decode(Residue(got)).NeedMore?
            && got == Wire(pkts[..m]) + Residue(got)
            && (cut == |Wire(pkts)| ==> m == |pkts| && Residue(got) == [])
  {
    hide Parse, Residue, Decode, PacketBytes;
    var got := Wire(pkts)[..cut];
    if pkts == [] {
      m := 0;
      NothingYet();
    } else {
      var head := PacketBytes(pkts[0].first, pkts[0].body);
      var rest := pkts[1..];
      if cut < |head| {
        m := 0;
        assert got == head[..cut];
        CutShort(pkts[0], cut);
      } else {
        var m' := WireCut(rest, cut - |head|);
        m := m' + 1;
        var tail := Wire(rest)[..cut - |head|];
        assert got == head + tail;
        ParseCons(pkts[0], tail);
        assert pkts[..m] == [pkts[0]] + rest[..m'];
        WireCons(pkts[0], rest[..m']);
      }
    }
  }

  lemma NothingYet()
    ensures Parse([]) == [] && Residue([]) == [] && Decode([]).NeedMore?
  {
  }

  lemma CutShort(p: Pkt, cut: nat)
    requires |p.body| <= MAX_REMAINING && cut < |PacketBytes(p.first, p.body)|
    ensures var got := PacketBytes(p.first, p.body)[..cut];
            Parse(got) == [] && Residue(got) == got && Decode(got).NeedMore?
  {
    ProperPrefixWaits(p.first, p.body, cut);
  }

  /** For every cutting of a packet stream into chunks: the reads return the packets in order, what
      was received is always what was returned followed by the buffer, nothing is ever reported
      malformed, and once all bytes are in, all packets are out. */
  lemma ReaderDelivers(pkts: seq<Pkt>, polls: seq<Poll>)
    requires Sendable(pkts)
    requires Arrived(polls) <= Wire(pkts)
    ensures var s := Reads([], polls);
            && s.pkts <= pkts
            && !s.ending.ProtocolFault?
            && Arrived(polls) == Wire(s.pkts) + s.buf
            && Decode(s.buf).NeedMore?
            && (Arrived(polls) == Wire(pkts) ==> s.pkts == pkts && s.buf == [])
  {
    var got := Arrived(polls);
    var m := WireCut(pkts, |got|);
    assert Wire(pkts)[..|got|] == got;
    assert [] + got == got;
    ReadsAreTheStream([], polls);
  }

  // ---------------------------------------------------------------------------
  // SUBSCRIBE: publishes that race the SUBACK are kept aside
  // ---------------------------------------------------------------------------

  function Kind(p: Pkt): (k: nat) {
    p.first / 16
  }

  /** A SUBACK that grants packet id `id` at exactly `qos`. */
  predicate Grants(p: Pkt, id: nat, qos: nat) {
    Kind(p) == 9 && |p.body| == 3 && FromU16(p.body[..2]) == id && p.body[2] == qos
  }

  predicate IsPublish(p: Pkt) {
    Kind(p) == 3
  }

  function PublishesOf(pkts: seq<Pkt>): (r: seq<Pkt>) {
    if pkts == [] then []
    else PublishesOf(pkts[..|pkts| - 1]) + (if IsPublish(pkts[|pkts| - 1]) then [pkts[|pkts| - 1]] else [])
  }

  /** The answers of a stretch of packets: what is left once its publishes are set aside. */
  function AnswersOf(pkts: seq<Pkt>): (r: seq<Pkt>) {
    if pkts == [] then []
    else AnswersOf(pkts[..|pkts| - 1]) + (if IsPublish(pkts[|pkts| - 1]) then [] else [pkts[|pkts| - 1]])
  }

  /** The k-th answer grants packet id k, counted from 1. */
  predicate GrantedInOrder(answers: seq<Pkt>, qos: nat) {
    forall k :: 0 <= k < |answers| ==> Grants(answers[k], k + 1, qos)
  }

  datatype Handshake = Subscribed | Refused | Pending

  class Conn {
    var early: seq<Pkt>

    constructor ()
      ensures early == []
    {
      early := [];
    }

    /** Reads from `start` on, keeping publishes aside, up to the first packet that is not one. */
    method NextAnswer(inbox: seq<Pkt>, start: nat) returns (at: nat)
      requires start <= |inbox|
      modifies this
      ensures start <= at <= |inbox|
      ensures early == old(early) + inbox[start..at]
      ensures forall k :: start <= k < at ==> IsPublish(inbox[k])
      ensures at < |inbox| ==> !IsPublish(inbox[at])
    {
      at := start;
      while at < |inbox| && Kind(inbox[at]) == 3
        invariant start <= at <= |inbox|
        invariant early == old(early) + inbox[start..at]
        invariant forall k :: start <= k < at ==> IsPublish(inbox[k])
      {
        early := early + [inbox[at]];
        at := at + 1;
      }
    }

    /** Sends `filters` SUBSCRIBEs and reads the packets `inbox` until each is acknowledged. */
    method Subscribe(filters: nat, qos: Qos, inbox: seq<Pkt>) returns (r: Handshake, used: nat)
      requires filters < 65536
      modifies this
      ensures used <= |inbox|
      ensures early == old(early) + PublishesOf(inbox[..used])
      ensures r == Verdict(AnswersOf(inbox[..used]), filters, qos)
      ensures r.Pending? ==> used == |inbox|
    {
      used := 0;
      var id := 1;
      assert inbox[..0] == [] && PublishesOf([]) == [] && AnswersOf([]) == [] && GrantedInOrder([], qos);
      hide IsPublish, Grants, PublishesOf, AnswersOf, GrantedInOrder;
      while id <= filters
        invariant 1 <= id <= filters + 1 && used <= |inbox|
        invariant early == old(early) + PublishesOf(inbox[..used])
        invariant |AnswersOf(inbox[..used])| == id - 1 && GrantedInOrder(AnswersOf(inbox[..used]), qos)
      {
        ghost var before := AnswersOf(inbox[..used]);
        var at := NextAnswer(inbox, used);
        Stretch(inbox, used, at);
        assert early == old(early) + PublishesOf(inbox[..at]);
        if at == |inbox| {
          return Pending, at;
        }
        AnswerCounts(inbox, at);
        used := at + 1;
        NextGrant(before, inbox[at], qos);
        if !CheckSuback(inbox[at], id, qos) {
          return Refused, used;
        }
        id := id + 1;
      }
      return Subscribed, used;
    }
  }

  /** What the answers so far amount to: refused at the first that is not the grant asked for,
      subscribed once every filter is granted, pending until then. */
  function Verdict(answers: seq<Pkt>, filters: nat, qos: nat): (r: Handshake) {
    if !GrantedInOrder(answers, qos) then Refused
    else if |answers| < filters then Pending
    else Subscribed
  }

  lemma NextGrant(before: seq<Pkt>, p: Pkt, qos: nat)
    requires GrantedInOrder(before, qos)
    ensures GrantedInOrder(before + [p], qos) <==> Grants(p, |before| + 1, qos)
  {
    hide Grants;
    assert (before + [p])[|before|] == p;
  }

  /** The checks on an answer, one after the other: a SUBACK of three bytes, for this packet id, not
      refused, and at the very QoS that was asked for. */
  predicate CheckSuback(p: Pkt, id: nat, qos: Qos)
    ensures CheckSuback(p, id, qos) <==> Grants(p, id, qos)
  {
    if Kind(p) != 9 || |p.body| != 3 then false
    else if FromU16(p.body[..2]) != id then false
    else if p.body[2] > 2 then false
    else p.body[2] == qos
  }

  /** A stretch of publishes adds publishes and no answer. */
  lemma {:induction false} Stretch(inbox: seq<Pkt>, start: nat, at: nat)
    requires start <= at <= |inbox| && forall k :: start <= k < at ==> IsPublish(inbox[k])
    ensures PublishesOf(inbox[..at]) == PublishesOf(inbox[..start]) + inbox[start..at]
    ensures AnswersOf(inbox[..at]) == AnswersOf(inbox[..start])
    decreases at - start
  {
    if start < at {
      Stretch(inbox, start, at - 1);
      assert inbox[..at][..at - 1] == inbox[..at - 1];
      assert inbox[start..at] == inbox[start..at - 1] + [inbox[at - 1]];
    }
  }

  lemma AnswerCounts(inbox: seq<Pkt>, at: nat)
    requires at < |inbox| && !IsPublish(inbox[at])
    ensures PublishesOf(inbox[..at + 1]) == PublishesOf(inbox[..at])
    ensures AnswersOf(inbox[..at + 1]) == AnswersOf(inbox[..at]) + [inbox[at]]
  {
    assert inbox[..at + 1][..at] == inbox[..at];
  }

  // ---------------------------------------------------------------------------
  // The subscriber
  // ---------------------------------------------------------------------------

  predicate Readable(p: Pkt) {
    IsPublish(p) ==> ParsePublish(p.first, p.body).Ok?
  }

  /** The topic and payload a packet delivers, if it is a PUBLISH that parses. */
  function Delivery(p: Pkt): (r: Option<(Bytes, Bytes)>) {
    if IsPublish(p) && ParsePublish(p.first, p.body).Ok? then Some(ParsePublish(p.first, p.body).value) else None
  }

  /** The payloads that arrived on `topic`, in order. */
  function PayloadsOn(topic: Bytes, pkts: seq<Pkt>): (r: seq<Bytes>) {
    if pkts == [] then []
    else
      var d := Delivery(pkts[|pkts| - 1]);
      PayloadsOn(topic, pkts[..|pkts| - 1]) + if d.Some? && d.value.0 == topic then [d.value.1] else []
  }

  /** The packet ids of the publishes, in order: what a QoS 1 subscriber must acknowledge. */
  function IdsOf(pkts: seq<Pkt>): (r: seq<nat>) {
    if pkts == [] then []
    else
      var p := pkts[|pkts| - 1];
      var id := if IsPublish(p) then PublishId(p.first, p.body) else Ok(None);
      IdsOf(pkts[..|pkts| - 1]) + if id.Ok? && id.value.Some? then [id.value.value] else []
  }

  lemma Snoc(pkts: seq<Pkt>, p: Pkt)
    ensures forall topic :: PayloadsOn(topic, pkts + [p]) ==
              PayloadsOn(topic, pkts) +
              if Delivery(p).Some? && Delivery(p).value.0 == topic then [Delivery(p).value.1] else []
    ensures IdsOf(pkts + [p]) == IdsOf(pkts) + IdsOf([p])
  {
    assert (pkts + [p])[..|pkts|] == pkts;
    assert [p][..0] == [] && IdsOf([]) == [];
  }

  function PubacksIn(pkts: seq<Pkt>): (n: nat) {
    if pkts == [] then 0
    else PubacksIn(pkts[..|pkts| - 1]) + if Kind(pkts[|pkts| - 1]) == 4 then 1 else 0
  }

  /** What the record must be after `pkts`: every topic's payloads, and the acknowledgements sent. */
  ghost predicate HoldsPayloadsOf(seen: map<Bytes, seq<Bytes>>, pkts: seq<Pkt>) {
    forall topic :: PayloadsIn(seen, topic) == PayloadsOn(topic, pkts)
  }

  function PayloadsIn(seen: map<Bytes, seq<Bytes>>, topic: Bytes): (r: seq<Bytes>) {
    if topic in seen then seen[topic] else []
  }

  function AcksFor(qos: Qos, pkts: seq<Pkt>): (r: seq<nat>) {
    if qos >= 1 then IdsOf(pkts) else []
  }

  /** Recording one more packet keeps the record right; what is not a PUBLISH leaves it alone. */
  lemma RecordedMore(seen: map<Bytes, seq<Bytes>>, before: seq<Pkt>, p: Pkt)
    requires HoldsPayloadsOf(seen, before)
    ensures var d := Delivery(p);
            HoldsPayloadsOf(if d.Some? then seen[d.value.0 := PayloadsIn(seen, d.value.0) + [d.value.1]] else seen,
                            before + [p])
  {
    hide Delivery;
    Snoc(before, p);
  }

  lemma OwnId(p: Pkt)
    ensures IdsOf([p]) ==
            if IsPublish(p) && PublishId(p.first, p.body).Ok? && PublishId(p.first, p.body).value.Some?
            then [PublishId(p.first, p.body).value.value] else []
  {
    assert [p][..0] == [] && IdsOf([]) == [];
  }

  lemma AckedMore(qos: Qos, before: seq<Pkt>, p: Pkt)
    ensures AcksFor(qos, before + [p]) == AcksFor(qos, before) + AcksFor(qos, [p])
  {
    Snoc(before, p);
  }

  class Member {
    const qos: Qos
    var seen: map<Bytes, seq<Bytes>>
    var acked: nat
    var acksSent: seq<nat>
    var error: bool

    constructor (qos: Qos)
      ensures this.qos == qos && seen == map[] && acked == 0 && acksSent == [] && !error
    {
      this.qos := qos;
      seen := map[];
      acked := 0;
      acksSent := [];
      error := false;
    }

    /** The record matches the packets handled so far. */
    ghost predicate Recorded(pkts: seq<Pkt>)
      reads this
    {
      HoldsPayloadsOf(seen, pkts) && acksSent == AcksFor(qos, pkts)
    }

    method Record(p: Pkt, ghost before: seq<Pkt>) returns (ok: bool)
      requires IsPublish(p) && Recorded(before)
      modifies this`seen, this`acksSent
      ensures ok == Readable(p)
      ensures ok ==> Recorded(before + [p])
    {
      hide HoldsPayloadsOf;
      var parsed := ParsePublish(p.first, p.body);
      if parsed.Raised? {
        return false;
      }
      var (topic, payload) := parsed.value;
      RecordedMore(seen, before, p);
      AckedMore(qos, before, p);
      seen := seen[topic := PayloadsIn(seen, topic) + [payload]];
      ParsedHasId(p.first, p.body);
      OwnId(p);
      if qos >= 1 {
        var id := PublishId(p.first, p.body).value;
        if id.Some? {
          acksSent := acksSent + [id.value];
        }
      }
      return true;
    }

    /** Every topic's payloads are those of the whole stream, and so are the acknowledgements, in order. */
    lemma Holds(before: seq<Pkt>, after: seq<Pkt>)
      requires Recorded(PublishesOf(before) + after)
      ensures Recorded(before + after)
    {
      EarlyReplay(before, after);
    }

    /** One packet off the reader. */
    method Handle(p: Pkt, ghost before: seq<Pkt>)
      requires Recorded(before) && !error
      modifies this
      ensures error == !Readable(p)
      ensures !error ==> Recorded(before + [p]) && acked == old(acked) + if Kind(p) == 4 then 1 else 0
    {
      if Kind(p) == 3 {
        var ok := Record(p, before);
        error := !ok;
      } else {
        RecordedMore(seen, before, p);
        AckedMore(qos, before, p);
        OwnId(p);
        if Kind(p) == 4 {
          acked := acked + 1;
        }
      }
    }

    /** The publishes that raced the SUBACK, up to one that cannot be parsed. */
    method Replay(early: seq<Pkt>)
      requires seen == map[] && acksSent == [] && !error
      requires forall k :: 0 <= k < |early| ==> IsPublish(early[k])
      modifies this`seen, this`acksSent, this`error
      ensures error <==> exists k :: 0 <= k < |early| && !Readable(early[k])
      ensures !error ==> Recorded(early)
    {
      assert Recorded(early[..0]);
      hide Readable, HoldsPayloadsOf, AcksFor;
      var i := 0;
      while i < |early|
        invariant 0 <= i <= |early| && !error
        invariant forall k :: 0 <= k < i ==> Readable(early[k])
        invariant Recorded(early[..i])
      {
        var ok := Record(early[i], early[..i]);
        if !ok {
          error := true;
          return;
        }
        assert early[..i] + [early[i]] == early[..i + 1];
        i := i + 1;
      }
      assert early[..i] == early;
    }

    /** Then everything the reader returns. */
    method Drain(inbox: seq<Pkt>, ghost early: seq<Pkt>)
      requires Recorded(early) && acked == 0 && !error
      modifies this
      ensures error <==> exists k :: 0 <= k < |inbox| && !Readable(inbox[k])
      ensures !error ==> Recorded(early + inbox) && acked == PubacksIn(inbox)
    {
      assert early + inbox[..0] == early;
      hide Readable, HoldsPayloadsOf, AcksFor;
      var j := 0;
      while j < |inbox|
        invariant 0 <= j <= |inbox| && !error
        invariant forall k :: 0 <= k < j ==> Readable(inbox[k])
        invariant Recorded(early + inbox[..j]) && acked == PubacksIn(inbox[..j])
      {
        Handle(inbox[j], early + inbox[..j]);
        assert inbox[..j + 1][..j] == inbox[..j];
        assert early + inbox[..j] + [inbox[j]] == early + inbox[..j + 1];
        if error {
          return;
        }
        j := j + 1;
      }
      assert inbox[..j] == inbox;
    }

    /** The thread: the publishes that raced the SUBACK first, then everything the reader returns, until a
        PUBLISH that cannot be parsed. */
    method Run(early: seq<Pkt>, inbox: seq<Pkt>)
      requires seen == map[] && acksSent == [] && acked == 0 && !error
      requires forall k :: 0 <= k < |early| ==> IsPublish(early[k])
      modifies this
      ensures error <==> exists k :: 0 <= k < |early + inbox| && !Readable((early + inbox)[k])
      ensures !error ==> Recorded(early + inbox) && acked == PubacksIn(inbox)
    {
      hide Readable, HoldsPayloadsOf, AcksFor, PubacksIn;
      SomeUnreadable(early, inbox);
      Replay(early);
      if !error {
        Drain(inbox, early);
      }
    }
  }

  lemma SomeUnreadable(a: seq<Pkt>, b: seq<Pkt>)
    ensures (exists k :: 0 <= k < |a + b| && !Readable((a + b)[k])) <==>
            || (exists k :: 0 <= k < |a| && !Readable(a[k]))
            || (exists k :: 0 <= k < |b| && !Readable(b[k]))
  {
    hide Readable;
    if k :| 0 <= k < |a| && !Readable(a[k]) { assert !Readable((a + b)[k]); }
    if k :| 0 <= k < |b| && !Readable(b[k]) { assert !Readable((a + b)[|a| + k]); }
  }

  lemma {:induction false} PayloadsConcat(topic: Bytes, a: seq<Pkt>, b: seq<Pkt>)
    ensures PayloadsOn(topic, a + b) == PayloadsOn(topic, a) + PayloadsOn(topic, b)
    decreases |b|
  {
    hide Delivery;
    if b == [] {
      assert a + b == a;
    } else {
      PayloadsConcat(topic, a, b[..|b| - 1]);
      assert (a + b)[..|a + b| - 1] == a + b[..|b| - 1];
    }
  }

  lemma {:induction false} PayloadsOfPublishes(topic: Bytes, a: seq<Pkt>)
    ensures PayloadsOn(topic, PublishesOf(a)) == PayloadsOn(topic, a)
  {
    if a != [] {
      var front, last := a[..|a| - 1], a[|a| - 1];
      PayloadsOfPublishes(topic, front);
      assert front + [last] == a;
      PayloadsConcat(topic, front, [last]);
      if IsPublish(last) {
        PayloadsConcat(topic, PublishesOf(front), [last]);
      } else {
        assert Delivery(last).None? && [last][..0] == [];
        assert PayloadsOn(topic, [last]) == [];
        assert PublishesOf(a) == PublishesOf(front);
      }
    }
  }

  lemma {:induction false} PublishesAreFrom(a: seq<Pkt>)
    ensures forall p :: p in PublishesOf(a) ==> IsPublish(p) && p in a
  {
    if a != [] {
      PublishesAreFrom(a[..|a| - 1]);
    }
  }

  lemma NoIds(a: seq<Pkt>)
    ensures IdsOf(a + []) == IdsOf(a) + IdsOf([]) && PublishesOf([]) == []
  {
    assert a + [] == a;
  }

  lemma {:induction false} IdsConcat(a: seq<Pkt>, b: seq<Pkt>)
    ensures IdsOf(a + b) == IdsOf(a) + IdsOf(b)
    decreases |b|
  {
    hide IdsOf, Delivery, PayloadsOn;
    if b == [] {
      NoIds(a);
    } else {
      var front, last := b[..|b| - 1], b[|b| - 1];
      IdsConcat(a, front);
      Snoc(a + front, last);
      Snoc(front, last);
      assert a + b == a + front + [last] && b == front + [last];
    }
  }

  lemma PublishesSnoc(front: seq<Pkt>, last: Pkt)
    ensures PublishesOf(front + [last]) == if IsPublish(last) then PublishesOf(front) + [last] else PublishesOf(front)
  {
    assert (front + [last])[..|front|] == front;
  }

  lemma {:induction false} IdsOfPublishes(a: seq<Pkt>)
    ensures IdsOf(PublishesOf(a)) == IdsOf(a)
  {
    hide IdsOf, PublishesOf, PublishId;
    if a == [] {
      NoIds([]);
    } else {
      var front, last := a[..|a| - 1], a[|a| - 1];
      IdsOfPublishes(front);
      PublishesSnoc(front, last);
      IdsConcat(front, [last]);
      IdsConcat(PublishesOf(front), [last]);
      OwnId(last);
      assert front + [last] == a;
    }
  }

  /** Replaying the set-aside publishes before the rest loses none and keeps each topic's order. */
  lemma EarlyReplay(before: seq<Pkt>, after: seq<Pkt>)
    ensures forall topic :: PayloadsOn(topic, PublishesOf(before) + after) == PayloadsOn(topic, before + after)
    ensures IdsOf(PublishesOf(before) + after) == IdsOf(before + after)
  {
    forall topic ensures PayloadsOn(topic, PublishesOf(before) + after) == PayloadsOn(topic, before + after) {
      PayloadsConcat(topic, PublishesOf(before), after);
      PayloadsConcat(topic, before, after);
      PayloadsOfPublishes(topic, before);
    }
    IdsConcat(PublishesOf(before), after);
    IdsConcat(before, after);
    IdsOfPublishes(before);
  }

  /** Subscribe, then run: a publish that raced the SUBACK is recorded like any other. For every
      packet stream, the payloads recorded per topic are the payloads of the whole stream. */
  method Subscriber(filters: nat, qos: Qos, inbox: seq<Pkt>) returns (r: Handshake, m: Member)
    requires filters < 65536
    ensures fresh(m) && m.qos == qos
    ensures r.Subscribed? && !m.error ==> m.Recorded(inbox)
    ensures r.Subscribed? && (forall p :: p in inbox ==> Readable(p)) ==> !m.error
  {
    hide HoldsPayloadsOf, PublishesOf, Verdict, Readable, IsPublish;
    m := new Member(qos);
    var conn := new Conn();
    var used;
    r, used := conn.Subscribe(filters, qos, inbox);
    if !r.Subscribed? {
      return;
    }
    ghost var before := inbox[..used];
    var after := inbox[used..];
    assert conn.early == PublishesOf(before);
    PublishesAreFrom(before);
    m.Run(conn.early, after);
    assert inbox == before + after;
    if !m.error {
      m.Holds(before, after);
    }
  }

  /** The same from bytes: whatever the chunks, and wherever reads time out, the payloads recorded per topic
      are those of the packets sent, as far as they arrived. */
  method SubscriberOnWire(filters: nat, qos: Qos, polls: seq<Poll>, ghost sent: seq<Pkt>)
    returns (r: Handshake, m: Member, ghost got: seq<Pkt>)
    requires filters < 65536 && Sendable(sent) && Arrived(polls) <= Wire(sent)
    ensures fresh(m) && m.qos == qos
    ensures got <= sent && (Arrived(polls) == Wire(sent) ==> got == sent)
    ensures r.Subscribed? && !m.error ==> m.Recorded(got)
    ensures r.Subscribed? && (forall p :: p in sent ==> Readable(p)) ==> !m.error
  {
    hide HoldsPayloadsOf, Wire, Arrived, Reads, Readable, Sendable;
    ReaderDelivers(sent, polls);
    var reader := new PacketReader();
    var inbox, _ := reader.ReadAll(polls);
    got := inbox;
    r, m := Subscriber(filters, qos, inbox);
  }

  // ---------------------------------------------------------------------------
  // From messages
  // ---------------------------------------------------------------------------

  /** What the broker put on the wire: a message, built as a PUBLISH, or any other packet. */
  datatype Sent = Message(topic: Bytes, payload: Bytes, qos: Qos, id: nat) | Other(pkt: Pkt)

  ghost predicate BuiltAs(p: Pkt, s: Sent) {
    match s
    case Message(topic, payload, qos, id) =>
      PublishPacket(topic, payload, qos, id) == Ok(PacketBytes(p.first, p.body))
    case Other(pkt) => p == pkt && !IsPublish(p)
  }

  ghost predicate AllBuilt(pkts: seq<Pkt>, sents: seq<Sent>) {
    |pkts| == |sents| && forall k :: 0 <= k < |pkts| ==> BuiltAs(pkts[k], sents[k])
  }

  /** The payloads of the messages to `topic`, in order. */
  function MessagesOn(topic: Bytes, sents: seq<Sent>): (r: seq<Bytes>) {
    if sents == [] then []
    else
      var last := sents[|sents| - 1];
      MessagesOn(topic, sents[..|sents| - 1])
      + if last.Message? && last.topic == topic then [last.payload] else []
  }

  /** The packet ids of the messages sent above QoS 0, in order. */
  function IdsSent(sents: seq<Sent>): (r: seq<nat>) {
    if sents == [] then []
    else
      var last := sents[|sents| - 1];
      IdsSent(sents[..|sents| - 1]) + if last.Message? && last.qos > 0 then [last.id] else []
  }

  /** A built PUBLISH is one, parses, and delivers its own topic, payload and id. */
  lemma BuiltIsDelivered(p: Pkt, s: Sent)
    requires |p.body| <= MAX_REMAINING && BuiltAs(p, s)
    ensures Readable(p)
    ensures Delivery(p) == if s.Message? then Some((s.topic, s.payload)) else None
    ensures IdsOf([p]) == if s.Message? && s.qos > 0 then [s.id] else []
  {
    OwnId(p);
    if s.Message? {
      hide PacketBytes, PublishPacket, Decode, ParsePublish, PublishId;
      PublishRoundTrip(s.topic, s.payload, s.qos, s.id, []);
      RoundTrip(p.first, p.body, []);
    }
  }

  lemma NothingDelivered()
    ensures IdsOf([]) == [] && forall topic :: PayloadsOn(topic, []) == []
  {
  }

  lemma {:induction false} BuiltAreDelivered(pkts: seq<Pkt>, sents: seq<Sent>)
    requires Sendable(pkts) && AllBuilt(pkts, sents)
    ensures forall topic :: PayloadsOn(topic, pkts) == MessagesOn(topic, sents)
    ensures IdsOf(pkts) == IdsSent(sents)
    ensures forall p :: p in pkts ==> Readable(p)
  {
    hide Readable, Delivery, BuiltAs, IdsOf, PayloadsOn;
    if pkts == [] {
      NothingDelivered();
    } else {
      var n := |pkts| - 1;
      BuiltAreDelivered(pkts[..n], sents[..n]);
      assert BuiltAs(pkts[n], sents[n]);
      BuiltIsDelivered(pkts[n], sents[n]);
      Snoc(pkts[..n], pkts[n]);
      assert pkts == pkts[..n] + [pkts[n]];
    }
  }

  /** From messages to the record: the broker builds its messages and answers, the bytes arrive in any chunks,
      and every topic's record holds the payloads of the messages sent to it, in order, as far as they
      arrived; from QoS 1 on each is acknowledged with its own packet id. */
  method SubscriberOfMessages(filters: nat, qos: Qos, polls: seq<Poll>, ghost pkts: seq<Pkt>, ghost sents: seq<Sent>)
    returns (r: Handshake, m: Member, ghost n: nat)
    requires filters < 65536 && Sendable(pkts) && AllBuilt(pkts, sents) && Arrived(polls) <= Wire(pkts)
    ensures fresh(m) && n <= |sents| && (Arrived(polls) == Wire(pkts) ==> n == |sents|)
    ensures r.Subscribed? ==>
              && !m.error
              && (forall topic :: PayloadsIn(m.seen, topic) == MessagesOn(topic, sents[..n]))
              && m.acksSent == if qos >= 1 then IdsSent(sents[..n]) else []
  {
    hide Wire, Arrived, Readable, Sendable, BuiltAs, PayloadsOn, IdsOf, MessagesOn, IdsSent;
    ghost var got;
    r, m, got := SubscriberOnWire(filters, qos, polls, pkts);
    n := |got|;
    BuiltAreDelivered(pkts, sents);
    assert got == pkts[..n];
    SendablePrefix(pkts, n);
    BuiltAreDelivered(got, sents[..n]);
  }

  lemma SendablePrefix(pkts: seq<Pkt>, n: nat)
    requires Sendable(pkts) && n <= |pkts|
    ensures Sendable(pkts[..n])
  {
  }
}
