/** MQTT 3.1.1 packet framing: the remaining-length encoder, the packet decoder and the PUBLISH
    body, as the forwarding control writes and reads them (bench/scale/forward-canary.py). */
module Framing {
  import opened Results

  type Byte = b: int | 0 <= b < 256
  type Bytes = seq<Byte>

  const MAX_REMAINING: int := 268435455

  /** One attempt to take a packet off the front of a buffer. */
  datatype Decoded =
    | NeedMore
    | Malformed
    | Packet(first: Byte, body: Bytes, used: nat)

  // ---------------------------------------------------------------------------
  // Remaining length (section 2.2.3 of MQTT 3.1.1)
  // ---------------------------------------------------------------------------

  /** The base-128 digits of `n`, least significant first, each but the last with its top bit set. */
  function LengthBytes(n: nat): (r: Bytes)
    ensures |r| >= 1
  {
    if n < 128 then [n] else [n % 128 + 128] + LengthBytes(n / 128)
  }

  lemma LengthBytesNext(n: nat)
    ensures LengthBytes(n) == [if n / 128 != 0 then n % 128 + 128 else n % 128]
                              + if n / 128 != 0 then LengthBytes(n / 128) else []
  {
  }

  /** The encoder's loop. */
  method EncodeRemainingLength(n: int) returns (r: Result<Bytes>)
    ensures r.Ok? <==> 0 <= n <= MAX_REMAINING
    ensures r.Ok? ==> r.value == LengthBytes(n) && 1 <= |r.value| <= 4
  {
    hide LengthBytes;
    if n < 0 || n > MAX_REMAINING {
      return Raised;
    }
    LengthBytesShort(n);
    var out: Bytes := [];
    var rest := n;
    while true
      invariant 0 <= rest
      invariant out + LengthBytes(rest) == LengthBytes(n)
      decreases rest
    {
      LengthBytesNext(rest);
      var digit := rest % 128;
      rest := rest / 128;
      out := out + [if rest != 0 then digit + 128 else digit];
      if rest == 0 {
        return Ok(out);
      }
    }
  }

  function Pow128(k: nat): (r: nat)
    ensures r >= 1
  {
    if k == 0 then 1 else 128 * Pow128(k - 1)
  }

  /** A length below 128^k takes at most k bytes. */
  lemma {:induction false} LengthBytesWithin(n: nat, k: nat)
    requires 1 <= k && n < Pow128(k)
    ensures |LengthBytes(n)| <= k
  {
    if n >= 128 {
      assert Pow128(k) == 128 * Pow128(k - 1) && Pow128(0) == 1;
      LengthBytesWithin(n / 128, k - 1);
    }
  }

  lemma LengthBytesShort(n: nat)
    requires n <= MAX_REMAINING
    ensures |LengthBytes(n)| <= 4
  {
    assert Pow128(4) == 128 * Pow128(3) && Pow128(3) == 128 * Pow128(2)
        && Pow128(2) == 128 * Pow128(1) && Pow128(1) == 128 * Pow128(0);
    LengthBytesWithin(n, 4);
  }

  // ---------------------------------------------------------------------------
  // Decoding
  // ---------------------------------------------------------------------------

  datatype Header = Short | Overlong | Header(length: nat, pos: nat)

  function Plus(h: Header, n: nat): (r: Header) {
    if h.Header? then Header(n + h.length, h.pos) else h
  }

  /** The remaining length that starts at `pos`, with `pos - 1` length bytes already read. */
  function ReadLength(buf: Bytes, pos: nat, multiplier: nat): (h: Header)
    requires 1 <= pos <= 4
    ensures h.Header? ==> pos < h.pos <= |buf| && h.pos <= 5
    decreases 5 - pos
  {
    if pos >= |buf| then Short
    else if buf[pos] < 128 then Header(buf[pos] * multiplier, pos + 1)
    else if pos + 1 > 4 then Overlong
    else Plus(ReadLength(buf, pos + 1, multiplier * 128), (buf[pos] % 128) * multiplier)
  }

  /** One whole packet at the front of `buf`, if there is one. */
  function Decode(buf: Bytes): (d: Decoded)
  {
    if |buf| < 2 then NeedMore
    else
      match ReadLength(buf, 1, 1)
      case Short => NeedMore
      case Overlong => Malformed
      case Header(n, p) =>
        if |buf| < p + n then NeedMore else Packet(buf[0], buf[p..p + n], p + n)
  }

  lemma LengthStart(h: Header)
    ensures Plus(h, 0) == h
  {
  }

  lemma LengthStep(buf: Bytes, pos: nat, multiplier: nat, length: nat)
    requires 1 <= pos <= 4
    ensures var h := Plus(ReadLength(buf, pos, multiplier), length);
            if pos >= |buf| then h == Short
            else
              var length' := length + (buf[pos] % 128) * multiplier;
              if buf[pos] < 128 then h == Header(length', pos + 1)
              else if pos == 4 then h == Overlong
              else h == Plus(ReadLength(buf, pos + 1, multiplier * 128), length')
  {
  }

  /** The decoder's loop: `length`, `multiplier` and `pos` are updated byte by byte. */
  method DecodePacket(buf: Bytes) returns (d: Decoded)
    ensures d == Decode(buf)
  {
    hide ReadLength, Plus;
    if |buf| < 2 {
      return NeedMore;
    }
    var length: nat, multiplier: nat, pos: nat := 0, 1, 1;
    ghost var whole := ReadLength(buf, 1, 1);
    LengthStart(whole);
    while true
      invariant 1 <= pos <= 4
      invariant whole == Plus(ReadLength(buf, pos, multiplier), length)
      decreases 5 - pos
    {
      LengthStep(buf, pos, multiplier, length);
      if pos >= |buf| {
        return NeedMore;
      }
      var digit := buf[pos];
      var seven: nat := (digit % 128) * multiplier;
      pos := pos + 1;
      length := length + seven;
      if digit < 128 {
        break;
      }
      multiplier := multiplier * 128;
      if pos > 4 {
        return Malformed;
      }
    }
    if |buf| < pos + length {
      return NeedMore;
    }
    return Packet(buf[0], buf[pos..pos + length], pos + length);
  }

  // ---------------------------------------------------------------------------
  // What a frame is, without reference to either direction
  // ---------------------------------------------------------------------------

  /** The number a run of length bytes stands for. */
  function DigitsValue(d: Bytes): (n: nat)
  {
    if d == [] then 0 else d[0] % 128 + 128 * DigitsValue(d[1..])
  }

  /** Every byte but the last has its continuation bit set. */
  ghost predicate Continued(d: Bytes) {
    1 <= |d| && (forall k :: 0 <= k < |d| - 1 ==> d[k] >= 128) && d[|d| - 1] < 128
  }

  /** One to four length bytes, exactly the last of them without its continuation bit. */
  ghost predicate LengthField(d: Bytes, n: nat) {
    |d| <= 4 && Continued(d) && DigitsValue(d) == n
  }

  lemma ContinuedCons(b: Byte, rest: Bytes)
    ensures Continued([b]) <==> b < 128
    ensures b >= 128 && Continued(rest) ==> Continued([b] + rest)
    ensures DigitsValue([b] + rest) == b % 128 + 128 * DigitsValue(rest) && DigitsValue([b]) == b % 128
  {
    assert ([b] + rest)[1..] == rest && [b][1..] == [];
  }

  lemma ContinuedTail(d: Bytes)
    requires Continued(d) && |d| > 1
    ensures d[0] >= 128 && Continued(d[1..]) && DigitsValue(d) == d[0] % 128 + 128 * DigitsValue(d[1..])
  {
    assert d[0] >= 128;
    assert forall k :: 0 <= k < |d| - 1 ==> d[1..][k] == d[k + 1];
  }

  ghost predicate Frame(bytes: Bytes, d: Bytes, first: Byte, body: Bytes) {
    LengthField(d, |body|) && bytes == [first] + d + body
  }

  function PacketBytes(first: Byte, body: Bytes): (r: Bytes) {
    [first] + LengthBytes(|body|) + body
  }

  lemma Scaled(low: nat, rest: nat, multiplier: nat)
    ensures low * multiplier + rest * (multiplier * 128) == (low + 128 * rest) * multiplier
  {
  }

  /** A complete run of length bytes at `pos` is what `ReadLength` reads. */
  lemma {:induction false} ReadsField(buf: Bytes, pos: nat, multiplier: nat, d: Bytes)
    requires 1 <= pos <= 4 && |d| <= 5 - pos && pos + |d| <= |buf|
    requires Continued(d) && buf[pos..pos + |d|] == d
    ensures ReadLength(buf, pos, multiplier) == Header(DigitsValue(d) * multiplier, pos + |d|)
    decreases |d|
  {
    hide ReadLength, DigitsValue;
    assert buf[pos] == d[0];
    LengthStep(buf, pos, multiplier, 0);
    LengthStart(ReadLength(buf, pos, multiplier));
    if |d| == 1 {
      ContinuedCons(d[0], []);
      assert d == [d[0]];
    } else {
      ContinuedTail(d);
      assert buf[pos + 1..pos + |d|] == buf[pos..pos + |d|][1..];
      ReadsField(buf, pos + 1, multiplier * 128, d[1..]);
      Scaled(d[0] % 128, DigitsValue(d[1..]), multiplier);
    }
  }

  /** What `ReadLength` reads is a complete run of length bytes. */
  lemma {:induction false} ReadIsField(buf: Bytes, pos: nat, multiplier: nat)
    requires 1 <= pos <= 4
    requires ReadLength(buf, pos, multiplier).Header?
    ensures var h := ReadLength(buf, pos, multiplier);
            var d := buf[pos..h.pos];
            Continued(d) && h.length == DigitsValue(d) * multiplier
    decreases 5 - pos
  {
    hide Continued, DigitsValue;
    var h := ReadLength(buf, pos, multiplier);
    var d := buf[pos..h.pos];
    var rest := buf[pos + 1..h.pos];
    ContinuedCons(buf[pos], rest);
    assert d == [buf[pos]] + rest;
    if buf[pos] < 128 {
      assert d == [buf[pos]];
    } else {
      ReadIsField(buf, pos + 1, multiplier * 128);
      Scaled(buf[pos] % 128, DigitsValue(rest), multiplier);
    }
  }

  lemma {:induction false} ReadShort(buf: Bytes, pos: nat, multiplier: nat)
    requires 1 <= pos <= 4
    ensures ReadLength(buf, pos, multiplier).Short? <==>
            |buf| <= 4 && forall k :: pos <= k < |buf| ==> buf[k] >= 128
    ensures ReadLength(buf, pos, multiplier).Overlong? <==>
            |buf| >= 5 && forall k :: pos <= k <= 4 ==> buf[k] >= 128
    decreases 5 - pos
  {
    if pos < |buf| && buf[pos] >= 128 && pos < 4 {
      ReadShort(buf, pos + 1, multiplier * 128);
    }
  }

  lemma HeaderIsField(buf: Bytes)
    requires ReadLength(buf, 1, 1).Header?
    ensures var h := ReadLength(buf, 1, 1);
            LengthField(buf[1..h.pos], h.length)
  {
    hide ReadLength, Continued, DigitsValue;
    ReadIsField(buf, 1, 1);
    var h := ReadLength(buf, 1, 1);
    assert DigitsValue(buf[1..h.pos]) * 1 == DigitsValue(buf[1..h.pos]);
  }

  lemma ThreeParts(bytes: Bytes, p: nat, used: nat)
    requires 1 <= p <= used <= |bytes|
    ensures bytes[..used] == [bytes[0]] + bytes[1..p] + bytes[p..used]
  {
  }

  lemma DecodedIsFrame(buf: Bytes)
    requires Decode(buf).Packet?
    ensures var Packet(first, body, used) := Decode(buf);
            2 <= used <= |buf| && |body| < used && exists d :: Frame(buf[..used], d, first, body)
  {
    hide ReadLength, LengthField;
    var Packet(first, body, used) := Decode(buf);
    var h := ReadLength(buf, 1, 1);
    HeaderIsField(buf);
    ThreeParts(buf, h.pos, used);
    assert Frame(buf[..used], buf[1..h.pos], first, body);
  }

  lemma FrameDecodes(buf: Bytes, d: Bytes, first: Byte, body: Bytes, used: nat)
    requires used <= |buf| && Frame(buf[..used], d, first, body)
    ensures Decode(buf) == Packet(first, body, used)
  {
    var front := buf[..used];
    assert front[0] == first && front[1..1 + |d|] == d && front[1 + |d|..] == body;
    assert buf[1..1 + |d|] == d && buf[1 + |d|..used] == body;
    ReadsField(buf, 1, 1, d);
  }

  /** The decoder returns a packet exactly when a frame stands at the front of the buffer. */
  lemma DecodePacketIff(buf: Bytes, first: Byte, body: Bytes, used: nat)
    ensures Decode(buf) == Packet(first, body, used) <==>
            used <= |buf| && exists d :: Frame(buf[..used], d, first, body)
  {
    if Decode(buf) == Packet(first, body, used) {
      DecodedIsFrame(buf);
    }
    if used <= |buf| {
      if d :| Frame(buf[..used], d, first, body) {
        FrameDecodes(buf, d, first, body, used);
      }
    }
  }

  /** It waits exactly on the proper prefixes of frames: it never raises on a packet cut short. */
  lemma NeedMoreIff(buf: Bytes)
    ensures Decode(buf).NeedMore? <==>
            exists more: Bytes, d: Bytes, first: Byte, body: Bytes ::
              more != [] && Frame(buf + more, d, first, body)
  {
    if Decode(buf).NeedMore? {
      var more, d, first, body := Completion(buf);
      assert more != [] && Frame(buf + more, d, first, body);
    }
    if more: Bytes, d: Bytes, first: Byte, body: Bytes :| more != [] && Frame(buf + more, d, first, body) {
      FramePrefixWaits(buf, more, d, first, body);
    }
  }

  lemma FramePrefixWaits(buf: Bytes, more: Bytes, d: Bytes, first: Byte, body: Bytes)
    requires more != [] && Frame(buf + more, d, first, body)
    ensures Decode(buf).NeedMore?
  {
    var whole := buf + more;
    if |buf| >= 1 + |d| {
      forall k | 0 <= k < |d| ensures buf[1 + k] == d[k] { assert whole[1 + k] == d[k]; }
      assert buf[1..1 + |d|] == d;
      ReadsField(buf, 1, 1, d);
    } else if |buf| >= 2 {
      forall k | 1 <= k < |buf| ensures buf[k] >= 128 { assert whole[k] == d[k - 1]; }
      ReadShort(buf, 1, 1);
    }
  }

  /** Bytes that would complete the packet a waiting buffer has begun. */
  lemma Completion(buf: Bytes) returns (more: Bytes, d: Bytes, first: Byte, body: Bytes)
    requires Decode(buf).NeedMore?
    ensures more != [] && Frame(buf + more, d, first, body)
  {
    if |buf| == 0 {
      more, d, first, body := [0, 0], [0], 0, [];
      assert DigitsValue(d[1..]) == 0;
    } else if |buf| == 1 {
      more, d, first, body := [0], [0], buf[0], [];
      assert DigitsValue(d[1..]) == 0;
    } else {
      first := buf[0];
      if ReadLength(buf, 1, 1).Short? {
        more, d, body := LengthCompletion(buf);
      } else {
        more, d, body := BodyCompletion(buf);
      }
    }
  }

  lemma LengthCompletion(buf: Bytes) returns (more: Bytes, d: Bytes, body: Bytes)
    requires |buf| >= 2 && ReadLength(buf, 1, 1).Short?
    ensures more != [] && Frame(buf + more, d, buf[0], body)
  {
    ReadShort(buf, 1, 1);
    d := buf[1..] + [0];
    body := seq(DigitsValue(d), i => 0);
    more := [0] + body;
    assert buf + more == [buf[0]] + d + body;
  }

  lemma BodyCompletion(buf: Bytes) returns (more: Bytes, d: Bytes, body: Bytes)
    requires |buf| >= 2 && ReadLength(buf, 1, 1).Header? && Decode(buf).NeedMore?
    ensures more != [] && Frame(buf + more, d, buf[0], body)
  {
    hide ReadLength, LengthField;
    var h := ReadLength(buf, 1, 1);
    HeaderIsField(buf);
    more := seq(h.pos + h.length - |buf|, i => 0);
    var whole := buf + more;
    d, body := buf[1..h.pos], whole[h.pos..|whole|];
    ThreeParts(whole, h.pos, |whole|);
    assert whole[..|whole|] == whole && whole[1..h.pos] == d;
  }

  /** It raises exactly when four length bytes in a row carry the continuation bit. */
  lemma MalformedIff(buf: Bytes)
    ensures Decode(buf).Malformed? <==> |buf| >= 5 && forall k :: 1 <= k <= 4 ==> buf[k] >= 128
  {
    if |buf| >= 2 { ReadShort(buf, 1, 1); }
  }

  /** A verdict other than "wait" does not change when more bytes arrive. */
  lemma DecodeStable(buf: Bytes, more: Bytes)
    requires !Decode(buf).NeedMore?
    ensures Decode(buf + more) == Decode(buf)
  {
    if Decode(buf).Malformed? {
      MalformedIff(buf);
      MalformedIff(buf + more);
    } else {
      var Packet(first, body, used) := Decode(buf);
      DecodePacketIff(buf, first, body, used);
      assert (buf + more)[..used] == buf[..used];
      DecodePacketIff(buf + more, first, body, used);
    }
  }

  // ---------------------------------------------------------------------------
  // The encoder inverted
  // ---------------------------------------------------------------------------

  lemma {:induction false} LengthBytesIsField(n: nat)
    ensures Continued(LengthBytes(n)) && DigitsValue(LengthBytes(n)) == n
  {
    hide Continued, DigitsValue;
    if n < 128 {
      ContinuedCons(n, []);
    } else {
      LengthBytesIsField(n / 128);
      ContinuedCons(n % 128 + 128, LengthBytes(n / 128));
    }
  }

  lemma PacketIsFrame(first: Byte, body: Bytes)
    requires |body| <= MAX_REMAINING
    ensures Frame(PacketBytes(first, body), LengthBytes(|body|), first, body)
  {
    LengthBytesIsField(|body|);
    LengthBytesShort(|body|);
  }

  /** Encode, append anything, decode: first byte, body and consumed length come back. */
  lemma RoundTrip(first: Byte, body: Bytes, tail: Bytes)
    requires |body| <= MAX_REMAINING
    ensures Decode(PacketBytes(first, body) + tail) ==
            Packet(first, body, |PacketBytes(first, body)|)
  {
    var p := PacketBytes(first, body);
    PacketIsFrame(first, body);
    assert (p + tail)[..|p|] == p;
    DecodePacketIff(p + tail, first, body, |p|);
  }

  /** Every proper prefix of a packet makes the decoder wait. */
  lemma ProperPrefixWaits(first: Byte, body: Bytes, cut: nat)
    requires |body| <= MAX_REMAINING
    requires cut < |PacketBytes(first, body)|
    ensures Decode(PacketBytes(first, body)[..cut]).NeedMore?
  {
    var p := PacketBytes(first, body);
    PacketIsFrame(first, body);
    assert p[..cut] + p[cut..] == p;
    FramePrefixWaits(p[..cut], p[cut..], LengthBytes(|body|), first, body);
  }

  // ---------------------------------------------------------------------------
  // PUBLISH
  // ---------------------------------------------------------------------------

  type Qos = q: int | 0 <= q <= 2

  function U16(n: nat): (r: Bytes)
    requires n < 65536
    ensures |r| == 2
  {
    [n / 256, n % 256]
  }

  function FromU16(b: Bytes): (n: nat)
    requires |b| == 2
    ensures n < 65536
  {
    (b[0] as int) * 256 + b[1] as int
  }

  /** A length-prefixed string; longer than 65535 bytes raises. */
  function Utf8(text: Bytes): (r: Result<Bytes>) {
    if |text| > 65535 then Raised else Ok(U16(|text|) + text)
  }

  function MakePacket(first: Byte, body: Bytes): (r: Result<Bytes>) {
    if |body| > MAX_REMAINING then Raised else Ok(PacketBytes(first, body))
  }

  /** A PUBLISH at `qos`; above QoS 0 the packet id sits between topic and payload. */
  function PublishPacket(topic: Bytes, payload: Bytes, qos: Qos, packetId: int): (r: Result<Bytes>) {
    match Utf8(topic)
    case Raised => Raised
    case Ok(t) =>
      if qos == 0 then MakePacket(0x30, t + payload)
      else if 0 <= packetId < 65536 then MakePacket(0x30 + 2 * qos, t + U16(packetId) + payload)
      else Raised
  }

  /** The QoS bits of a first byte: shifted right by one and masked with 3. */
  function QosBits(first: Byte): (q: nat) {
    first / 2 % 4
  }

  function PublishId(first: Byte, body: Bytes): (r: Result<Option<nat>>) {
    if QosBits(first) == 0 then Ok(None)
    else if |body| < 2 then Raised
    else
      var n := FromU16(body[..2]);
      if |body| < n + 4 then Raised else Ok(Some(FromU16(body[n + 2..n + 4])))
  }

  function ParsePublish(first: Byte, body: Bytes): (r: Result<(Bytes, Bytes)>) {
    if |body| < 2 then Raised
    else
      var n := FromU16(body[..2]);
      var offset := 2 + n + (if QosBits(first) != 0 then 2 else 0);
      if |body| < offset then Raised else Ok((body[2..2 + n], body[offset..]))
  }

  /** A PUBLISH is built exactly when its fields fit, and topic, payload and packet id all come
      back from the wire at every QoS, whatever follows the packet. */
  lemma PublishRoundTrip(topic: Bytes, payload: Bytes, qos: Qos, packetId: int, tail: Bytes)
    ensures var p := PublishPacket(topic, payload, qos, packetId);
            var idSize := if qos == 0 then 0 else 2;
            && (p.Ok? <==> |topic| <= 65535 && (qos > 0 ==> 0 <= packetId <= 65535)
                           && 2 + |topic| + idSize + |payload| <= MAX_REMAINING)
            && (p.Ok? ==>
                  && Decode(p.value + tail).Packet?
                  && var Packet(first, body, used) := Decode(p.value + tail);
                  && used == |p.value|
                  && first / 16 == 3
                  && QosBits(first) == qos
                  && ParsePublish(first, body) == Ok((topic, payload))
                  && PublishId(first, body) == Ok(if qos == 0 then None else Some(packetId)))
  {
    hide ParsePublish, PublishId, Decode, PacketBytes;
    var p := PublishPacket(topic, payload, qos, packetId);
    if p.Ok? {
      var id: Bytes := if qos == 0 then [] else U16(packetId);
      var first: Byte := 0x30 + 2 * qos;
      var body := U16(|topic|) + topic + id + payload;
      assert qos == 0 ==> body == U16(|topic|) + topic + payload;
      RoundTrip(first, body, tail);
      PublishBodyParses(first, topic, id, payload, body);
    }
  }

  /** Where the fields of a built PUBLISH stand on the wire (section 3.3 of MQTT 3.1.1): type 3 and the QoS in the
      first byte, the length field, then topic length, topic, packet id above QoS 0, payload; two-byte numbers
      with the high byte first. */
  lemma PublishLayout(topic: Bytes, payload: Bytes, qos: Qos, packetId: int) returns (body: Bytes)
    requires PublishPacket(topic, payload, qos, packetId).Ok?
    ensures Frame(PublishPacket(topic, payload, qos, packetId).value, LengthBytes(|body|), 3 * 16 + qos * 2, body)
    ensures LaidOut(topic, payload, qos != 0, packetId, body)
  {
    hide Frame, PacketBytes, LengthBytes, U16;
    var id: Bytes := if qos == 0 then [] else U16(packetId);
    body := U16(|topic|) + topic + id + payload;
    assert qos == 0 ==> body == U16(|topic|) + topic + payload;
    PacketIsFrame(3 * 16 + qos * 2, body);
    FieldsLaidOut(topic, payload, qos != 0, packetId, id, body);
  }

  predicate LaidOut(topic: Bytes, payload: Bytes, withId: bool, packetId: int, body: Bytes) {
    var n := |topic|;
    && |body| == n + |payload| + (if withId then 4 else 2)
    && body[0] as int * 256 + body[1] as int == n && body[2..2 + n] == topic
    && (if withId then body[2 + n] as int * 256 + body[3 + n] as int == packetId && body[4 + n..] == payload
        else body[2 + n..] == payload)
  }

  lemma FieldsStand(topic: Bytes, id: Bytes, payload: Bytes, body: Bytes)
    requires |topic| <= 65535 && |id| <= 2 && body == U16(|topic|) + topic + id + payload
    ensures body[0] == |topic| / 256 && body[1] == |topic| % 256 && body[2..2 + |topic|] == topic
    ensures forall k :: 0 <= k < |id| ==> body[2 + |topic| + k] == id[k]
    ensures body[2 + |topic| + |id|..] == payload
  {
  }

  lemma FieldsLaidOut(topic: Bytes, payload: Bytes, withId: bool, packetId: int, id: Bytes, body: Bytes)
    requires |topic| <= 65535 && (withId ==> 0 <= packetId < 65536)
    requires id == (if withId then U16(packetId) else []) && body == U16(|topic|) + topic + id + payload
    ensures LaidOut(topic, payload, withId, packetId, body)
  {
    FieldsStand(topic, id, payload, body);
  }

  lemma PublishBodyParses(first: Byte, topic: Bytes, id: Bytes, payload: Bytes, body: Bytes)
    requires |topic| <= 65535
    requires |id| == if QosBits(first) == 0 then 0 else 2
    requires body == U16(|topic|) + topic + id + payload
    ensures ParsePublish(first, body) == Ok((topic, payload))
    ensures PublishId(first, body) == Ok(if |id| == 0 then None else Some(FromU16(id)))
  {
    assert body[..2] == U16(|topic|);
    assert FromU16(body[..2]) == |topic|;
    assert body[2..2 + |topic|] == topic;
    assert body[2 + |topic| + |id|..] == payload;
    assert body[2 + |topic|..2 + |topic| + |id|] == id;
  }

  /** A body parses exactly as what is laid out in it, and raises exactly when it ends before its payload. */
  lemma ParsedIff(first: Byte, body: Bytes, topic: Bytes, payload: Bytes, packetId: nat)
    ensures ParsePublish(first, body) == Ok((topic, payload))
            && (QosBits(first) != 0 ==> PublishId(first, body) == Ok(Some(packetId)))
            <==> LaidOut(topic, payload, QosBits(first) != 0, packetId, body)
    ensures ParsePublish(first, body).Raised? <==>
            |body| < 2 || |body| < 2 + body[0] as int * 256 + body[1] as int + (if QosBits(first) != 0 then 2 else 0)
  {
    if |body| >= 2 {
      var n := FromU16(body[..2]);
      var offset := 2 + n + (if QosBits(first) != 0 then 2 else 0);
      if |body| >= offset && QosBits(first) != 0 {
        assert body[n + 2..n + 4][0] == body[n + 2] && body[n + 2..n + 4][1] == body[n + 3];
      }
    }
  }

  /** A body whose topic parses also yields its packet id: acknowledging never raises. */
  lemma ParsedHasId(first: Byte, body: Bytes)
    requires ParsePublish(first, body).Ok?
    ensures PublishId(first, body).Ok?
    ensures PublishId(first, body).value.Some? <==> QosBits(first) != 0
  {
  }
}
