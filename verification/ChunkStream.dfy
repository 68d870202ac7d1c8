/** The framed output stream of a forwarding-control run: `Emitter.emit` writes chunks,
    `split_stream` takes them apart again (bench/scale/forward-canary.py). */
module ChunkStream {
  import opened Results
  import opened Texts

  datatype Chunk = Chunk(name: string, content: string)

  /** A marker line: where it starts and where the text after it begins. */
  datatype Mark = Mark(start: nat, end: nat)

  predicate NameChar(c: char) {
    'A' <= c <= 'Z' || 'a' <= c <= 'z' || '0' <= c <= '9' || c == '.' || c == '_' || c == '-'
  }

  predicate PlainName(name: string) {
    name != [] && forall k :: 0 <= k < |name| ==> NameChar(name[k])
  }

  /** What the name check lets through: its `$` also matches just before a final newline. */
  predicate AcceptedName(name: string) {
    PlainName(name) || (|name| > 1 && name[|name| - 1] == '\n' && PlainName(name[..|name| - 1]))
  }

  function Framed(chunk: Chunk): (text: string) {
    "\n@@@ " + chunk.name + "\n" + chunk.content
  }

  function Render(chunks: seq<Chunk>): (text: string) {
    if chunks == [] then "" else Framed(chunks[0]) + Render(chunks[1..])
  }

  class Emitter {
    var stream: string
    var broken: bool

    constructor ()
      ensures stream == "" && !broken
    {
      stream := "";
      broken := false;
    }

    /** Writes one chunk. `room` is how much the stream still takes: when the chunk does not fit,
        what fits goes out, the stream counts as broken and later chunks are dropped. */
    method Emit(name: string, content: string, room: nat) returns (r: Result<()>)
      modifies this
      ensures r.Raised? <==> !AcceptedName(name)
      ensures var text := Framed(Chunk(name, content));
              if r.Raised? || old(broken) then
                stream == old(stream) && broken == old(broken)
              else if |text| <= room then
                stream == old(stream) + text && !broken
              else
                stream == old(stream) + text[..room] && broken
    {
      if !AcceptedName(name) {
        return Raised;
      }
      if broken {
        return Ok(());
      }
      var text := "\n@@@ " + name + "\n" + content;
      if |text| <= room {
        stream := stream + text;
      } else {
        stream := stream + text[..room];
        broken := true;
      }
      return Ok(());
    }

    /** Chunk after chunk onto a live stream. */
    method EmitAll(chunks: seq<Chunk>)
      requires stream == "" && !broken
      requires forall k :: 0 <= k < |chunks| ==> AcceptedName(chunks[k].name)
      modifies this
      ensures stream == Render(chunks) && !broken
    {
      var i := 0;
      while i < |chunks|
        invariant 0 <= i <= |chunks| && !broken
        invariant stream == Render(chunks[..i])
      {
        var r := Emit(chunks[i].name, chunks[i].content, |Framed(chunks[i])|);
        RenderSnoc(chunks[..i], chunks[i]);
        assert chunks[..i] + [chunks[i]] == chunks[..i + 1];
        i := i + 1;
      }
      assert chunks[..i] == chunks;
    }
  }

  lemma {:induction false} RenderSnoc(chunks: seq<Chunk>, last: Chunk)
    ensures Render(chunks + [last]) == Render(chunks) + Framed(last)
  {
    hide Framed;
    if chunks == [] {
      assert chunks + [last] == [last] && [last][1..] == [];
      assert Framed(last) + "" == Framed(last) && "" + Framed(last) == Framed(last);
    } else {
      var f, rest, l := Framed(chunks[0]), Render(chunks[1..]), Framed(last);
      RenderSnoc(chunks[1..], last);
      assert (chunks + [last])[1..] == chunks[1..] + [last];
      assert f + (rest + l) == (f + rest) + l;
    }
  }

  // ---------------------------------------------------------------------------
  // Splitting
  // ---------------------------------------------------------------------------

  predicate LineStart(text: string, pos: nat)
    requires pos <= |text|
  {
    pos == 0 || text[pos - 1] == '\n'
  }

  /** Where the run of name characters that starts at `pos` ends. */
  function NameEnd(text: string, pos: nat): (e: nat)
    requires pos <= |text|
    ensures pos <= e <= |text|
    decreases |text| - pos
  {
    if pos < |text| && NameChar(text[pos]) then NameEnd(text, pos + 1) else pos
  }

  /** A marker line `@@@ name`, newline included, starts at `pos`. */
  predicate IsMark(text: string, pos: nat)
  {
    && pos + 4 < |text|
    && LineStart(text, pos)
    && text[pos] == '@' && text[pos + 1] == '@' && text[pos + 2] == '@' && text[pos + 3] == ' '
    && var e := NameEnd(text, pos + 4);
    && pos + 4 < e < |text| && text[e] == '\n'
  }

  function MarkEnd(text: string, pos: nat): (e: nat)
    requires IsMark(text, pos)
    ensures pos + 6 <= e <= |text|
  {
    NameEnd(text, pos + 4) + 1
  }

  /** The search from left to right; the next one begins where a match ended. */
  function Marks(text: string, pos: nat): (r: seq<Mark>)
    decreases |text| - pos
  {
    if pos >= |text| then []
    else if IsMark(text, pos) then [Mark(pos, MarkEnd(text, pos))] + Marks(text, MarkEnd(text, pos))
    else Marks(text, pos + 1)
  }

  predicate Blank(s: string) {
    forall k :: 0 <= k < |s| ==> IsSpace(s[k])
  }

  ghost predicate InOrder(marks: seq<Mark>, lo: nat, hi: nat) {
    && (forall k :: 0 <= k < |marks| ==> lo <= marks[k].start && marks[k].start + 6 <= marks[k].end <= hi)
    && (forall k :: 0 < k < |marks| ==> marks[k - 1].end <= marks[k].start)
  }

  lemma InOrderCons(m: Mark, rest: seq<Mark>, hi: nat)
    requires m.start + 6 <= m.end <= hi && InOrder(rest, m.end, hi)
    ensures InOrder([m] + rest, m.start, hi)
  {
    var all := [m] + rest;
    forall k | 0 < k < |all| ensures all[k - 1].end <= all[k].start {
      assert all[k] == rest[k - 1];
      if k > 1 { assert all[k - 1] == rest[k - 2]; }
    }
  }

  lemma {:induction false} MarksInOrder(text: string, pos: nat)
    ensures InOrder(Marks(text, pos), pos, |text|)
    decreases |text| - pos
  {
    if pos < |text| {
      if IsMark(text, pos) {
        var e := MarkEnd(text, pos);
        MarksInOrder(text, e);
        InOrderCons(Mark(pos, e), Marks(text, e), |text|);
      } else {
        MarksInOrder(text, pos + 1);
      }
    }
  }

  /** The n-th chunk: its name, and the text up to the next marker without the framing newline; the
      last one keeps everything. */
  function ChunkAt(text: string, marks: seq<Mark>, n: nat): (c: Chunk)
    requires n < |marks| && InOrder(marks, 0, |text|)
  {
    var m := marks[n];
    var body := if n + 1 == |marks| then text[m.end..]
                else if marks[n + 1].start == m.end then ""
                else text[m.end..marks[n + 1].start - 1];
    Chunk(text[m.start + 4..m.end - 1], body)
  }

  function Split(text: string): (r: Result<seq<Chunk>>)
  {
    var marks := Marks(text, 0);
    MarksInOrder(text, 0);
    if marks == [] then (if Blank(text) then Ok([]) else Raised)
    else if !Blank(text[..marks[0].start]) then Raised
    else Ok(seq(|marks|, n requires 0 <= n < |marks| => ChunkAt(text, marks, n)))
  }

  method SplitStream(text: string) returns (r: Result<seq<Chunk>>)
    ensures r == Split(text)
  {
    var marks := Marks(text, 0);
    MarksInOrder(text, 0);
    if marks == [] {
      return if Blank(text) then Ok([]) else Raised;
    }
    if !Blank(text[..marks[0].start]) {
      return Raised;
    }
    var out := CutAt(text, marks);
    return Ok(out);
  }

  lemma CutBody(text: string, marks: seq<Mark>, n: nat)
    requires n < |marks| && InOrder(marks, 0, |text|)
    ensures var last := n + 1 == |marks|;
            var stop := if last then |text| else marks[n + 1].start;
            && marks[n].start + 4 <= marks[n].end - 1 <= |text| && marks[n].end <= stop <= |text|
            && var raw := text[marks[n].end..stop];
            && ChunkAt(text, marks, n) == Chunk(text[marks[n].start + 4..marks[n].end - 1],
                                                if !last && raw != "" then raw[..|raw| - 1] else raw)
  {
    if n + 1 < |marks| {
      var from, stop := marks[n].end, marks[n + 1].start;
      assert from < stop ==> text[from..stop][..stop - from - 1] == text[from..stop - 1];
    }
  }

  /** The loop over the markers found. */
  method CutAt(text: string, marks: seq<Mark>) returns (out: seq<Chunk>)
    requires InOrder(marks, 0, |text|)
    ensures out == seq(|marks|, n requires 0 <= n < |marks| => ChunkAt(text, marks, n))
  {
    hide ChunkAt;
    out := [];
    var n := 0;
    while n < |marks|
      invariant 0 <= n <= |marks| && |out| == n
      invariant forall k :: 0 <= k < n ==> out[k] == ChunkAt(text, marks, k)
    {
      CutBody(text, marks, n);
      hide InOrder;
      var last := n + 1 == |marks|;
      var body := text[marks[n].end..if last then |text| else marks[n + 1].start];
      if !last && body != "" {
        body := body[..|body| - 1];
      }
      out := out + [Chunk(text[marks[n].start + 4..marks[n].end - 1], body)];
      n := n + 1;
    }
  }

  // ---------------------------------------------------------------------------
  // The splitter inverts the emitter
  // ---------------------------------------------------------------------------

  /** A content as the splitter sees it: unless it is the last, the framing newline follows it. */
  function Terminated(content: string, last: bool): (s: string) {
    if last then content else content + "\n"
  }

  /** Does a line of `content` itself have the form of a marker? The unterminated final line of a
      content that is not the last one counts too. */
  ghost predicate HasMarkerLine(content: string, last: bool) {
    exists p :: IsMark(Terminated(content, last), p)
  }

  ghost predicate Splittable(chunks: seq<Chunk>) {
    forall k :: 0 <= k < |chunks| ==>
      PlainName(chunks[k].name) && !HasMarkerLine(chunks[k].content, k + 1 == |chunks|)
  }

  lemma {:induction false} NameEndLocal(text: string, at: nat, part: string, p: nat)
    requires At(text, at, part) && p <= |part|
    ensures NameEnd(part, p) < |part| ==> NameEnd(text, at + p) == at + NameEnd(part, p)
    ensures NameEnd(part, p) == |part| ==> NameEnd(text, at + p) >= at + |part|
    decreases |part| - p
  {
    if p < |part| {
      assert text[at + p] == part[p];
      if NameChar(part[p]) {
        NameEndLocal(text, at, part, p + 1);
      }
    }
  }

  /** A marker inside a stretch of whole lines is a marker of the text, and conversely. */
  lemma MarkLocal(text: string, at: nat, part: string, p: nat)
    requires At(text, at, part) && LineStart(text, at)
    requires at + |part| == |text| || (part != "" && part[|part| - 1] == '\n')
    requires p < |part|
    ensures IsMark(part, p) <==> IsMark(text, at + p)
    ensures IsMark(part, p) ==> MarkEnd(text, at + p) == at + MarkEnd(part, p)
  {
    assert LineStart(part, p) <==> LineStart(text, at + p) by {
      if p > 0 { assert text[at + p - 1] == part[p - 1]; }
    }
    if p + 4 < |part| {
      assert text[at + p] == part[p] && text[at + p + 1] == part[p + 1]
          && text[at + p + 2] == part[p + 2] && text[at + p + 3] == part[p + 3];
      NameEndLocal(text, at, part, p + 4);
      NameEndBeforeNewline(text, at + p + 4, at + |part| - 1);
      NameEndBeforeNewline(part, p + 4, |part| - 1);
    } else if at + |part| < |text| {
      assert text[at + |part| - 1] == part[|part| - 1] == '\n';
    }
  }

  lemma {:induction false} NameEndBeforeNewline(text: string, pos: nat, stop: int)
    requires pos <= |text|
    ensures pos <= stop < |text| && text[stop] == '\n' ==> NameEnd(text, pos) <= stop
    decreases |text| - pos
  {
    if pos < |text| && NameChar(text[pos]) {
      NameEndBeforeNewline(text, pos + 1, stop);
    }
  }

  // -- every marker is found

  lemma {:induction false} MarksFound(text: string, pos: nat)
    ensures forall k :: 0 <= k < |Marks(text, pos)| ==>
              var m := Marks(text, pos)[k]; IsMark(text, m.start) && m.end == MarkEnd(text, m.start)
    ensures forall p :: p >= pos && IsMark(text, p) ==>
              exists k :: 0 <= k < |Marks(text, pos)| && Marks(text, pos)[k].start == p
    decreases |text| - pos
  {
    if pos < |text| {
      var all := Marks(text, pos);
      if IsMark(text, pos) {
        var e := MarkEnd(text, pos);
        var rest := Marks(text, e);
        MarksFound(text, e);
        assert all[0].start == pos && all[1..] == rest;
        forall p | p >= pos && IsMark(text, p) ensures exists k :: 0 <= k < |all| && all[k].start == p {
          if p != pos {
            NoMarkInside(text, pos, p);
            var k :| 0 <= k < |rest| && rest[k].start == p;
            assert all[k + 1].start == p;
          }
        }
      } else {
        MarksFound(text, pos + 1);
      }
    }
  }

  lemma NoMarkInside(text: string, pos: nat, p: nat)
    requires IsMark(text, pos) && pos < p < |text| && LineStart(text, p)
    ensures p >= MarkEnd(text, pos)
  {
    if p < MarkEnd(text, pos) {
      NameEndIsName(text, pos + 4);
      assert false;
    }
  }

  lemma {:induction false} NameEndIsName(text: string, pos: nat)
    requires pos <= |text|
    ensures forall k :: pos <= k < NameEnd(text, pos) ==> NameChar(text[k])
    decreases |text| - pos
  {
    if pos < |text| && NameChar(text[pos]) {
      NameEndIsName(text, pos + 1);
    }
  }

  lemma SplitChunks(text: string)
    requires Split(text).Ok?
    ensures var chunks, marks := Split(text).value, Marks(text, 0);
            && |chunks| == |marks| && InOrder(marks, 0, |text|)
            && forall k :: 0 <= k < |chunks| ==> chunks[k] == ChunkAt(text, marks, k)
  {
    hide Marks, ChunkAt, Blank, InOrder;
    MarksInOrder(text, 0);
  }

  lemma MarkName(text: string, pos: nat)
    requires IsMark(text, pos)
    ensures PlainName(text[pos + 4..MarkEnd(text, pos) - 1])
  {
    NameEndIsName(text, pos + 4);
  }

  lemma ChunkName(text: string, marks: seq<Mark>, k: nat)
    requires marks == Marks(text, 0) && InOrder(marks, 0, |text|) && k < |marks|
    ensures PlainName(ChunkAt(text, marks, k).name)
  {
    hide Marks, PlainName, IsMark, MarkEnd;
    MarksFound(text, 0);
    MarkName(text, marks[k].start);
  }

  /** Whatever the text, the chunks it is split into have plain names and no marker line of their own:
      the splitter never leaves a marker unread. */
  lemma SplitIsSplittable(text: string)
    requires Split(text).Ok?
    ensures Splittable(Split(text).value)
  {
    hide Split, Marks, ChunkAt, HasMarkerLine, PlainName, InOrder;
    SplitChunks(text);
    var chunks, marks := Split(text).value, Marks(text, 0);
    forall k | 0 <= k < |chunks|
      ensures PlainName(chunks[k].name) && !HasMarkerLine(chunks[k].content, k + 1 == |chunks|)
    {
      ChunkName(text, marks, k);
      BodyIsQuiet(text, marks, k);
    }
  }

  /** The text a body was cut from, framing newline included, or the lone newline of an empty one. */
  /** Chunk `k`'s content, with the newline that ends it, is the text up to the next mark or the end. */
  ghost predicate Region(text: string, marks: seq<Mark>, k: nat, part: string)
    requires k < |marks|
  {
    var from, last := marks[k].end, k + 1 == |marks|;
    || part == "\n"
    || (&& At(text, from, part)
        && (if last then from + |part| == |text| else from + |part| == marks[k + 1].start)
        && (last || (part != "" && part[|part| - 1] == '\n')))
  }

  lemma RegionOf(text: string, marks: seq<Mark>, k: nat)
    requires InOrder(marks, 0, |text|) && k < |marks|
    requires k + 1 < |marks| && marks[k + 1].start > marks[k].end ==> text[marks[k + 1].start - 1] == '\n'
    ensures Region(text, marks, k, Terminated(ChunkAt(text, marks, k).content, k + 1 == |marks|))
  {
  }

  lemma MarkAtStart(text: string, pos: nat)
    requires IsMark(text, pos)
    ensures MarkEnd(text, pos) <= |text| && LineStart(text, MarkEnd(text, pos))
    ensures pos > 0 ==> text[pos - 1] == '\n'
  {
    hide NameEnd;
  }

  lemma MarkFound(text: string, k: nat)
    requires k < |Marks(text, 0)|
    ensures var m := Marks(text, 0)[k]; IsMark(text, m.start) && m.end == MarkEnd(text, m.start)
  {
    hide Marks, IsMark, MarkEnd;
    MarksFound(text, 0);
  }

  lemma BodyRegion(text: string, marks: seq<Mark>, k: nat)
    requires marks == Marks(text, 0) && InOrder(marks, 0, |text|) && k < |marks|
    ensures LineStart(text, marks[k].end)
    ensures Region(text, marks, k, Terminated(ChunkAt(text, marks, k).content, k + 1 == |marks|))
  {
    hide Marks, IsMark, MarkEnd, Region, ChunkAt, Terminated, InOrder;
    MarkFound(text, k);
    MarkAtStart(text, marks[k].start);
    if k + 1 < |marks| {
      MarkFound(text, k + 1);
      MarkAtStart(text, marks[k + 1].start);
    }
    RegionOf(text, marks, k);
  }

  lemma BodyIsQuiet(text: string, marks: seq<Mark>, k: nat)
    requires marks == Marks(text, 0) && InOrder(marks, 0, |text|) && k < |marks|
    ensures !HasMarkerLine(ChunkAt(text, marks, k).content, k + 1 == |marks|)
  {
    BodyRegion(text, marks, k);
    var from := marks[k].end;
    var part := Terminated(ChunkAt(text, marks, k).content, k + 1 == |marks|);
    if p :| IsMark(part, p) {
      MarkLocal(text, from, part, p);
      MarksFound(text, 0);
      var j :| 0 <= j < |marks| && marks[j].start == from + p;
      MarksApart(marks, |text|, j, k);
      assert false;
    }
  }

  lemma {:induction false} MarksApart(marks: seq<Mark>, hi: nat, i: nat, k: nat)
    requires InOrder(marks, 0, hi) && i < |marks| && k < |marks|
    ensures i <= k ==> marks[i].start <= marks[k].start
    ensures i > k ==> marks[k].end <= marks[k + 1].start <= marks[i].start
    decreases if i <= k then k - i else i - k
  {
    if i < k {
      MarksApart(marks, hi, i, k - 1);
    } else if i > k + 1 {
      MarksApart(marks, hi, i - 1, k);
    }
  }

  // -- the marks of an emitted stream

  /** The marks an emitted stream is meant to have. */
  function Expected(chunks: seq<Chunk>, base: nat): (r: seq<Mark>)
    ensures |r| == |chunks|
  {
    if chunks == [] then []
    else
      [Mark(base + 1, base + 6 + |chunks[0].name|)]
      + Expected(chunks[1..], base + |Framed(chunks[0])|)
  }

  lemma {:induction false} SkipTo(text: string, pos: nat, stop: nat)
    requires pos <= stop <= |text|
    requires forall p :: pos <= p < stop ==> !IsMark(text, p)
    ensures Marks(text, pos) == Marks(text, stop)
    decreases stop - pos
  {
    if pos < stop {
      SkipTo(text, pos + 1, stop);
    }
  }

  lemma {:induction false} NameEndExact(text: string, pos: nat, name: string)
    requires At(text, pos, name) && pos + |name| < |text| && !NameChar(text[pos + |name|])
    requires forall k :: 0 <= k < |name| ==> NameChar(name[k])
    ensures NameEnd(text, pos) == pos + |name|
    decreases |name|
  {
    if name != "" {
      assert text[pos] == name[0];
      assert forall i :: 0 <= i < |name| - 1 ==> name[1..][i] == name[i + 1];
      NameEndExact(text, pos + 1, name[1..]);
    }
  }

  lemma FramedMark(text: string, base: nat, c: Chunk)
    requires At(text, base, Framed(c)) && PlainName(c.name)
    ensures !IsMark(text, base)
    ensures IsMark(text, base + 1) && MarkEnd(text, base + 1) == base + 6 + |c.name|
    ensures At(text, base + 6 + |c.name|, c.content)
  {
    MarkerStands(text, base, c);
    FramedParts(text, base, c);
    hide Framed;
    forall i | 0 <= i < |c.name| ensures text[base + 5 + i] == c.name[i] {}
    NameEndExact(text, base + 5, c.name);
  }

  lemma MarkerStands(text: string, base: nat, c: Chunk)
    requires At(text, base, Framed(c))
    ensures base + 5 <= |text| && text[base] == '\n' && text[base + 1] == '@' && text[base + 2] == '@'
    ensures text[base + 3] == '@' && text[base + 4] == ' '
  {
    var f := Framed(c);
    assert f[0] == '\n' && f[1] == '@' && f[2] == '@' && f[3] == '@' && f[4] == ' ';
    assert text[base + 0] == f[0] && text[base + 1] == f[1] && text[base + 2] == f[2];
    assert text[base + 3] == f[3] && text[base + 4] == f[4];
  }

  lemma QuietContent(text: string, at: nat, content: string, last: bool)
    requires At(text, at, Terminated(content, last)) && LineStart(text, at)
    requires last ==> at + |content| == |text|
    requires !HasMarkerLine(content, last)
    ensures forall p :: at <= p < at + |content| ==> !IsMark(text, p)
  {
    var part := Terminated(content, last);
    forall p | at <= p < at + |content| ensures !IsMark(text, p) {
      MarkLocal(text, at, part, p - at);
    }
  }

  lemma SplittableTail(chunks: seq<Chunk>)
    requires chunks != [] && Splittable(chunks)
    ensures Splittable(chunks[1..])
    ensures PlainName(chunks[0].name) && !HasMarkerLine(chunks[0].content, 1 == |chunks|)
  {
    var rest := chunks[1..];
    forall k | 0 <= k < |rest| ensures PlainName(rest[k].name) && !HasMarkerLine(rest[k].content, k + 1 == |rest|) {
      assert rest[k] == chunks[k + 1];
    }
  }

  /** Where a framed chunk's parts stand. */
  lemma FramedParts(text: string, base: nat, c: Chunk)
    requires At(text, base, Framed(c))
    ensures |Framed(c)| == 6 + |c.name| + |c.content| && base + |Framed(c)| <= |text|
    ensures text[base] == '\n' && text[base + 5 + |c.name|] == '\n'
    ensures At(text, base + 5, c.name) && At(text, base + 6 + |c.name|, c.content)
  {
    assert Framed(c) == "\n@@@ " + (c.name + ("\n" + c.content));
    AtParts(text, base, "\n@@@ ", c.name + ("\n" + c.content));
    AtParts(text, base + 5, c.name, "\n" + c.content);
    AtParts(text, base + 5 + |c.name|, "\n", c.content);
    assert text[base + 0] == "\n@@@ "[0] && text[base + 5 + |c.name| + 0] == "\n"[0];
  }

  /** The content of the first chunk stands in the text with the newline that ends it. */
  lemma ContentStands(text: string, base: nat, chunks: seq<Chunk>)
    requires chunks != [] && At(text, base, Render(chunks)) && base + |Render(chunks)| == |text|
    ensures var c, rest := chunks[0], chunks[1..];
            var e, next := base + 6 + |c.name|, base + |Framed(c)|;
            && At(text, base, Framed(c)) && At(text, next, Render(rest)) && next + |Render(rest)| == |text|
            && e + |c.content| == next && text[e - 1] == '\n' && At(text, e, Terminated(c.content, rest == []))
            && (rest == [] ==> next == |text|)
  {
    hide Framed, Render;
    var c, rest := chunks[0], chunks[1..];
    RenderParts(text, base, chunks);
    FramedParts(text, base, c);
    var next := base + |Framed(c)|;
    if rest == [] {
      NothingRendered();
    } else {
      RenderParts(text, next, rest);
      FramedParts(text, next, rest[0]);
    }
  }

  lemma NothingRendered()
    ensures Render([]) == ""
  {
  }

  lemma {:induction false} EmittedMarks(text: string, base: nat, chunks: seq<Chunk>)
    requires Splittable(chunks)
    requires At(text, base, Render(chunks)) && base + |Render(chunks)| == |text|
    ensures Marks(text, base) == Expected(chunks, base)
    decreases |chunks|
  {
    hide Framed, Render, At, Terminated, HasMarkerLine, IsMark, Splittable;
    if chunks == [] {
      NothingRendered();
    } else {
      var c, rest := chunks[0], chunks[1..];
      var e, next := base + 6 + |c.name|, base + |Framed(c)|;
      ContentStands(text, base, chunks);
      SplittableTail(chunks);
      FramedMark(text, base, c);
      QuietContent(text, e, c.content, rest == []);
      SkipTo(text, e, next);
      EmittedMarks(text, next, rest);
      SkipTo(text, base, base + 1);
    }
  }

  lemma RenderParts(text: string, base: nat, chunks: seq<Chunk>)
    requires chunks != [] && At(text, base, Render(chunks))
    ensures At(text, base, Framed(chunks[0]))
    ensures At(text, base + |Framed(chunks[0])|, Render(chunks[1..]))
    ensures |Render(chunks)| == |Framed(chunks[0])| + |Render(chunks[1..])|
  {
    hide Framed, At;
    AtParts(text, base, Framed(chunks[0]), Render(chunks[1..]));
  }

  // -- their chunks

  /** The chunks stand in the text from `base` to its end, and the marks from `n` on are theirs. */
  ghost predicate Stand(text: string, base: nat, chunks: seq<Chunk>, marks: seq<Mark>, n: nat) {
    && At(text, base, Render(chunks)) && base + |Render(chunks)| == |text|
    && n <= |marks| && marks[n..] == Expected(chunks, base)
  }

  lemma StandRest(text: string, base: nat, chunks: seq<Chunk>, marks: seq<Mark>, n: nat)
    requires chunks != [] && Stand(text, base, chunks, marks, n)
    ensures n < |marks| && Stand(text, base + |Framed(chunks[0])|, chunks[1..], marks, n + 1)
  {
    hide At, Framed, Render;
    RenderParts(text, base, chunks);
    assert |marks[n..]| == |chunks|;
    assert marks[n + 1..] == marks[n..][1..];
  }

  lemma {:induction false} EmittedChunk(text: string, base: nat, chunks: seq<Chunk>, marks: seq<Mark>, n: nat, k: nat)
    requires Stand(text, base, chunks, marks, n) && InOrder(marks, 0, |text|) && k < |chunks|
    ensures n + k < |marks| && ChunkAt(text, marks, n + k) == chunks[k]
    decreases |chunks|
  {
    hide Stand, ChunkAt, Framed, InOrder;
    if k == 0 {
      FirstChunk(text, base, chunks, marks, n);
    } else {
      StandRest(text, base, chunks, marks, n);
      EmittedChunk(text, base + |Framed(chunks[0])|, chunks[1..], marks, n + 1, k - 1);
    }
  }

  lemma Slice(text: string, at: nat, part: string)
    requires At(text, at, part)
    ensures at + |part| <= |text| && text[at..at + |part|] == part
  {
  }

  lemma FirstMarks(chunks: seq<Chunk>, base: nat, marks: seq<Mark>, n: nat)
    requires chunks != [] && n <= |marks| && marks[n..] == Expected(chunks, base)
    ensures |marks| == n + |chunks| && marks[n] == Mark(base + 1, base + 6 + |chunks[0].name|)
    ensures |chunks| > 1 ==> marks[n + 1].start == base + |Framed(chunks[0])| + 1
  {
    hide Framed;
    assert |marks[n..]| == |chunks|;
    assert marks[n] == marks[n..][0];
    if |chunks| > 1 { assert marks[n + 1] == marks[n..][1]; }
  }

  lemma ChunkFrom(text: string, marks: seq<Mark>, n: nat, c: Chunk)
    requires InOrder(marks, 0, |text|) && n < |marks|
    requires text[marks[n].start + 4..marks[n].end - 1] == c.name
    requires var stop := marks[n].end + |c.content|;
             && stop <= |text| && text[marks[n].end..stop] == c.content
             && (if n + 1 == |marks| then stop == |text| else marks[n + 1].start == stop + 1)
    ensures ChunkAt(text, marks, n) == c
  {
    var m := marks[n];
    if n + 1 == |marks| { assert text[m.end..] == text[m.end..|text|]; }
  }

  lemma FirstChunk(text: string, base: nat, chunks: seq<Chunk>, marks: seq<Mark>, n: nat)
    requires chunks != [] && Stand(text, base, chunks, marks, n) && InOrder(marks, 0, |text|)
    ensures n < |marks| && ChunkAt(text, marks, n) == chunks[0]
  {
    hide Framed, Render, Expected, At, ChunkAt, Terminated;
    var c := chunks[0];
    FirstMarks(chunks, base, marks, n);
    ContentStands(text, base, chunks);
    FramedParts(text, base, c);
    Slice(text, base + 5, c.name);
    Slice(text, base + 6 + |c.name|, c.content);
    ChunkFrom(text, marks, n, c);
  }

  lemma SplitOf(text: string, chunks: seq<Chunk>)
    requires var marks := Marks(text, 0);
             && marks != [] && marks[0].start == 1 && |text| > 0 && text[0] == '\n' && |marks| == |chunks|
             && InOrder(marks, 0, |text|) && forall k :: 0 <= k < |chunks| ==> ChunkAt(text, marks, k) == chunks[k]
    ensures Split(text) == Ok(chunks)
  {
    hide Marks, ChunkAt;
    var r := Split(text);
    assert forall k :: 0 <= k < |chunks| ==> r.value[k] == ChunkAt(text, Marks(text, 0), k);
    assert r.value == chunks;
  }

  lemma {:induction false} EmittedSplits(chunks: seq<Chunk>)
    requires Splittable(chunks) && chunks != []
    ensures Split(Render(chunks)) == Ok(chunks)
  {
    var text := Render(chunks);
    var marks := Marks(text, 0);
    assert At(text, 0, text);
    FirstMarks(chunks, 0, Expected(chunks, 0), 0);
    RenderParts(text, 0, chunks);
    FramedParts(text, 0, chunks[0]);
    hide Marks, ChunkAt, Framed, Render, Expected, Splittable, At, Split;
    MarksInOrder(text, 0);
    EmittedMarks(text, 0, chunks);
    assert marks[0..] == marks;
    forall k | 0 <= k < |chunks| ensures ChunkAt(text, marks, k) == chunks[k] {
      EmittedChunk(text, 0, chunks, marks, 0, k);
    }
    SplitOf(text, chunks);
  }

  /** Splitting inverts emitting, empty contents and contents without a final newline included,
      exactly when no name ends in a newline and no content line looks like a marker. */
  lemma SplitInvertsEmit(chunks: seq<Chunk>)
    requires forall k :: 0 <= k < |chunks| ==> AcceptedName(chunks[k].name)
    ensures Split(Render(chunks)) == Ok(chunks) <==> Splittable(chunks)
  {
    if Split(Render(chunks)) == Ok(chunks) { SplitIsSplittable(Render(chunks)); }
    if Splittable(chunks) && chunks != [] { EmittedSplits(chunks); }
  }

  /** The two ways it can fail, on chunks the emitter accepts: a name that ends in a newline, and a
      content whose unterminated last line looks like a marker. */
  lemma SplitCanFail()
    ensures AcceptedName("a\n") && Split(Render([Chunk("a\n", "")])) != Ok([Chunk("a\n", "")])
    ensures AcceptedName("a") && AcceptedName("c")
    ensures var chunks := [Chunk("a", "@@@ b"), Chunk("c", "")]; Split(Render(chunks)) != Ok(chunks)
  {
    var newline := [Chunk("a\n", "")];
    assert PlainName("a\n"[..1]);
    assert !NameChar("a\n"[1]);
    assert newline[0].name == "a\n" && !PlainName(newline[0].name);
    SplitInvertsEmit(newline);
    var chunks := [Chunk("a", "@@@ b"), Chunk("c", "")];
    var line := Terminated(chunks[0].content, false);
    assert line == "@@@ b\n";
    NameEndExact(line, 4, "b");
    assert IsMark(line, 0);
    assert !Splittable(chunks) by { assert HasMarkerLine(chunks[0].content, false); }
    SplitInvertsEmit(chunks);
  }

  /** Splitting raises exactly when something that is not white space stands before the first marker line, or
      anywhere in a text without one. */
  lemma SplitRaisesIff(text: string)
    ensures Split(text).Raised? <==>
            exists k :: 0 <= k < |text| && !IsSpace(text[k]) && forall p :: 0 <= p <= k ==> !IsMark(text, p)
  {
    hide Marks, IsMark, IsSpace, ChunkAt;
    var marks := Marks(text, 0);
    MarksInOrder(text, 0);
    MarksFound(text, 0);
    hide MarkEnd;
    var until := if marks == [] then |text| else marks[0].start;
    forall p: nat | p < until ensures !IsMark(text, p) { NoMarkBefore(text, p); }
    assert marks != [] ==> IsMark(text, marks[0].start);
    if Split(text).Raised? {
      assert !Blank(text[..until]) by { assert text[..|text|] == text; }
      var k :| 0 <= k < until && !IsSpace(text[..until][k]);
      assert text[k] == text[..until][k];
    }
    if k :| 0 <= k < |text| && !IsSpace(text[k]) && forall p :: 0 <= p <= k ==> !IsMark(text, p) {
      assert k < until;
      assert text[..until][k] == text[k];
      assert text[..|text|] == text;
    }
  }

  lemma NoMarkBefore(text: string, p: nat)
    requires var marks := Marks(text, 0); p < if marks == [] then |text| else marks[0].start
    ensures !IsMark(text, p)
  {
    hide Marks, IsMark;
    MarksInOrder(text, 0);
    MarksFound(text, 0);
    hide MarkEnd;
    var marks := Marks(text, 0);
    if IsMark(text, p) {
      var k :| 0 <= k < |marks| && marks[k].start == p;
      StartsAscend(marks, k, |text|);
      assert false;
    }
  }

  lemma {:induction false} StartsAscend(marks: seq<Mark>, k: nat, hi: nat)
    requires InOrder(marks, 0, hi) && k < |marks|
    ensures marks[0].start <= marks[k].start
  {
    if k > 0 { StartsAscend(marks, k - 1, hi); }
  }

  /** A marker line in characters: three at signs and a space at the start of a line, one or more of the allowed
      characters, and the end of the line. */
  ghost predicate MarkerLine(text: string, p: nat, name: string) {
    && PlainName(name) && At(text, p, "@@@ " + name + "\n")
    && (p == 0 || (p <= |text| && text[p - 1] == '\n'))
  }

  lemma {:induction false} NameStands(text: string, pos: nat, name: string)
    requires At(text, pos, name) && pos + |name| < |text| && text[pos + |name|] == '\n'
    requires forall k :: 0 <= k < |name| ==> NameChar(name[k])
    ensures NameEnd(text, pos) == pos + |name|
    decreases |name|
  {
    if name != "" {
      AtParts(text, pos, [name[0]], name[1..]);
      assert name == [name[0]] + name[1..];
      AtChar(text, pos, name, 0);
      NameStands(text, pos + 1, name[1..]);
    }
  }

  lemma {:induction false} NamesOnly(text: string, pos: nat)
    requires pos <= |text|
    ensures forall k :: pos <= k < NameEnd(text, pos) ==> NameChar(text[k])
    decreases |text| - pos
  {
    if pos < |text| && NameChar(text[pos]) { NamesOnly(text, pos + 1); }
  }

  lemma FoundIsLine(text: string, p: nat)
    requires IsMark(text, p)
    ensures MarkerLine(text, p, text[p + 4..MarkEnd(text, p) - 1])
  {
    NamesOnly(text, p + 4);
    hide NameEnd;
    var name := text[p + 4..NameEnd(text, p + 4)];
    var line := "@@@ " + name + "\n";
    forall k | 0 <= k < |line| ensures text[p + k] == line[k] {
      if k < 4 { assert line[k] == "@@@ "[k]; } else if k < 4 + |name| { assert line[k] == name[k - 4]; }
    }
  }

  lemma LineIsFound(text: string, p: nat, name: string)
    requires MarkerLine(text, p, name)
    ensures IsMark(text, p)
  {
    hide At;
    AtParts(text, p, "@@@ " + name, "\n");
    AtParts(text, p, "@@@ ", name);
    AtChar(text, p + 4 + |name|, "\n", 0);
    NameStands(text, p + 4, name);
    hide NameEnd;
    AtChar(text, p, "@@@ ", 0);
    AtChar(text, p, "@@@ ", 1);
    AtChar(text, p, "@@@ ", 2);
    AtChar(text, p, "@@@ ", 3);
  }

  /** The matcher finds exactly those, with their whole name. */
  lemma MarkIff(text: string, p: nat)
    ensures IsMark(text, p) <==> exists name :: MarkerLine(text, p, name)
    ensures IsMark(text, p) ==> MarkerLine(text, p, text[p + 4..MarkEnd(text, p) - 1])
  {
    if IsMark(text, p) { FoundIsLine(text, p); }
    if name :| MarkerLine(text, p, name) { LineIsFound(text, p, name); }
  }
}
