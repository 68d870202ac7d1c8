/** The Rust surface scanner of the test-hygiene gate (scripts/check-test-hygiene.py): it overwrites
    comments and literals with spaces and keeps every offset. */
module SurfaceLexer {

  // ---------------------------------------------------------------------------
  // Where each kind of hidden text ends
  // ---------------------------------------------------------------------------

  predicate Pair(src: string, i: nat, a: char, b: char) {
    i + 1 < |src| && src[i] == a && src[i + 1] == b
  }

  /** The next newline at or after `i`, or the end. */
  function LineEnd(src: string, i: nat): (e: nat)
    requires i <= |src|
    ensures i <= e <= |src|
    decreases |src| - i
  {
    if i < |src| && src[i] != '\n' then LineEnd(src, i + 1) else i
  }

  /** Past the comment terminator that brings `depth` back to zero, or the end. */
  function BlockEnd(src: string, j: nat, depth: nat): (e: nat)
    requires j <= |src|
    ensures j <= e <= |src|
    decreases |src| - j
  {
    if j == |src| || depth == 0 then j
    else if Pair(src, j, '/', '*') then BlockEnd(src, j + 2, depth + 1)
    else if Pair(src, j, '*', '/') then BlockEnd(src, j + 2, depth - 1)
    else BlockEnd(src, j + 1, depth)
  }

  /** Past the run of `#` at `i`. */
  function HashEnd(src: string, i: nat): (e: nat)
    requires i <= |src|
    ensures i <= e <= |src|
    decreases |src| - i
  {
    if i < |src| && src[i] == '#' then HashEnd(src, i + 1) else i
  }

  datatype RawOpen = NoRaw | RawOpen(hashes: nat, start: nat)

  /** The opening of a raw string at `i`: an optional `b`, an `r`, hashes, a quote. */
  function OpensRaw(src: string, i: nat): (r: RawOpen)
    ensures r.RawOpen? ==> i + 2 <= r.start <= |src|
  {
    var k := if i < |src| && src[i] == 'b' then i + 1 else i;
    if k < |src| && src[k] == 'r' then
      var h := HashEnd(src, k + 1);
      if h < |src| && src[h] == '"' then RawOpen(h - (k + 1), h + 1) else NoRaw
    else NoRaw
  }

  /** A quote followed by at least `hashes` hash signs at `j`. */
  predicate ClosesRaw(src: string, j: nat, hashes: nat) {
    j + hashes < |src| && src[j] == '"' && forall k :: j < k <= j + hashes ==> src[k] == '#'
  }

  function RawEnd(src: string, j: nat, hashes: nat): (e: nat)
    requires j <= |src|
    ensures j <= e <= |src|
    decreases |src| - j
  {
    if j == |src| then j
    else if ClosesRaw(src, j, hashes) then j + 1 + hashes
    else RawEnd(src, j + 1, hashes)
  }

  /** Past the closing quote of a string whose body starts at `j`; a backslash takes the next
      character with it. */
  function StringEnd(src: string, j: nat): (e: nat)
    requires j <= |src|
    ensures j <= e <= |src| && (j < |src| ==> j < e)
    decreases |src| - j
  {
    if j == |src| then j
    else if src[j] == '"' then j + 1
    else if src[j] == '\\' then (if j + 2 <= |src| then StringEnd(src, j + 2) else |src|)
    else StringEnd(src, j + 1)
  }

  /** The next single quote or newline at or after `i`, or the end. */
  function QuoteOrLine(src: string, i: nat): (e: nat)
    requires i <= |src|
    ensures i <= e <= |src|
    decreases |src| - i
  {
    if i < |src| && src[i] != '\'' && src[i] != '\n' then QuoteOrLine(src, i + 1) else i
  }

  /** Past the character literal at `i`, or `i` when the quote there begins a lifetime. */
  function CharEnd(src: string, i: nat): (e: nat)
    requires i < |src|
    ensures e == i || i + 3 <= e <= |src|
  {
    if i + 2 < |src| && src[i + 1] == '\\' && src[i + 2] != '\n' then
      var k := QuoteOrLine(src, i + 3);
      if k < |src| && src[k] == '\'' then k + 1 else i
    else if i + 2 < |src| && src[i + 1] != '\\' && src[i + 1] != '\'' && src[i + 1] != '\n' && src[i + 2] == '\'' then
      i + 3
    else i
  }

  // ---------------------------------------------------------------------------
  // The scanner
  // ---------------------------------------------------------------------------

  /** Where the hidden text that starts at `i` ends; `i` itself when the character there is code. */
  function HiddenEnd(src: string, i: nat, strings: bool): (e: nat)
    requires i < |src|
    ensures i <= e <= |src|
    ensures e != i ==> e >= i + 2 || e == |src|
  {
    if Pair(src, i, '/', '/') then LineEnd(src, i + 2)
    else if Pair(src, i, '/', '*') then BlockEnd(src, i + 2, 1)
    else if !strings then i
    else if (src[i] == 'b' || src[i] == 'r') && OpensRaw(src, i).RawOpen? then
      RawEnd(src, OpensRaw(src, i).start, OpensRaw(src, i).hashes)
    else if src[i] == '"' then StringEnd(src, i + 1)
    else if src[i] == '\'' then CharEnd(src, i)
    else i
  }

  function BlankChar(c: char): (r: char) {
    if c == '\n' then '\n' else ' '
  }

  function BlankText(s: string): (r: string)
    ensures |r| == |s|
  {
    seq(|s|, k requires 0 <= k < |s| => BlankChar(s[k]))
  }

  /** The scanner's output from offset `i` on. */
  function Scan(src: string, i: nat, strings: bool): (r: string)
    requires i <= |src|
    ensures |r| == |src| - i
    decreases |src| - i
  {
    if i == |src| then ""
    else
      var e := HiddenEnd(src, i, strings);
      if e == i then [src[i]] + Scan(src, i + 1, strings)
      else BlankText(src[i..e]) + Scan(src, e, strings)
  }

  function Blanked(src: string, strings: bool): (r: string)
    ensures |r| == |src|
  {
    Scan(src, 0, strings)
  }

  // ---------------------------------------------------------------------------
  // The loop over a character list
  // ---------------------------------------------------------------------------

  method BlankRange(out: array<char>, a: nat, b: nat)
    requires a <= b <= out.Length
    modifies out
    ensures forall k :: 0 <= k < out.Length ==>
              out[k] == if a <= k < b then BlankChar(old(out[k])) else old(out[k])
  {
    var k := a;
    while k < b
      invariant a <= k <= b
      invariant forall j :: 0 <= j < out.Length ==>
                  out[j] == if a <= j < k then BlankChar(old(out[j])) else old(out[j])
    {
      if out[k] != '\n' {
        out[k] := ' ';
      }
      k := k + 1;
    }
  }

  lemma ScanStart(src: string, strings: bool)
    ensures Blanked(src, strings)[0..] == Scan(src, 0, strings) && |Blanked(src, strings)| == |src|
  {
  }

  method BlankNoncode(src: string, strings: bool) returns (text: string)
    ensures text == Blanked(src, strings)
  {
    hide HiddenEnd, BlankChar, Scan, Blanked;
    var n := |src|;
    var out := new char[n](k requires 0 <= k < n => src[k]);
    ghost var goal := Blanked(src, strings);
    var i := 0;
    ScanStart(src, strings);
    while i < n
      invariant 0 <= i <= n && out.Length == n
      invariant goal[i..] == Scan(src, i, strings)
      invariant forall k :: 0 <= k < i ==> out[k] == goal[k]
      invariant forall k :: i <= k < n ==> out[k] == src[k]
    {
      var e := Hidden(src, i, strings);
      ScanStep(src, i, strings, goal);
      if e == i {
        i := i + 1;
      } else {
        BlankRange(out, i, e);
        i := e;
      }
    }
    text := out[..];
    assert text == goal;
  }

  lemma ScanStep(src: string, i: nat, strings: bool, goal: string)
    requires i < |src| == |goal| && goal[i..] == Scan(src, i, strings)
    ensures var e := HiddenEnd(src, i, strings);
            var next := if e == i then i + 1 else e;
            && goal[next..] == Scan(src, next, strings)
            && forall k :: i <= k < next ==> goal[k] == if e == i then src[k] else BlankChar(src[k])
  {
    hide HiddenEnd, BlankChar;
    var e := HiddenEnd(src, i, strings);
    var next := if e == i then i + 1 else e;
    assert goal[next..] == goal[i..][next - i..];
    assert forall k :: i <= k < next ==> goal[k] == goal[i..][k - i];
  }

  /** The match of a raw string's opening: an optional `b`, an `r`, a run of hashes, a quote. */
  method MatchRaw(src: string, i: nat) returns (r: RawOpen)
    requires i < |src|
    ensures r == OpensRaw(src, i)
  {
    var k := if src[i] == 'b' then i + 1 else i;
    if k == |src| || src[k] != 'r' {
      return NoRaw;
    }
    var h := k + 1;
    while h < |src| && src[h] == '#'
      invariant k + 1 <= h <= |src| && HashEnd(src, h) == HashEnd(src, k + 1)
    {
      h := h + 1;
    }
    r := if h < |src| && src[h] == '"' then RawOpen(h - (k + 1), h + 1) else NoRaw;
  }

  /** The search for a quote followed by the opening's hashes. */
  method FindRawEnd(src: string, start: nat, hashes: nat) returns (e: nat)
    requires start <= |src|
    ensures e == RawEnd(src, start, hashes)
  {
    e := start;
    while e < |src|
      invariant start <= e <= |src| && RawEnd(src, e, hashes) == RawEnd(src, start, hashes)
    {
      if e + hashes < |src| && src[e] == '"' {
        var k := 0;
        while k < hashes && src[e + 1 + k] == '#'
          invariant 0 <= k <= hashes && forall x :: e < x <= e + k ==> src[x] == '#'
        {
          k := k + 1;
        }
        if k == hashes {
          return e + 1 + hashes;
        }
        assert src[e + 1 + k] != '#' && !ClosesRaw(src, e, hashes);
      }
      e := e + 1;
    }
  }

  /** The match of a character literal: an escape runs to the next quote on its line. */
  method MatchChar(src: string, i: nat) returns (e: nat)
    requires i < |src|
    ensures e == CharEnd(src, i)
  {
    if i + 2 < |src| && src[i + 1] == '\\' && src[i + 2] != '\n' {
      var k := i + 3;
      while k < |src| && src[k] != '\'' && src[k] != '\n'
        invariant i + 3 <= k <= |src| && QuoteOrLine(src, k) == QuoteOrLine(src, i + 3)
      {
        k := k + 1;
      }
      e := if k < |src| && src[k] == '\'' then k + 1 else i;
    } else if i + 2 < |src| && src[i + 1] != '\\' && src[i + 1] != '\'' && src[i + 1] != '\n' && src[i + 2] == '\'' {
      e := i + 3;
    } else {
      e := i;
    }
  }

  /** The branches for literals. */
  method HiddenLiteral(src: string, i: nat) returns (e: nat)
    requires i < |src| && !Pair(src, i, '/', '/') && !Pair(src, i, '/', '*')
    ensures e == HiddenEnd(src, i, true)
  {
    var n := |src|;
    if src[i] == 'b' || src[i] == 'r' {
      var raw := MatchRaw(src, i);
      if raw.RawOpen? {
        e := FindRawEnd(src, raw.start, raw.hashes);
      } else {
        e := i;
      }
    } else if src[i] == '"' {
      e := i + 1;
      while e < n && src[e] != '"'
        invariant i + 1 <= e <= n && StringEnd(src, e) == StringEnd(src, i + 1)
      {
        if src[e] == '\\' {
          e := if e + 2 <= n then e + 2 else n;
        } else {
          e := e + 1;
        }
      }
      e := if e + 1 <= n then e + 1 else n;
    } else if src[i] == '\'' {
      e := MatchChar(src, i);
    } else {
      e := i;
    }
  }

  /** The branches of the scanner with their own loops. */
  method Hidden(src: string, i: nat, strings: bool) returns (e: nat)
    requires i < |src|
    ensures e == HiddenEnd(src, i, strings)
  {
    var n := |src|;
    if Pair(src, i, '/', '/') {
      e := i + 2;
      while e < n && src[e] != '\n'
        invariant i + 2 <= e <= n && LineEnd(src, e) == LineEnd(src, i + 2)
      {
        e := e + 1;
      }
    } else if Pair(src, i, '/', '*') {
      var depth: nat := 1;
      e := i + 2;
      while e < n && depth != 0
        invariant i + 2 <= e <= n && BlockEnd(src, e, depth) == BlockEnd(src, i + 2, 1)
      {
        if Pair(src, e, '/', '*') {
          depth, e := depth + 1, e + 2;
        } else if Pair(src, e, '*', '/') {
          depth, e := depth - 1, e + 2;
        } else {
          e := e + 1;
        }
      }
    } else if !strings {
      e := i;
    } else {
      e := HiddenLiteral(src, i);
    }
  }

  // ---------------------------------------------------------------------------
  // What the output keeps and what it cannot contain
  // ---------------------------------------------------------------------------

  /** The scanner, started at `i`, treats the character at `p` as code. */
  ghost predicate IsCode(src: string, i: nat, strings: bool, p: nat)
    requires i <= p < |src|
    decreases p - i
  {
    var e := HiddenEnd(src, i, strings);
    if e == i then p == i || IsCode(src, i + 1, strings, p)
    else p >= e && IsCode(src, e, strings, p)
  }

  /** Code characters come through unchanged, all others become a space or stay a newline. */
  lemma {:induction false} ScanAt(src: string, i: nat, strings: bool, p: nat)
    requires i <= p < |src|
    ensures Scan(src, i, strings)[p - i] == if IsCode(src, i, strings, p) then src[p] else BlankChar(src[p])
    decreases p - i
  {
    hide HiddenEnd, BlankChar;
    var e := HiddenEnd(src, i, strings);
    var first := if e == i then [src[i]] else BlankText(src[i..e]);
    var n := i + |first|;
    assert Scan(src, i, strings) == first + Scan(src, n, strings);
    hide Scan;
    if p >= n {
      ScanAt(src, n, strings, p);
      assert Scan(src, i, strings)[p - i] == Scan(src, n, strings)[p - n];
    }
  }

  /** A code character is one the scanner looked at and found no hidden text to start; the character
      after it is looked at next. */
  lemma {:induction false} CodeIsVisited(src: string, i: nat, strings: bool, p: nat)
    requires i <= p < |src| && IsCode(src, i, strings, p)
    ensures HiddenEnd(src, p, strings) == p
    ensures forall q :: p < q < |src| ==> (IsCode(src, i, strings, q) <==> IsCode(src, p + 1, strings, q))
    decreases p - i
  {
    var e := HiddenEnd(src, i, strings);
    if e == i {
      if p > i { CodeIsVisited(src, i + 1, strings, p); }
    } else {
      CodeIsVisited(src, e, strings, p);
    }
  }

  /** `out` agrees with `src` on newlines and, outside the code, holds nothing but blanks. */
  lemma OutputAt(src: string, strings: bool, p: nat)
    requires p < |src|
    ensures var out := Blanked(src, strings);
            out[p] == if IsCode(src, 0, strings, p) then src[p] else BlankChar(src[p])
  {
    ScanAt(src, 0, strings, p);
  }

  /** Length and newlines are kept, and characters change only to spaces. */
  lemma OffsetsPreserved(src: string, strings: bool, p: nat)
    requires p < |src|
    ensures var out := Blanked(src, strings);
            && |out| == |src|
            && (out[p] == '\n' <==> src[p] == '\n')
            && (out[p] == src[p] || out[p] == ' ')
  {
    OutputAt(src, strings, p);
  }

  lemma NoQuoteLeft(src: string, p: nat)
    requires p < |src|
    ensures Blanked(src, true)[p] != '"'
  {
    OutputAt(src, true, p);
    if IsCode(src, 0, true, p) {
      CodeIsVisited(src, 0, true, p);
    }
  }

  lemma NoCommentLeft(src: string, strings: bool, p: nat)
    requires p < |src|
    ensures var out := Blanked(src, strings); !Pair(out, p, '/', '/') && !Pair(out, p, '/', '*')
  {
    OutputAt(src, strings, p);
    if p + 1 < |src| { OutputAt(src, strings, p + 1); }
    if IsCode(src, 0, strings, p) {
      CodeIsVisited(src, 0, strings, p);
    }
  }

  // ---------------------------------------------------------------------------
  // Idempotence
  // ---------------------------------------------------------------------------

  /** In a text with the same newlines and no single quote that `src` lacks, the next single quote is
      reached in one line only if it is in `src`. */
  lemma {:induction false} QuoteOrLineBefore(src: string, out: string, i: nat)
    requires i <= |src| == |out|
    requires forall k :: i <= k < |src| ==> (out[k] == '\n' <==> src[k] == '\n')
    requires forall k :: i <= k < |src| && out[k] == '\'' ==> src[k] == '\''
    ensures var k, j := QuoteOrLine(out, i), QuoteOrLine(src, i);
            k < |out| && out[k] == '\'' ==> j < |src| && src[j] == '\''
    decreases |src| - i
  {
    if i < |src| && out[i] != '\'' && out[i] != '\n' && src[i] != '\'' {
      QuoteOrLineBefore(src, out, i + 1);
    }
  }

  lemma VisitedQuote(src: string, p: nat)
    requires p < |src| && src[p] == '\'' && IsCode(src, 0, true, p)
    ensures CharEnd(src, p) == p
  {
    hide IsCode, CharEnd;
    CodeIsVisited(src, 0, true, p);
  }

  /** What is hidden takes two characters or runs to the end, so between two code characters is code. */
  lemma CodeBetween(src: string, p: nat)
    requires p + 2 < |src| && IsCode(src, 0, true, p) && IsCode(src, 0, true, p + 2)
    ensures IsCode(src, 0, true, p + 1)
  {
    CodeIsVisited(src, 0, true, p);
    hide HiddenEnd;
    assert IsCode(src, p + 1, true, p + 2);
    assert IsCode(src, p + 1, true, p + 1);
  }

  /** A lifetime's quote does not turn into a character literal by blanking what follows it. */
  lemma LifetimeStays(src: string, p: nat)
    requires p < |src| && src[p] == '\'' && IsCode(src, 0, true, p)
    ensures CharEnd(Blanked(src, true), p) == p
  {
    hide IsCode, Blanked, QuoteOrLine;
    var out := Blanked(src, true);
    VisitedQuote(src, p);
    forall k | 0 <= k < |src|
      ensures out[k] == '\n' <==> src[k] == '\n'
      ensures out[k] == src[k] || out[k] == ' '
    {
      OffsetsPreserved(src, true, k);
    }
    if p + 2 < |src| {
      if out[p + 1] == '\\' {
        if out[p + 2] != '\n' { QuoteOrLineBefore(src, out, p + 3); }
      } else if out[p + 1] != '\'' && out[p + 1] != '\n' && out[p + 2] == '\'' {
        OutputAt(src, true, p + 1);
        OutputAt(src, true, p + 2);
        CodeBetween(src, p);
        assert false;
      }
    }
  }

  /** Nothing in the output starts hidden text. */
  lemma OutputIsCode(src: string, strings: bool, p: nat)
    requires p < |src|
    ensures HiddenEnd(Blanked(src, strings), p, strings) == p
  {
    var out := Blanked(src, strings);
    NoCommentLeft(src, strings, p);
    if strings {
      NoQuoteLeft(src, p);
      if OpensRaw(out, p).RawOpen? {
        NoQuoteLeft(src, OpensRaw(out, p).start - 1);
      }
      if out[p] == '\'' {
        OutputAt(src, true, p);
        LifetimeStays(src, p);
      }
    }
  }

  lemma {:induction false} ScanOfCode(text: string, strings: bool, i: nat)
    requires i <= |text| && forall p :: i <= p < |text| ==> HiddenEnd(text, p, strings) == p
    ensures Scan(text, i, strings) == text[i..]
    decreases |text| - i
  {
    if i < |text| { ScanOfCode(text, strings, i + 1); }
  }

  /** Blanking a blanked text changes nothing, whatever the text. */
  lemma BlankIdempotent(src: string, strings: bool)
    ensures Blanked(Blanked(src, strings), strings) == Blanked(src, strings)
  {
    var out := Blanked(src, strings);
    forall p | 0 <= p < |out| ensures HiddenEnd(out, p, strings) == p { OutputIsCode(src, strings, p); }
    ScanOfCode(out, strings, 0);
  }
}
