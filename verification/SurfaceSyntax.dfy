/** A grammar of Rust's surface text, stated in characters, and the proof that the scanner of
    scripts/check-test-hygiene.py hides exactly what the grammar calls comment or literal: lifetimes are
    told from character literals, and names from the prefixes of raw strings. */
module SurfaceSyntax {
  import opened Texts
  import opened SurfaceLexer

  /** The inside of a block comment: characters and nested comments. */
  datatype Remark =
    | Done
    | Letter(c: char, rest: Remark)
    | Nested(inner: Remark, rest: Remark)

  /** The inside of a string literal: plain characters and escape pairs. */
  datatype Quoted =
    | Ended
    | Plain(c: char, rest: Quoted)
    | Escaped(c: char, rest: Quoted)

  /** Code is punctuation and blanks, names, raw names and lifetimes; the rest is hidden. */
  datatype Piece =
    | Code(c: char)
    | Word(name: string)
    | RawName(name: string)
    | Lifetime(name: string)
    | LineComment(text: string)
    | BlockComment(remark: Remark)
    | StringLiteral(quoted: Quoted)
    | RawString(byte: bool, hashes: nat, text: string)
    | CharLiteral(c: char)
    | EscapedChar(c: char, tail: string)

  function RemarkText(r: Remark): (s: string) {
    match r
    case Done => ""
    case Letter(c, rest) => [c] + RemarkText(rest)
    case Nested(inner, rest) => "/*" + (RemarkText(inner) + ("*/" + RemarkText(rest)))
  }

  function QuotedText(q: Quoted): (s: string) {
    match q
    case Ended => ""
    case Plain(c, rest) => [c] + QuotedText(rest)
    case Escaped(c, rest) => ['\\', c] + QuotedText(rest)
  }

  function Hashes(n: nat): (s: string)
    ensures |s| == n && forall k :: 0 <= k < n ==> s[k] == '#'
  {
    seq(n, k => '#')
  }

  function PieceText(p: Piece): (s: string) {
    match p
    case Code(c) => [c]
    case Word(name) => name
    case RawName(name) => "r#" + name
    case Lifetime(name) => "'" + name
    case LineComment(text) => "//" + text
    case BlockComment(body) => "/*" + (RemarkText(body) + "*/")
    case StringLiteral(body) => "\"" + (QuotedText(body) + "\"")
    case RawString(b, h, text) => (if b then "br" else "r") + (Hashes(h) + ("\"" + (text + ("\"" + Hashes(h)))))
    case CharLiteral(c) => ['\'', c, '\'']
    case EscapedChar(c, tail) => ['\'', '\\', c] + (tail + "'")
  }

  /** The character that follows inside a comment: of the rest, or of the terminator. */
  function Follows(rest: Remark): (c: char) {
    match rest
    case Done => '*'
    case Letter(c, _) => c
    case Nested(_, _) => '/'
  }

  /** No letter pairs up with what follows it into an opener or a terminator. */
  predicate Unambiguous(r: Remark) {
    match r
    case Done => true
    case Letter(c, rest) =>
      !(c == '/' && Follows(rest) == '*') && !(c == '*' && Follows(rest) == '/') && Unambiguous(rest)
    case Nested(inner, rest) => Unambiguous(inner) && Unambiguous(rest)
  }

  predicate WellQuoted(q: Quoted) {
    match q
    case Ended => true
    case Plain(c, rest) => c != '"' && c != '\\' && WellQuoted(rest)
    case Escaped(_, rest) => WellQuoted(rest)
  }

  predicate Lacks(s: string, c: char) {
    forall k :: 0 <= k < |s| ==> s[k] != c
  }

  predicate IsVisible(p: Piece) {
    p.Code? || p.Word? || p.RawName? || p.Lifetime?
  }

  predicate NameChar(c: char) {
    'a' <= c <= 'z' || 'A' <= c <= 'Z' || '0' <= c <= '9' || c == '_' || c as int >= 128
  }

  predicate IsName(s: string) {
    s != "" && forall k :: 0 <= k < |s| ==> NameChar(s[k])
  }

  /** A piece is well formed by itself. */
  ghost predicate WellFormed(p: Piece) {
    match p
    case Code(c) => !NameChar(c) && c != '"' && c != '\''
    case Word(name) => IsName(name)
    case RawName(name) => IsName(name)
    case Lifetime(name) => IsName(name)
    case LineComment(text) => Lacks(text, '\n')
    case BlockComment(body) => Unambiguous(body)
    case StringLiteral(body) => WellQuoted(body)
    case RawString(_, h, text) => forall k :: 0 <= k < |text| ==> !ClosesRaw(text + ("\"" + Hashes(h)), k, h)
    case CharLiteral(c) => c != '\\' && c != '\'' && c != '\n'
    case EscapedChar(c, tail) => c != '\n' && Lacks(tail, '\'') && Lacks(tail, '\n')
  }

  /** A name that ends before `e` is whole, and does not run into the hashes or the quote of a raw string. */
  predicate NameEnds(src: string, name: string, e: nat)
    requires name != ""
  {
    e < |src| ==>
      !NameChar(src[e]) && (name[|name| - 1] == 'r' ==> src[e] != '"' && src[e] != '#')
  }

  /** What follows a piece: a slash does not open a comment, a name is whole, a lifetime is not closed by a
      quote, and a line comment runs to the end of its line. */
  ghost predicate FitsContext(src: string, i: nat, p: Piece)
    requires i < |src| && WellFormed(p)
  {
    var e := i + |PieceText(p)|;
    match p
    case Code(c) => !(c == '/' && e < |src| && (src[e] == '/' || src[e] == '*'))
    case Word(name) => NameEnds(src, name, e)
    case RawName(name) => NameEnds(src, name, e)
    case Lifetime(name) => NameEnds(src, name, e) && (e < |src| ==> src[e] != '\'')
    case LineComment(text) => e >= |src| || src[e] == '\n'
    case _ => true
  }

  /** From offset `i` on, `src` consists of `pieces`. */
  ghost predicate Composed(src: string, i: nat, pieces: seq<Piece>)
    decreases |pieces|
  {
    if pieces == [] then i == |src|
    else
      var text := PieceText(pieces[0]);
      && text != "" && At(src, i, text) && WellFormed(pieces[0]) && FitsContext(src, i, pieces[0])
      && Composed(src, i + |text|, pieces[1..])
  }

  function ShownPiece(p: Piece): (s: string) {
    if IsVisible(p) then PieceText(p) else BlankText(PieceText(p))
  }

  /** Code shown, everything else blank. */
  function Shown(pieces: seq<Piece>): (s: string) {
    if pieces == [] then "" else ShownPiece(pieces[0]) + Shown(pieces[1..])
  }

  // ---------------------------------------------------------------------------
  // Each form is recognised exactly
  // ---------------------------------------------------------------------------

  lemma LetterParts(src: string, j: nat, c: char, rest: Remark)
    requires At(src, j, RemarkText(Letter(c, rest)) + "*/")
    ensures j + 1 < |src| && src[j] == c && src[j + 1] == Follows(rest)
    ensures At(src, j + 1, RemarkText(rest) + "*/")
  {
    var after := RemarkText(rest) + "*/";
    assert RemarkText(Letter(c, rest)) + "*/" == [c] + after;
    AtParts(src, j, [c], after);
    assert src[j + 0] == [c][0] && src[j + 1 + 0] == after[0];
    FollowsIs(rest);
  }

  lemma NestedParts(src: string, j: nat, inner: Remark, rest: Remark)
    requires At(src, j, RemarkText(Nested(inner, rest)) + "*/")
    ensures Pair(src, j, '/', '*')
    ensures At(src, j + 2, RemarkText(inner) + "*/")
    ensures At(src, j + 4 + |RemarkText(inner)|, RemarkText(rest) + "*/")
  {
    var inside, after := RemarkText(inner) + "*/", RemarkText(rest) + "*/";
    assert RemarkText(Nested(inner, rest)) + "*/" == "/*" + (inside + after);
    AtParts(src, j, "/*", inside + after);
    hide RemarkText;
    assert src[j + 0] == "/*"[0] && src[j + 1] == "/*"[1];
    AtParts(src, j + 2, inside, after);
  }

  lemma NestedOpens(src: string, j: nat, inner: Remark, rest: Remark, depth: nat)
    requires Pair(src, j, '/', '*')
    ensures BlockEnd(src, j, depth + 1) == BlockEnd(src, j + 2, depth + 2)
    ensures |RemarkText(Nested(inner, rest))| == 4 + |RemarkText(inner)| + |RemarkText(rest)|
  {
  }

  /** A comment's inside, however deeply nested, takes the scanner exactly to its own terminator. */
  lemma {:induction false} RemarkSkipped(src: string, j: nat, r: Remark, depth: nat)
    requires Unambiguous(r) && At(src, j, RemarkText(r) + "*/")
    ensures j + |RemarkText(r)| + 2 <= |src|
    ensures BlockEnd(src, j, depth + 1) == BlockEnd(src, j + |RemarkText(r)| + 2, depth)
    decreases r
  {
    hide At;
    match r
    case Done =>
      DoneParts(src, j);
    case Letter(c, rest) =>
      LetterParts(src, j, c, rest);
      RemarkSkipped(src, j + 1, rest, depth);
    case Nested(inner, rest) =>
      NestedParts(src, j, inner, rest);
      NestedOpens(src, j, inner, rest, depth);
      hide BlockEnd, RemarkText;
      RemarkSkipped(src, j + 2, inner, depth + 1);
      RemarkSkipped(src, j + 4 + |RemarkText(inner)|, rest, depth);
  }

  lemma DoneParts(src: string, j: nat)
    requires At(src, j, RemarkText(Done) + "*/")
    ensures Pair(src, j, '*', '/')
  {
    var text := RemarkText(Done) + "*/";
    assert src[j + 0] == text[0] && src[j + 1] == text[1];
  }

  lemma FollowsIs(rest: Remark)
    ensures (RemarkText(rest) + "*/")[0] == Follows(rest)
  {
  }

  lemma {:induction false} QuotedSkipped(src: string, j: nat, q: Quoted)
    requires WellQuoted(q) && At(src, j, QuotedText(q) + "\"")
    ensures j + |QuotedText(q)| + 1 <= |src|
    ensures StringEnd(src, j) == j + |QuotedText(q)| + 1
    decreases q
  {
    var text := QuotedText(q) + "\"";
    assert src[j + 0] == text[0];
    match q
    case Ended =>
    case Plain(c, rest) =>
      assert text == [c] + (QuotedText(rest) + "\"");
      AtParts(src, j, [c], QuotedText(rest) + "\"");
      QuotedSkipped(src, j + 1, rest);
    case Escaped(c, rest) =>
      assert text == ['\\', c] + (QuotedText(rest) + "\"");
      AtParts(src, j, ['\\', c], QuotedText(rest) + "\"");
      QuotedSkipped(src, j + 2, rest);
  }

  lemma {:induction false} LineSkipped(src: string, i: nat, text: string)
    requires At(src, i, text) && Lacks(text, '\n')
    requires i + |text| == |src| || src[i + |text|] == '\n'
    ensures LineEnd(src, i) == i + |text|
    decreases |text|
  {
    if text != "" {
      assert src[i + 0] == text[0];
      assert text == [text[0]] + text[1..];
      AtParts(src, i, [text[0]], text[1..]);
      LineSkipped(src, i + 1, text[1..]);
    }
  }

  lemma {:induction false} HashesSkipped(src: string, i: nat, n: nat)
    requires i + n < |src| && (forall k :: i <= k < i + n ==> src[k] == '#') && src[i + n] != '#'
    ensures HashEnd(src, i) == i + n
    decreases n
  {
    if n > 0 { HashesSkipped(src, i + 1, n - 1); }
  }

  lemma {:induction false} RawSkipped(src: string, j: nat, whole: string, from: nat, h: nat)
    requires At(src, j, whole) && from <= |whole| - 1 - h
    requires ClosesRaw(whole, |whole| - 1 - h, h)
    requires forall k :: from <= k < |whole| - 1 - h ==> !ClosesRaw(whole, k, h)
    ensures RawEnd(src, j + from, h) == j + |whole|
    decreases |whole| - from
  {
    ClosesWithin(src, j, whole, from, h);
    if from < |whole| - 1 - h {
      RawSkipped(src, j, whole, from + 1, h);
    }
  }

  lemma ClosesWithin(src: string, j: nat, whole: string, k: nat, h: nat)
    requires At(src, j, whole) && k + h < |whole|
    ensures ClosesRaw(src, j + k, h) <==> ClosesRaw(whole, k, h)
  {
    assert src[j + k] == whole[k];
    forall x | k < x <= k + h ensures src[j + x] == whole[x] { }
    if ClosesRaw(src, j + k, h) {
      forall x | k < x <= k + h ensures whole[x] == '#' { assert src[j + x] == '#'; }
    }
    if ClosesRaw(whole, k, h) {
      forall y | j + k < y <= j + k + h ensures src[y] == '#' { assert src[j + (y - j)] == whole[y - j]; }
    }
  }

  lemma {:induction false} TailSkipped(src: string, i: nat, tail: string)
    requires At(src, i, tail + "'") && Lacks(tail, '\'') && Lacks(tail, '\n')
    ensures QuoteOrLine(src, i) == i + |tail| < |src| && src[i + |tail|] == '\''
    decreases |tail|
  {
    assert src[i + 0] == (tail + "'")[0];
    if tail != "" {
      assert tail + "'" == [tail[0]] + (tail[1..] + "'");
      AtParts(src, i, [tail[0]], tail[1..] + "'");
      TailSkipped(src, i + 1, tail[1..]);
    }
  }

  // ---------------------------------------------------------------------------
  // The scanner hides exactly the pieces that are not code
  // ---------------------------------------------------------------------------

  lemma HashesStand(src: string, i: nat, h: nat, rest: string)
    requires At(src, i, Hashes(h) + ("\"" + rest))
    ensures i + h < |src| && src[i + h] == '"' && HashEnd(src, i) == i + h && At(src, i + h + 1, rest)
  {
    hide At, HashEnd;
    AtParts(src, i, Hashes(h), "\"" + rest);
    AtParts(src, i + h, "\"", rest);
    AtChar(src, i + h, "\"", 0);
    forall x | i <= x < i + h ensures src[x] == '#' { AtChar(src, i, Hashes(h), x - i); }
    HashesSkipped(src, i, h);
  }

  lemma RawOpens(src: string, i: nat, k: nat, h: nat)
    requires i < |src| && k == (if src[i] == 'b' then i + 1 else i) && k < |src| && src[k] == 'r'
    requires HashEnd(src, k + 1) == k + 1 + h < |src| && src[k + 1 + h] == '"'
    ensures OpensRaw(src, i) == RawOpen(h, k + 2 + h)
  {
    hide HashEnd;
  }

  lemma RawOpening(src: string, i: nat, byte: bool, h: nat, whole: string)
    requires At(src, i, (if byte then "br" else "r") + (Hashes(h) + ("\"" + whole)))
    ensures i < |src| && (src[i] == 'b' || src[i] == 'r')
    ensures var start := i + (if byte then 2 else 1) + h + 1;
            OpensRaw(src, i) == RawOpen(h, start) && At(src, start, whole)
  {
    hide At, HashEnd, OpensRaw, Hashes;
    var prefix := if byte then "br" else "r";
    AtParts(src, i, prefix, Hashes(h) + ("\"" + whole));
    AtChar(src, i, prefix, 0);
    AtChar(src, i, prefix, |prefix| - 1);
    HashesStand(src, i + |prefix|, h, whole);
    RawOpens(src, i, i + |prefix| - 1, h);
  }

  lemma RawParts(byte: bool, h: nat, text: string)
    requires WellFormed(RawString(byte, h, text))
    ensures var whole := text + ("\"" + Hashes(h));
            && PieceText(RawString(byte, h, text)) == (if byte then "br" else "r") + (Hashes(h) + ("\"" + whole))
            && |whole| == |text| + 1 + h && ClosesRaw(whole, |text|, h)
            && forall k :: 0 <= k < |text| ==> !ClosesRaw(whole, k, h)
  {
  }

  lemma RawHidden(src: string, i: nat)
    requires i < |src| && (src[i] == 'b' || src[i] == 'r') && OpensRaw(src, i).RawOpen?
    ensures HiddenEnd(src, i, true) == RawEnd(src, OpensRaw(src, i).start, OpensRaw(src, i).hashes)
  {
    hide OpensRaw, RawEnd;
  }

  lemma RawRecognised(src: string, i: nat, byte: bool, h: nat, text: string)
    requires At(src, i, PieceText(RawString(byte, h, text))) && WellFormed(RawString(byte, h, text))
    requires i < |src|
    ensures HiddenEnd(src, i, true) == i + |PieceText(RawString(byte, h, text))|
  {
    hide At, OpensRaw, HiddenEnd, RawEnd, ClosesRaw, PieceText, WellFormed, Hashes;
    var whole := text + ("\"" + Hashes(h));
    var start := i + (if byte then 2 else 1) + h + 1;
    RawParts(byte, h, text);
    RawOpening(src, i, byte, h, whole);
    RawHidden(src, i);
    RawSkipped(src, start, whole, 0, h);
  }

  lemma QuoteRecognised(src: string, i: nat, p: Piece)
    requires p.CharLiteral? || p.EscapedChar?
    requires At(src, i, PieceText(p)) && WellFormed(p)
    ensures i < |src| && HiddenEnd(src, i, true) == i + |PieceText(p)|
  {
    var text := PieceText(p);
    assert src[i + 0] == text[0] && src[i + 1] == text[1] && src[i + 2] == text[2];
    if p.EscapedChar? {
      AtParts(src, i, ['\'', '\\', p.c], p.tail + "'");
      TailSkipped(src, i + 3, p.tail);
    }
  }

  lemma CommentRecognised(src: string, i: nat, p: Piece)
    requires p.LineComment? || p.BlockComment?
    requires At(src, i, PieceText(p)) && WellFormed(p) && i < |src| && FitsContext(src, i, p)
    ensures HiddenEnd(src, i, true) == i + |PieceText(p)|
  {
    var text := PieceText(p);
    assert src[i + 0] == text[0] && src[i + 1] == text[1];
    if p.LineComment? {
      AtParts(src, i, "//", p.text);
      LineSkipped(src, i + 2, p.text);
    } else {
      AtParts(src, i, "/*", RemarkText(p.remark) + "*/");
      RemarkSkipped(src, i + 2, p.remark, 0);
    }
  }

  lemma StringRecognised(src: string, i: nat, q: Quoted)
    requires At(src, i, PieceText(StringLiteral(q))) && WellFormed(StringLiteral(q))
    requires i < |src|
    ensures HiddenEnd(src, i, true) == i + |PieceText(StringLiteral(q))|
  {
    var text := PieceText(StringLiteral(q));
    assert src[i + 0] == text[0];
    AtParts(src, i, "\"", QuotedText(q) + "\"");
    QuotedSkipped(src, i + 1, q);
  }

  /** No character of a name opens a raw string. */
  lemma NameIsCode(src: string, i: nat, name: string, j: nat)
    requires At(src, i, name) && IsName(name) && NameEnds(src, name, i + |name|) && i <= j < i + |name|
    ensures HiddenEnd(src, j, true) == j
  {
    var e := i + |name|;
    forall k | i <= k < e ensures NameChar(src[k]) { assert src[i + (k - i)] == name[k - i]; }
    assert src[i + (|name| - 1)] == name[|name| - 1];
    forall k | i <= k < e && src[k] == 'r'
      ensures HashEnd(src, k + 1) == k + 1 && (k + 1 < |src| ==> src[k + 1] != '"')
    {
      assert k + 1 < e ==> NameChar(src[k + 1]);
    }
  }

  lemma RawNameIsCode(src: string, i: nat, name: string, j: nat)
    requires At(src, i, "r#" + name) && IsName(name) && NameEnds(src, name, i + 2 + |name|) && i <= j < i + 2 + |name|
    ensures HiddenEnd(src, j, true) == j
  {
    AtParts(src, i, "r#", name);
    if j >= i + 2 {
      NameIsCode(src, i + 2, name, j);
    } else {
      assert src[i + 0] == "r#"[0] && src[i + 1] == "r#"[1] && src[i + 2 + 0] == name[0];
      assert HashEnd(src, i + 2) == i + 2;
    }
  }

  /** A lifetime's quote opens no character literal. */
  lemma LifetimeIsCode(src: string, i: nat, name: string, j: nat)
    requires At(src, i, "'" + name) && IsName(name) && NameEnds(src, name, i + 1 + |name|) && i <= j < i + 1 + |name|
    requires i + 1 + |name| < |src| ==> src[i + 1 + |name|] != '\''
    ensures HiddenEnd(src, j, true) == j
  {
    AtParts(src, i, "'", name);
    if j > i {
      NameIsCode(src, i + 1, name, j);
    } else {
      assert src[i + 0] == "'"[0] && src[i + 1 + 0] == name[0];
      if |name| > 1 { assert src[i + 1 + 1] == name[1]; }
      assert CharEnd(src, i) == i;
    }
  }

  lemma PunctuationIsCode(src: string, i: nat, c: char)
    requires At(src, i, PieceText(Code(c))) && WellFormed(Code(c)) && i < |src| && FitsContext(src, i, Code(c))
    ensures HiddenEnd(src, i, true) == i
  {
    assert src[i + 0] == PieceText(Code(c))[0];
  }

  lemma CodeRecognised(src: string, i: nat, p: Piece, j: nat)
    requires At(src, i, PieceText(p)) && WellFormed(p) && i < |src| && FitsContext(src, i, p) && IsVisible(p)
    requires i <= j < i + |PieceText(p)|
    ensures j < |src| && HiddenEnd(src, j, true) == j
  {
    hide HiddenEnd, At, IsName, NameEnds, NameChar, ClosesRaw, Unambiguous, WellQuoted, RemarkText, QuotedText, Lacks;
    InText(src, i, PieceText(p));
    match p
    case Code(c) => PunctuationIsCode(src, i, c);
    case Word(name) => NameIsCode(src, i, name, j);
    case RawName(name) => RawNameIsCode(src, i, name, j);
    case Lifetime(name) => LifetimeIsCode(src, i, name, j);
  }

  lemma InText(src: string, i: nat, part: string)
    ensures At(src, i, part) ==> i + |part| <= |src| && src[i..i + |part|] == part
  {
  }

  /** What stands at `i` is hidden to its very end, or, if it is code, not at any of its characters. */
  lemma Recognised(src: string, i: nat, p: Piece)
    requires At(src, i, PieceText(p)) && WellFormed(p) && i < |src| && FitsContext(src, i, p)
    ensures i + |PieceText(p)| <= |src|
    ensures IsVisible(p) ==> forall j :: i <= j < i + |PieceText(p)| ==> HiddenEnd(src, j, true) == j
    ensures !IsVisible(p) ==> HiddenEnd(src, i, true) == i + |PieceText(p)|
  {
    hide HiddenEnd, At, WellFormed, FitsContext, PieceText;
    InText(src, i, PieceText(p));
    if IsVisible(p) {
      forall j | i <= j < i + |PieceText(p)| ensures HiddenEnd(src, j, true) == j { CodeRecognised(src, i, p, j); }
    } else {
      match p
      case LineComment(_) => CommentRecognised(src, i, p);
      case BlockComment(_) => CommentRecognised(src, i, p);
      case StringLiteral(q) => StringRecognised(src, i, q);
      case RawString(b, h, text) => RawRecognised(src, i, b, h, text);
      case CharLiteral(_) => QuoteRecognised(src, i, p);
      case EscapedChar(_, _) => QuoteRecognised(src, i, p);
    }
  }

  lemma ScanCode(src: string, i: nat, strings: bool)
    requires i < |src| && HiddenEnd(src, i, strings) == i
    ensures Scan(src, i, strings) == [src[i]] + Scan(src, i + 1, strings)
  {
    hide HiddenEnd;
  }

  lemma {:induction false} CodeScanned(src: string, i: nat, e: nat, strings: bool)
    requires i <= e <= |src| && forall j :: i <= j < e ==> HiddenEnd(src, j, strings) == j
    ensures Scan(src, i, strings) == src[i..e] + Scan(src, e, strings)
    decreases e - i
  {
    hide HiddenEnd, Scan;
    if i < e {
      ScanCode(src, i, strings);
      CodeScanned(src, i + 1, e, strings);
      assert src[i..e] == [src[i]] + src[i + 1..e];
    }
  }

  lemma HiddenScanned(src: string, i: nat, e: nat, strings: bool)
    requires i < e <= |src| && HiddenEnd(src, i, strings) == e
    ensures Scan(src, i, strings) == BlankText(src[i..e]) + Scan(src, e, strings)
  {
    hide HiddenEnd, BlankText;
  }

  lemma PieceScanned(src: string, i: nat, p: Piece)
    requires At(src, i, PieceText(p)) && WellFormed(p) && i < |src| && FitsContext(src, i, p) && PieceText(p) != ""
    ensures i + |PieceText(p)| <= |src|
    ensures Scan(src, i, true) == ShownPiece(p) + Scan(src, i + |PieceText(p)|, true)
  {
    hide HiddenEnd, At, WellFormed, FitsContext, PieceText, BlankText, Scan, IsVisible;
    var e := i + |PieceText(p)|;
    InText(src, i, PieceText(p));
    Recognised(src, i, p);
    if IsVisible(p) {
      CodeScanned(src, i, e, true);
    } else {
      HiddenScanned(src, i, e, true);
    }
  }

  lemma {:induction false} ScanComposed(src: string, i: nat, pieces: seq<Piece>)
    requires i <= |src| && Composed(src, i, pieces)
    ensures Scan(src, i, true) == Shown(pieces)
    decreases |pieces|
  {
    hide At, WellFormed, FitsContext, PieceText, ShownPiece, Scan;
    if pieces == [] {
      EndScanned(src, true);
    } else {
      InText(src, i, PieceText(pieces[0]));
      PieceScanned(src, i, pieces[0]);
      ScanComposed(src, i + |PieceText(pieces[0])|, pieces[1..]);
    }
  }

  lemma EndScanned(src: string, strings: bool)
    ensures Scan(src, |src|, strings) == ""
  {
  }

  /** Every text composed of pieces is blanked to exactly its code: comments of any nesting, strings
      with any escapes, raw strings of any hash count and character literals vanish, and nothing
      else does. */
  lemma BlankedIsShown(src: string, pieces: seq<Piece>)
    requires Composed(src, 0, pieces)
    ensures Blanked(src, true) == Shown(pieces)
  {
    ScanComposed(src, 0, pieces);
  }

  // ---------------------------------------------------------------------------
  // Keeping strings
  // ---------------------------------------------------------------------------

  predicate IsComment(p: Piece) {
    p.LineComment? || p.BlockComment?
  }

  /** A comment would open at `k`. */
  predicate Opener(s: string, k: nat) {
    Pair(s, k, '/', '/') || Pair(s, k, '/', '*')
  }

  ghost predicate Quiet(s: string) {
    forall k :: 0 <= k < |s| ==> !Opener(s, k)
  }

  /** Comments blank, everything else as it is. */
  function KeptPiece(p: Piece): (s: string) {
    if IsComment(p) then BlankText(PieceText(p)) else PieceText(p)
  }

  function Kept(pieces: seq<Piece>): (s: string) {
    if pieces == [] then "" else KeptPiece(pieces[0]) + Kept(pieces[1..])
  }

  /** No literal holds what would open a comment. */
  ghost predicate LiteralsQuiet(pieces: seq<Piece>) {
    forall k :: 0 <= k < |pieces| && !IsComment(pieces[k]) ==> Quiet(PieceText(pieces[k]))
  }

  /** Only comments are hidden where strings are kept. */
  lemma OnlyComments(src: string, j: nat)
    requires j < |src|
    ensures HiddenEnd(src, j, false) == j <==> !Opener(src, j)
    ensures Opener(src, j) ==> HiddenEnd(src, j, false) == HiddenEnd(src, j, true)
  {
    hide LineEnd, BlockEnd;
  }

  /** Without anything that opens a comment, the text comes back as it is, literals and all. */
  lemma NothingToBlank(src: string)
    requires Quiet(src)
    ensures Blanked(src, false) == src
  {
    hide HiddenEnd, Scan;
    forall j | 0 <= j < |src| ensures HiddenEnd(src, j, false) == j { OnlyComments(src, j); }
    CodeScanned(src, 0, |src|, false);
    EndScanned(src, false);
    assert src[0..|src|] == src;
  }

  lemma RawEnds(byte: bool, h: nat, text: string)
    ensures var s := PieceText(RawString(byte, h, text)); s[|s| - 1] != '/'
  {
    var whole := "\"" + Hashes(h);
    var s := PieceText(RawString(byte, h, text));
    assert s == ((if byte then "br" else "r") + Hashes(h) + "\"" + text) + whole;
    assert s[|s| - 1] == whole[|whole| - 1];
  }

  /** What is not a comment ends in a slash only where it is one. */
  lemma LastCharacter(p: Piece)
    requires WellFormed(p) && !IsComment(p) && PieceText(p) != ""
    ensures PieceText(p)[|PieceText(p)| - 1] == '/' ==> p == Code('/')
  {
    match p
    case RawString(b, h, text) => RawEnds(b, h, text);
    case StringLiteral(q) => assert PieceText(p)[|PieceText(p)| - 1] == '"';
    case EscapedChar(c, tail) => assert PieceText(p)[|PieceText(p)| - 1] == '\'';
    case _ =>
  }

  lemma OpenerWithin(src: string, i: nat, p: Piece, k: nat)
    requires At(src, i, PieceText(p)) && WellFormed(p) && i < |src| && FitsContext(src, i, p)
    requires !IsComment(p) && k < |PieceText(p)|
    ensures i + k < |src| && (Opener(src, i + k) <==> Opener(PieceText(p), k))
  {
    hide At, WellFormed;
    var text := PieceText(p);
    AtChar(src, i, text, k);
    if k + 1 < |text| {
      AtChar(src, i, text, k + 1);
    } else {
      LastCharacter(p);
      hide PieceText;
    }
  }

  lemma CommentOpens(src: string, i: nat, p: Piece)
    requires At(src, i, PieceText(p)) && IsComment(p) && i < |src|
    ensures PieceText(p) != "" && Opener(src, i)
  {
    hide At, RemarkText;
    AtChar(src, i, PieceText(p), 0);
    AtChar(src, i, PieceText(p), 1);
  }

  lemma CommentKept(src: string, i: nat, p: Piece)
    requires At(src, i, PieceText(p)) && WellFormed(p) && i < |src| && FitsContext(src, i, p) && IsComment(p)
    ensures i + |PieceText(p)| <= |src|
    ensures Scan(src, i, false) == KeptPiece(p) + Scan(src, i + |PieceText(p)|, false)
  {
    hide HiddenEnd, At, WellFormed, FitsContext, PieceText, BlankText, Scan, Opener;
    CommentOpens(src, i, p);
    InText(src, i, PieceText(p));
    Recognised(src, i, p);
    OnlyComments(src, i);
    HiddenScanned(src, i, i + |PieceText(p)|, false);
  }

  lemma QuietKept(src: string, i: nat, p: Piece)
    requires At(src, i, PieceText(p)) && WellFormed(p) && i < |src| && FitsContext(src, i, p) && !IsComment(p)
    requires Quiet(PieceText(p))
    ensures i + |PieceText(p)| <= |src|
    ensures Scan(src, i, false) == KeptPiece(p) + Scan(src, i + |PieceText(p)|, false)
  {
    hide HiddenEnd, At, WellFormed, FitsContext, PieceText, BlankText, Scan, Opener;
    var e := i + |PieceText(p)|;
    InText(src, i, PieceText(p));
    forall j | i <= j < e ensures HiddenEnd(src, j, false) == j {
      OpenerWithin(src, i, p, j - i);
      OnlyComments(src, j);
    }
    CodeScanned(src, i, e, false);
  }

  lemma FirstOpener(s: string) returns (k: nat)
    requires !Quiet(s)
    ensures k < |s| && Opener(s, k) && forall j :: 0 <= j < k ==> !Opener(s, j)
  {
    hide Opener;
    k := 0;
    while !Opener(s, k)
      invariant k < |s| && forall j :: 0 <= j < k ==> !Opener(s, j)
      decreases |s| - k
    {
      if k + 1 == |s| {
        assert false;
      }
      k := k + 1;
    }
  }

  /** The first opener in a literal is blanked away. */
  lemma LoudLost(src: string, i: nat, p: Piece)
    requires At(src, i, PieceText(p)) && WellFormed(p) && i < |src| && FitsContext(src, i, p) && !IsComment(p)
    requires !Quiet(PieceText(p))
    ensures exists k :: 0 <= k < |PieceText(p)| && i + k < |src| && Scan(src, i, false)[k] != PieceText(p)[k]
  {
    hide HiddenEnd, At, WellFormed, FitsContext, PieceText, Scan;
    var text := PieceText(p);
    var k := FirstOpener(text);
    InText(src, i, text);
    forall j | i <= j < i + k ensures HiddenEnd(src, j, false) == j {
      OpenerWithin(src, i, p, j - i);
      OnlyComments(src, j);
    }
    CodeScanned(src, i, i + k, false);
    OpenerWithin(src, i, p, k);
    OnlyComments(src, i + k);
    HiddenScanned(src, i + k, HiddenEnd(src, i + k, false), false);
    assert Scan(src, i, false)[k] == ' ';
  }

  lemma FirstPiece(src: string, i: nat, pieces: seq<Piece>)
    requires pieces != [] && Composed(src, i, pieces)
    ensures var p := pieces[0];
            && PieceText(p) != "" && At(src, i, PieceText(p)) && i + |PieceText(p)| <= |src|
            && WellFormed(p) && FitsContext(src, i, p) && Composed(src, i + |PieceText(p)|, pieces[1..])
    ensures Kept(pieces) == KeptPiece(pieces[0]) + Kept(pieces[1..])
  {
    hide WellFormed, FitsContext, PieceText, KeptPiece;
  }

  lemma LastPiece(src: string, i: nat)
    ensures Composed(src, i, []) <==> i == |src|
    ensures Kept([]) == "" && LiteralsQuiet([])
  {
  }

  lemma LoudDiffers(src: string, i: nat, p: Piece, rest: string)
    requires At(src, i, PieceText(p)) && WellFormed(p) && i < |src| && FitsContext(src, i, p) && !IsComment(p)
    requires !Quiet(PieceText(p))
    ensures Scan(src, i, false) != PieceText(p) + rest
  {
    hide At, WellFormed, FitsContext, PieceText, Scan, Quiet;
    LoudLost(src, i, p);
    var k :| 0 <= k < |PieceText(p)| && i + k < |src| && Scan(src, i, false)[k] != PieceText(p)[k];
    assert (PieceText(p) + rest)[k] == PieceText(p)[k];
  }

  lemma KeptSize(p: Piece)
    ensures |KeptPiece(p)| == |PieceText(p)| && (!IsComment(p) ==> KeptPiece(p) == PieceText(p))
  {
  }

  lemma FirstQuiet(pieces: seq<Piece>)
    requires pieces != []
    ensures LiteralsQuiet(pieces) <==>
            (IsComment(pieces[0]) || Quiet(PieceText(pieces[0]))) && LiteralsQuiet(pieces[1..])
  {
    hide Quiet, PieceText, IsComment;
  }

  lemma SameTail(a: string, x: string, y: string)
    ensures a + x == a + y <==> x == y
  {
    if a + x == a + y { assert (a + x)[|a|..] == x && (a + y)[|a|..] == y; }
  }

  lemma {:induction false} ScanKept(src: string, i: nat, pieces: seq<Piece>)
    requires i <= |src| && Composed(src, i, pieces)
    ensures Scan(src, i, false) == Kept(pieces) <==> LiteralsQuiet(pieces)
    decreases |pieces|
  {
    hide At, WellFormed, FitsContext, PieceText, KeptPiece, Scan, Quiet, IsComment, Composed, Kept, LiteralsQuiet;
    if pieces == [] {
      LastPiece(src, i);
      EndScanned(src, false);
    } else {
      var p := pieces[0];
      var e := i + |PieceText(p)|;
      FirstPiece(src, i, pieces);
      KeptSize(p);
      FirstQuiet(pieces);
      ScanKept(src, e, pieces[1..]);
      if IsComment(p) {
        CommentKept(src, i, p);
        SameTail(KeptPiece(p), Scan(src, e, false), Kept(pieces[1..]));
      } else if Quiet(PieceText(p)) {
        QuietKept(src, i, p);
        SameTail(KeptPiece(p), Scan(src, e, false), Kept(pieces[1..]));
      } else {
        LoudDiffers(src, i, p, Kept(pieces[1..]));
      }
    }
  }

  /** With strings kept, a composed text loses exactly its comments if and only if no literal in it holds
      what would open one. */
  lemma BlankedIsKept(src: string, pieces: seq<Piece>)
    requires Composed(src, 0, pieces)
    ensures Blanked(src, false) == Kept(pieces) <==> LiteralsQuiet(pieces)
  {
    ScanKept(src, 0, pieces);
  }

  /** The address in a string is taken for a comment. */
  lemma StringCanBeLost()
    ensures var q := Plain('/', Plain('/', Ended));
            && Composed("\"//\"", 0, [StringLiteral(q)])
            && Kept([StringLiteral(q)]) == "\"//\"" && Blanked("\"//\"", false) == "\"   "
  {
    var q := Plain('/', Plain('/', Ended));
    var src := "\"//\"";
    assert QuotedText(Plain('/', Ended)) == "/" + QuotedText(Ended);
    assert QuotedText(q) == "//";
    assert PieceText(StringLiteral(q)) == src;
    assert Kept([StringLiteral(q)][1..]) == "";
    assert Composed(src, 4, [StringLiteral(q)][1..]);
    assert LineEnd(src, 3) == 4;
    assert HiddenEnd(src, 0, false) == 0 && HiddenEnd(src, 1, false) == 4;
    CodeScanned(src, 0, 1, false);
    HiddenScanned(src, 1, 4, false);
  }
}
