/** The `cfg` predicate evaluator of the test-hygiene gate, which works on the predicate's text
    (scripts/check-test-hygiene.py). */
module CfgPredicate {
  import opened Results
  import opened Texts

  /** What the host says: plain facts, key/value facts, and the letters and digits beyond ASCII. */
  datatype Host = Host(facts: map<string, bool>, kv: map<string, string>, letters: set<char>)

  /** `\w`: the ASCII word characters, and what else counts as a letter or digit. */
  predicate IsWord(letters: set<char>, c: char) {
    || 'a' <= c <= 'z' || 'A' <= c <= 'Z' || '0' <= c <= '9' || c == '_'
    || (c as int >= 128 && !IsSpace(c) && c in letters)
  }

  // ---------------------------------------------------------------------------
  // Text helpers
  // ---------------------------------------------------------------------------

  /** The first index from `i` on that is not a space, or the end. */
  function SkipSpace(s: string, i: nat): (e: nat)
    requires i <= |s|
    ensures i <= e <= |s|
    decreases |s| - i
  {
    if i < |s| && IsSpace(s[i]) then SkipSpace(s, i + 1) else i
  }

  /** The end of `s[lo..]` without its trailing spaces. */
  function TrimEnd(s: string, lo: nat, hi: nat): (e: nat)
    requires lo <= hi <= |s|
    ensures lo <= e <= hi
  {
    if lo < hi && IsSpace(s[hi - 1]) then TrimEnd(s, lo, hi - 1) else hi
  }

  function Strip(s: string): (r: string)
    ensures |r| <= |s|
  {
    var lo := SkipSpace(s, 0);
    s[lo..TrimEnd(s, lo, |s|)]
  }

  /** How a character moves the parenthesis depth. */
  function Delta(c: char): (d: int) {
    (if c == '(' then 1 else 0) - if c == ')' then 1 else 0
  }

  /** The text cut at the commas that stand at depth 0; `cur` is the piece being collected. */
  function Pieces(s: string, depth: int, cur: string): (r: seq<string>)
    decreases |s|
  {
    if s == "" then [cur]
    else if s[0] == ',' && depth == 0 then [cur] + Pieces(s[1..], 0, "")
    else Pieces(s[1..], depth + Delta(s[0]), cur + [s[0]])
  }

  /** Stripped, without the empty ones. */
  function Tidy(pieces: seq<string>): (r: seq<string>) {
    if pieces == [] then []
    else
      var last := Strip(pieces[|pieces| - 1]);
      Tidy(pieces[..|pieces| - 1]) + if last != "" then [last] else []
  }

  function Args(s: string): (r: seq<string>) {
    Tidy(Pieces(s, 0, ""))
  }

  /** The splitting loop. */
  method SplitArgs(s: string) returns (args: seq<string>)
    ensures args == Args(s)
  {
    hide Strip, Delta;
    var out: seq<string>, depth: int, cur: string := [], 0, "";
    var i := 0;
    while i < |s|
      invariant 0 <= i <= |s|
      invariant out + Pieces(s[i..], depth, cur) == Pieces(s, 0, "")
    {
      assert s[i..][1..] == s[i + 1..];
      if s[i] == ',' && depth == 0 {
        out := out + [cur];
        cur := "";
      } else {
        depth := depth + Delta(s[i]);
        cur := cur + [s[i]];
      }
      i := i + 1;
    }
    assert s[i..] == "";
    ghost var all := Pieces(s, 0, "");
    assert all == out + [cur];
    assert all[..|all| - 1] == out;
    if Strip(cur) != "" {
      out := out + [cur];
    }
    args := TidyAll(out);
  }

  method TidyAll(out: seq<string>) returns (args: seq<string>)
    ensures args == Tidy(out)
  {
    args := [];
    var k := 0;
    while k < |out|
      invariant 0 <= k <= |out| && args == Tidy(out[..k])
    {
      assert out[..k + 1][..k] == out[..k];
      var a := Strip(out[k]);
      if a != "" {
        args := args + [a];
      }
      k := k + 1;
    }
    assert out[..k] == out;
  }

  /** No argument is longer than the text it was cut from. */
  lemma {:induction false} PiecesWithin(s: string, depth: int, cur: string)
    ensures forall p :: p in Pieces(s, depth, cur) ==> |p| <= |cur| + |s|
    decreases |s|
  {
    if s != "" {
      if s[0] == ',' && depth == 0 {
        PiecesWithin(s[1..], 0, "");
      } else {
        PiecesWithin(s[1..], depth + Delta(s[0]), cur + [s[0]]);
      }
    }
  }

  lemma {:induction false} TidyWithin(pieces: seq<string>, n: nat)
    requires forall p :: p in pieces ==> |p| <= n
    ensures forall a :: a in Tidy(pieces) ==> |a| <= n
  {
    if pieces != [] {
      var k := |pieces| - 1;
      assert pieces[k] in pieces;
      TidyWithin(pieces[..k], n);
    }
  }

  lemma ArgsWithin(s: string)
    ensures forall a :: a in Args(s) ==> |a| <= |s|
  {
    PiecesWithin(s, 0, "");
    TidyWithin(Pieces(s, 0, ""), |s|);
  }

  // ---------------------------------------------------------------------------
  // The evaluator
  // ---------------------------------------------------------------------------

  predicate StartsWith(s: string, prefix: string) {
    |prefix| <= |s| && s[..|prefix|] == prefix
  }

  /** What a call's parentheses enclose: everything after its first four characters but the last. */
  function Inner(p: string): (r: string)
    ensures p != "" ==> |r| < |p|
  {
    if |p| >= 5 then p[4..|p| - 1] else ""
  }

  function WordEnd(letters: set<char>, s: string, i: nat): (e: nat)
    requires i <= |s|
    ensures i <= e <= |s|
    decreases |s| - i
  {
    if i < |s| && IsWord(letters, s[i]) then WordEnd(letters, s, i + 1) else i
  }

  function QuoteEnd(s: string, i: nat): (e: nat)
    requires i <= |s|
    ensures i <= e <= |s|
    decreases |s| - i
  {
    if i < |s| && s[i] != '"' then QuoteEnd(s, i + 1) else i
  }

  /** `key = "value"` at the front of `p`. */
  function KeyValue(letters: set<char>, p: string): (r: Option<(string, string)>) {
    var w := WordEnd(letters, p, 0);
    var eq := SkipSpace(p, w);
    if w == 0 || eq == |p| || p[eq] != '=' then None
    else
      var q := SkipSpace(p, eq + 1);
      if q == |p| || p[q] != '"' then None
      else
        var e := QuoteEnd(p, q + 1);
        if e == |p| then None else Some((p[..w], p[q + 1..e]))
  }

  function HostCfg(host: Host, pred: string): (r: bool)
    decreases |pred|
  {
    var p := Strip(pred);
    if StartsWith(p, "all(") then
      ArgsWithin(Inner(p));
      forall k :: 0 <= k < |Args(Inner(p))| ==> HostCfg(host, Args(Inner(p))[k])
    else if StartsWith(p, "any(") then
      ArgsWithin(Inner(p));
      exists k :: 0 <= k < |Args(Inner(p))| && HostCfg(host, Args(Inner(p))[k])
    else if StartsWith(p, "not(") then !HostCfg(host, Inner(p))
    else
      match KeyValue(host.letters, p)
      case Some((k, v)) => k in host.kv && host.kv[k] == v
      case None => if p in host.facts then host.facts[p] else true
  }

  // ---------------------------------------------------------------------------
  // Predicates as trees
  // ---------------------------------------------------------------------------

  datatype Pred =
    | Flag(name: string)
    | Setting(key: string, before: string, after: string, value: string)
    | All(args: seq<Pred>)
    | Any(args: seq<Pred>)
    | Not(arg: Pred)
    | Padded(left: string, inner: Pred, right: string)

  function Print(p: Pred): (s: string)
    decreases p, 0
  {
    match p
    case Flag(name) => name
    case Setting(key, before, after, value) => key + before + "=" + after + "\"" + value + "\""
    case All(args) => "all(" + PrintArgs(args) + ")"
    case Any(args) => "any(" + PrintArgs(args) + ")"
    case Not(arg) => "not(" + Print(arg) + ")"
    case Padded(left, inner, right) => left + Print(inner) + right
  }

  /** The arguments with a comma between each two. */
  function PrintArgs(args: seq<Pred>): (s: string)
    decreases args
  {
    if args == [] then ""
    else if |args| == 1 then Print(args[0])
    else Print(args[0]) + "," + PrintArgs(args[1..])
  }

  /** The Boolean value of a predicate on a host; an unknown flag holds. */
  function Value(host: Host, p: Pred): (b: bool)
    decreases p
  {
    match p
    case Flag(name) => if name in host.facts then host.facts[name] else true
    case Setting(key, _, _, value) => key in host.kv && host.kv[key] == value
    case All(args) => forall k :: 0 <= k < |args| ==> Value(host, args[k])
    case Any(args) => exists k :: 0 <= k < |args| && Value(host, args[k])
    case Not(arg) => !Value(host, arg)
    case Padded(_, inner, _) => Value(host, inner)
  }

  predicate Spaces(s: string) {
    forall k :: 0 <= k < |s| ==> IsSpace(s[k])
  }

  predicate Trimmed(s: string) {
    s != "" && !IsSpace(s[0]) && !IsSpace(s[|s| - 1])
  }

  function Net(s: string): (d: int) {
    if s == "" then 0 else Delta(s[0]) + Net(s[1..])
  }

  /** Scanned from `depth`, the text never closes more than is open and has no comma at depth 0. */
  predicate Holds(s: string, depth: nat) {
    || s == ""
    || (&& (s[0] == ',' ==> depth > 0) && depth + Delta(s[0]) >= 0 && Holds(s[1..], depth + Delta(s[0])))
  }

  /** Kept together by the splitter wherever it stands as an argument. */
  predicate Whole(s: string) {
    Holds(s, 0) && Net(s) == 0
  }

  /** An atom is a trimmed text the splitter keeps together and the evaluator takes for no operator;
      commas and parentheses are fine as long as they balance. */
  predicate WellFormed(letters: set<char>, p: Pred)
    decreases p
  {
    match p
    case Flag(name) =>
      && Trimmed(name) && Whole(name) && KeyValue(letters, name).None?
      && !StartsWith(name, "all(") && !StartsWith(name, "any(") && !StartsWith(name, "not(")
    case Setting(key, before, after, value) =>
      && key != "" && (forall k :: 0 <= k < |key| ==> IsWord(letters, key[k])) && Spaces(before) && Spaces(after)
      && (forall k :: 0 <= k < |value| ==> value[k] != '"') && Whole(value)
    case All(args) => forall k :: 0 <= k < |args| ==> WellFormed(letters, args[k])
    case Any(args) => forall k :: 0 <= k < |args| ==> WellFormed(letters, args[k])
    case Not(arg) => WellFormed(letters, arg)
    case Padded(left, inner, right) => Spaces(left) && Spaces(right) && WellFormed(letters, inner)
  }

  // ---------------------------------------------------------------------------
  // Splitting printed arguments
  // ---------------------------------------------------------------------------

  lemma {:induction false} HoldsDeeper(s: string, depth: nat, more: nat)
    requires Holds(s, depth)
    ensures Holds(s, depth + more)
    decreases |s|
  {
    if s != "" { HoldsDeeper(s[1..], depth + Delta(s[0]), more); }
  }

  lemma {:induction false} HoldsConcat(a: string, b: string, depth: nat)
    requires Holds(a, depth) && depth + Net(a) >= 0 && Holds(b, depth + Net(a))
    ensures Holds(a + b, depth) && Net(a + b) == Net(a) + Net(b)
    decreases |a|
  {
    if a == "" {
      assert a + b == b;
    } else {
      assert (a + b)[1..] == a[1..] + b;
      HoldsConcat(a[1..], b, depth + Delta(a[0]));
    }
  }

  /** A text without a comma at depth 0 goes into the current piece as it is. */
  lemma {:induction false} Collected(t: string, rest: string, depth: nat, cur: string)
    requires Holds(t, depth)
    ensures depth + Net(t) >= 0
    ensures Pieces(t + rest, depth, cur) == Pieces(rest, depth + Net(t), cur + t)
    decreases |t|
  {
    if t == "" {
      assert t + rest == rest && cur + t == cur;
    } else {
      assert (t + rest)[1..] == t[1..] + rest;
      Collected(t[1..], rest, depth + Delta(t[0]), cur + [t[0]]);
      assert cur + [t[0]] + t[1..] == cur + t;
    }
  }

  function Printed(args: seq<Pred>): (r: seq<string>)
    ensures |r| == |args| && forall k :: 0 <= k < |r| ==> r[k] == Print(args[k])
  {
    seq(|args|, k requires 0 <= k < |args| => Print(args[k]))
  }

  /** A kept-together text and a comma end a piece. */
  lemma PieceEnds(t: string, rest: string)
    requires Whole(t)
    ensures Pieces(t, 0, "") == [t]
    ensures Pieces(t + "," + rest, 0, "") == [t] + Pieces(rest, 0, "")
  {
    Collected(t, "", 0, "");
    assert t + "" == t && "" + t == t;
    var tail := "," + rest;
    Collected(t, tail, 0, "");
    assert t + "," + rest == t + tail && tail[1..] == rest;
    hide Holds, Net;
  }

  /** The splitter finds the printed arguments again. */
  lemma {:induction false} SplitPrinted(args: seq<Pred>)
    requires forall k :: 0 <= k < |args| ==> Whole(Print(args[k]))
    ensures Pieces(PrintArgs(args), 0, "") == if args == [] then [""] else Printed(args)
  {
    if args != [] {
      var t, rest := Print(args[0]), args[1..];
      PieceEnds(t, PrintArgs(rest));
      assert rest != [] ==> PrintArgs(args) == t + "," + PrintArgs(rest);
      hide Whole, Print, Pieces;
      SplitPrinted(rest);
      assert Printed(args) == [t] + Printed(rest);
    }
  }

  // ---------------------------------------------------------------------------
  // Padding
  // ---------------------------------------------------------------------------

  lemma {:induction false} SkipsSpaces(s: string, i: nat, left: string, rest: string)
    requires i <= |s| && s[i..] == left + rest && Spaces(left) && (rest == "" || !IsSpace(rest[0]))
    ensures SkipSpace(s, i) == i + |left|
    decreases |left|
  {
    if left == "" {
      assert rest != "" ==> s[i] == rest[0];
      assert rest == "" ==> |s[i..]| == 0;
    } else {
      assert s[i] == s[i..][0] == left[0];
      assert s[i + 1..] == s[i..][1..] == left[1..] + rest;
      SkipsSpaces(s, i + 1, left[1..], rest);
    }
  }

  lemma {:induction false} TrimsSpaces(s: string, lo: nat, hi: nat, e: nat)
    requires lo < e <= hi <= |s| && !IsSpace(s[e - 1]) && forall k :: e <= k < hi ==> IsSpace(s[k])
    ensures TrimEnd(s, lo, hi) == e
  {
    if e < hi { TrimsSpaces(s, lo, hi - 1, e); }
  }

  /** Padding around a trimmed text is what stripping removes. */
  lemma StripPadded(left: string, core: string, right: string)
    requires Spaces(left) && Spaces(right) && Trimmed(core)
    ensures Strip(left + core + right) == core
  {
    var s := left + core + right;
    assert s[0..] == left + (core + right);
    SkipsSpaces(s, 0, left, core + right);
    TrimsSpaces(s, |left|, |s|, |left| + |core|);
    assert s[|left|..|left| + |core|] == core;
  }

  /** The printed text without its padding. */
  function Core(p: Pred): (s: string)
    decreases p
  {
    if p.Padded? then Core(p.inner) else Print(p)
  }

  lemma PaddedPrint(left: string, inner: Pred, right: string)
    ensures Print(Padded(left, inner, right)) == left + Print(inner) + right
    ensures Core(Padded(left, inner, right)) == Core(inner)
  {
  }

  lemma BareCore(p: Pred)
    requires !p.Padded?
    ensures Core(p) == Print(p)
  {
  }

  lemma {:induction false} PaddingOf(letters: set<char>, p: Pred) returns (left: string, right: string)
    requires WellFormed(letters, p)
    ensures Spaces(left) && Spaces(right) && Print(p) == left + Core(p) + right
    decreases p
  {
    hide Spaces, Print, Core;
    if p.Padded? {
      var l, r := PaddingOf(letters, p.inner);
      left, right := p.left + l, r + p.right;
      PaddedPrint(p.left, p.inner, p.right);
      Rewrap(p.left, l, Core(p), r, p.right);
    } else {
      left, right := "", "";
      NoSpaces();
      BareCore(p);
      assert "" + Core(p) + "" == Print(p);
    }
  }

  lemma NoSpaces()
    ensures Spaces("")
  {
  }

  lemma Rewrap(a: string, l: string, core: string, r: string, b: string)
    requires Spaces(a) && Spaces(l) && Spaces(r) && Spaces(b)
    ensures Spaces(a + l) && Spaces(r + b)
    ensures a + (l + core + r) + b == (a + l) + core + (r + b)
  {
  }

  lemma {:induction false} CoreTrimmed(letters: set<char>, p: Pred)
    requires WellFormed(letters, p)
    ensures Trimmed(Core(p))
    decreases p
  {
    match p
    case Padded(_, inner, _) => CoreTrimmed(letters, inner);
    case Flag(_) =>
    case Setting(key, before, after, value) => assert IsWord(letters, key[0]);
    case All(args) => assert Print(p)[0] == 'a';
    case Any(args) => assert Print(p)[0] == 'a';
    case Not(arg) => assert Print(p)[0] == 'n';
  }

  lemma CoreNonEmpty(letters: set<char>, p: Pred)
    requires WellFormed(letters, p)
    ensures Core(p) != ""
  {
    CoreTrimmed(letters, p);
  }

  lemma StripPrint(letters: set<char>, p: Pred)
    requires WellFormed(letters, p)
    ensures Strip(Print(p)) == Core(p) && Strip(Core(p)) == Core(p)
  {
    hide Print, Core, Strip, WellFormed;
    var left, right := PaddingOf(letters, p);
    CoreTrimmed(letters, p);
    StripPadded(left, Core(p), right);
    StripPadded("", Core(p), "");
    assert "" + Core(p) + "" == Core(p);
  }

  // ---------------------------------------------------------------------------
  // Every printed predicate is kept together
  // ---------------------------------------------------------------------------

  lemma {:induction false} PlainHolds(s: string, depth: nat)
    requires forall k :: 0 <= k < |s| ==> s[k] != ',' && s[k] != '(' && s[k] != ')'
    ensures Holds(s, depth) && Net(s) == 0
    decreases |s|
  {
    if s != "" { PlainHolds(s[1..], depth); }
  }

  lemma WholeConcat(a: string, b: string)
    requires Whole(a) && Whole(b)
    ensures Whole(a + b)
  {
    HoldsConcat(a, b, 0);
  }

  lemma CallWhole(op: string, body: string)
    requires (forall k :: 0 <= k < |op| ==> op[k] != ',' && op[k] != '(' && op[k] != ')')
    requires Holds(body, 1) && Net(body) == 0
    ensures Whole(op + "(" + body + ")")
  {
    PlainHolds(op, 0);
    assert "("[1..] == "" && ")"[1..] == "";
    assert Holds("(", 0) && Net("(") == 1 && Holds(")", 1) && Net(")") == -1;
    hide Holds, Net;
    HoldsConcat(op, "(", 0);
    HoldsConcat(op + "(", body, 0);
    HoldsConcat(op + "(" + body, ")", 0);
  }

  lemma SpacesWhole(s: string)
    requires Spaces(s)
    ensures Whole(s)
  {
    PlainHolds(s, 0);
  }

  lemma SettingWhole(letters: set<char>, key: string, before: string, after: string, value: string)
    requires WellFormed(letters, Setting(key, before, after, value))
    ensures Whole(Print(Setting(key, before, after, value)))
  {
    hide Holds, Net, KeyValue;
    PlainHolds(key, 0);
    SpacesWhole(before);
    SpacesWhole(after);
    PlainHolds("=", 0);
    PlainHolds("\"", 0);
    WholeConcat(key, before);
    WholeConcat(key + before, "=");
    WholeConcat(key + before + "=", after);
    WholeConcat(key + before + "=" + after, "\"");
    WholeConcat(key + before + "=" + after + "\"", value);
    WholeConcat(key + before + "=" + after + "\"" + value, "\"");
  }

  lemma GroupWhole(args: seq<Pred>)
    requires Holds(PrintArgs(args), 1) && Net(PrintArgs(args)) == 0
    ensures Whole(Print(All(args))) && Whole(Print(Any(args)))
  {
    hide Holds, Net, PrintArgs;
    CallWhole("all", PrintArgs(args));
    assert "all" + "(" == "all(";
    CallWhole("any", PrintArgs(args));
    assert "any" + "(" == "any(";
  }

  lemma NotWhole(arg: Pred)
    requires Whole(Print(arg))
    ensures Whole(Print(Not(arg)))
  {
    var text := Print(arg);
    HoldsDeeper(text, 0, 1);
    CallWhole("not", text);
    hide Holds, Net;
    assert Print(Not(arg)) == "not" + "(" + text + ")";
  }

  lemma PaddedWhole(left: string, inner: Pred, right: string)
    requires Spaces(left) && Spaces(right) && Whole(Print(inner))
    ensures Whole(Print(Padded(left, inner, right)))
  {
    var text := Print(inner);
    SpacesWhole(left);
    SpacesWhole(right);
    WholeConcat(left, text);
    WholeConcat(left + text, right);
    hide Holds, Net, Spaces;
  }

  lemma {:induction false} PrintWhole(letters: set<char>, p: Pred)
    requires WellFormed(letters, p)
    ensures Whole(Print(p))
    decreases p, 0
  {
    assert p.Flag? ==> Whole(Print(p)) by { hide KeyValue; }
    assert p.Padded? ==> Spaces(p.left) && Spaces(p.right);
    hide Holds, Net, KeyValue, Whole, Print, Spaces;
    match p
    case Flag(_) =>
    case Setting(key, before, after, value) => SettingWhole(letters, key, before, after, value);
    case All(args) =>
      PrintArgsHold(letters, args);
      GroupWhole(args);
    case Any(args) =>
      PrintArgsHold(letters, args);
      GroupWhole(args);
    case Not(arg) =>
      PrintWhole(letters, arg);
      NotWhole(arg);
    case Padded(left, inner, right) =>
      PrintWhole(letters, inner);
      PaddedWhole(left, inner, right);
  }

  lemma {:induction false} PrintArgsHold(letters: set<char>, args: seq<Pred>)
    requires forall k :: 0 <= k < |args| ==> WellFormed(letters, args[k])
    ensures Holds(PrintArgs(args), 1) && Net(PrintArgs(args)) == 0
    decreases args
  {
    if args != [] {
      PrintWhole(letters, args[0]);
      var t := Print(args[0]);
      HoldsDeeper(t, 0, 1);
      if |args| > 1 {
        hide Print, WellFormed;
        PrintArgsHold(letters, args[1..]);
        assert ","[1..] == "";
        assert Holds(",", 1) && Net(",") == 0;
        HoldsConcat(t, ",", 1);
        HoldsConcat(t + ",", PrintArgs(args[1..]), 1);
      }
    }
  }

  // ---------------------------------------------------------------------------
  // The evaluator computes the Boolean value
  // ---------------------------------------------------------------------------

  function Cores(args: seq<Pred>): (r: seq<string>)
    ensures |r| == |args| && forall k :: 0 <= k < |r| ==> r[k] == Core(args[k])
  {
    seq(|args|, k requires 0 <= k < |args| => Core(args[k]))
  }

  lemma {:induction false} TidyAs(pieces: seq<string>, cores: seq<string>)
    requires |pieces| == |cores| && forall k :: 0 <= k < |cores| ==> Strip(pieces[k]) == cores[k] != ""
    ensures Tidy(pieces) == cores
  {
    hide Strip;
    if pieces != [] {
      var n := |pieces| - 1;
      TidyAs(pieces[..n], cores[..n]);
      assert cores == cores[..n] + [cores[n]];
    }
  }

  lemma TidyPrinted(letters: set<char>, args: seq<Pred>)
    requires forall k :: 0 <= k < |args| ==> WellFormed(letters, args[k])
    ensures Tidy(Printed(args)) == Cores(args)
  {
    hide WellFormed, Print, Core, Strip, Tidy;
    forall k | 0 <= k < |args| ensures Strip(Printed(args)[k]) == Cores(args)[k] != "" {
      StripPrint(letters, args[k]);
      CoreNonEmpty(letters, args[k]);
    }
    TidyAs(Printed(args), Cores(args));
  }

  lemma ArgsPrinted(letters: set<char>, args: seq<Pred>)
    requires forall k :: 0 <= k < |args| ==> WellFormed(letters, args[k])
    ensures Args(PrintArgs(args)) == Cores(args)
  {
    forall k | 0 <= k < |args| ensures Whole(Print(args[k])) { PrintWhole(letters, args[k]); }
    SplitPrinted(args);
    if args == [] {
      assert [""][..0] == [];
      assert Strip("") == "";
    } else {
      TidyPrinted(letters, args);
    }
  }

  lemma {:induction false} SkipsWord(letters: set<char>, s: string, i: nat, e: nat)
    requires i <= e < |s| && (forall k :: i <= k < e ==> IsWord(letters, s[k])) && !IsWord(letters, s[e])
    ensures WordEnd(letters, s, i) == e
    decreases e - i
  {
    if i < e { SkipsWord(letters, s, i + 1, e); }
  }

  lemma {:induction false} SkipsSpaceTo(s: string, i: nat, e: nat)
    requires i <= e < |s| && (forall k :: i <= k < e ==> IsSpace(s[k])) && !IsSpace(s[e])
    ensures SkipSpace(s, i) == e
    decreases e - i
  {
    if i < e { SkipsSpaceTo(s, i + 1, e); }
  }

  lemma {:induction false} FindsQuote(s: string, i: nat, e: nat)
    requires i <= e < |s| && (forall k :: i <= k < e ==> s[k] != '"') && s[e] == '"'
    ensures QuoteEnd(s, i) == e
    decreases e - i
  {
    if i < e { FindsQuote(s, i + 1, e); }
  }

  /** A word, white space, an equals sign, white space, and text in quotes, from the front. */
  ghost predicate SettingAt(letters: set<char>, s: string, w: nat, eq: nat, q: nat, e: nat) {
    && 0 < w <= eq < q < e < |s| && s[eq] == '=' && s[q] == '"' && s[e] == '"'
    && (forall k :: 0 <= k < w ==> IsWord(letters, s[k]))
    && (forall k :: w <= k < eq ==> IsSpace(s[k]))
    && (forall k :: eq < k < q ==> IsSpace(s[k]))
    && (forall k :: q < k < e ==> s[k] != '"')
  }

  lemma KeyValueAt(letters: set<char>, s: string, w: nat, eq: nat, q: nat, e: nat)
    requires SettingAt(letters, s, w, eq, q, e)
    ensures KeyValue(letters, s) == Some((s[..w], s[q + 1..e]))
  {
    SkipsWord(letters, s, 0, w);
    SkipsSpaceTo(s, w, eq);
    SkipsSpaceTo(s, eq + 1, q);
    FindsQuote(s, q + 1, e);
  }

  lemma {:induction false} WordsBefore(letters: set<char>, s: string, i: nat)
    requires i <= |s|
    ensures forall k :: i <= k < WordEnd(letters, s, i) ==> IsWord(letters, s[k])
    decreases |s| - i
  {
    if i < |s| && IsWord(letters, s[i]) { WordsBefore(letters, s, i + 1); }
  }

  lemma {:induction false} SpacesBefore(s: string, i: nat)
    requires i <= |s|
    ensures forall k :: i <= k < SkipSpace(s, i) ==> IsSpace(s[k])
    decreases |s| - i
  {
    if i < |s| && IsSpace(s[i]) { SpacesBefore(s, i + 1); }
  }

  lemma {:induction false} NoQuoteBefore(s: string, i: nat)
    requires i <= |s|
    ensures forall k :: i <= k < QuoteEnd(s, i) ==> s[k] != '"'
    ensures QuoteEnd(s, i) < |s| ==> s[QuoteEnd(s, i)] == '"'
    decreases |s| - i
  {
    if i < |s| && s[i] != '"' { NoQuoteBefore(s, i + 1); }
  }

  lemma FoundIsSetting(letters: set<char>, s: string) returns (w: nat, eq: nat, q: nat, e: nat)
    requires KeyValue(letters, s).Some?
    ensures SettingAt(letters, s, w, eq, q, e) && KeyValue(letters, s) == Some((s[..w], s[q + 1..e]))
  {
    hide WordEnd, SkipSpace, QuoteEnd, IsWord, IsSpace;
    w := WordEnd(letters, s, 0);
    eq := SkipSpace(s, w);
    q := SkipSpace(s, eq + 1);
    e := QuoteEnd(s, q + 1);
    WordsBefore(letters, s, 0);
    SpacesBefore(s, w);
    SpacesBefore(s, eq + 1);
    NoQuoteBefore(s, q + 1);
  }

  /** A setting is found exactly where one stands, with its key and value. */
  lemma KeyValueIff(letters: set<char>, s: string, key: string, value: string)
    ensures KeyValue(letters, s) == Some((key, value)) <==>
            exists w: nat, eq: nat, q: nat, e: nat ::
              SettingAt(letters, s, w, eq, q, e) && key == s[..w] && value == s[q + 1..e]
  {
    hide KeyValue, IsWord, IsSpace;
    if KeyValue(letters, s) == Some((key, value)) {
      var w, eq, q, e := FoundIsSetting(letters, s);
    }
    if w: nat, eq: nat, q: nat, e: nat :|
         SettingAt(letters, s, w, eq, q, e) && key == s[..w] && value == s[q + 1..e]
    {
      KeyValueAt(letters, s, w, eq, q, e);
    }
  }

  /** A printed setting is read back as its key and value. */
  /** Where the parts of a printed setting stand. */
  lemma SettingLaid(s: string, key: string, before: string, after: string, value: string)
    requires s == key + before + "=" + after + "\"" + value + "\""
    ensures var w := |key|;
            var eq := w + |before|;
            var q := eq + 1 + |after|;
            var e := q + 1 + |value|;
            && |s| == e + 1 && s[eq] == '=' && s[q] == '"' && s[e] == '"'
            && s[..w] == key && s[w..eq] == before && s[eq + 1..q] == after && s[q + 1..e] == value
  {
  }

  lemma SliceChars(s: string, a: nat, b: nat, part: string, k: nat)
    requires a <= k < b <= |s| && s[a..b] == part
    ensures s[k] == part[k - a]
  {
  }

  lemma SettingRead(letters: set<char>, key: string, before: string, after: string, value: string)
    requires WellFormed(letters, Setting(key, before, after, value))
    ensures KeyValue(letters, Print(Setting(key, before, after, value))) == Some((key, value))
  {
    hide KeyValue, Whole;
    var s := Print(Setting(key, before, after, value));
    SettingLaid(s, key, before, after, value);
    var w := |key|;
    var eq := w + |before|;
    var q := eq + 1 + |after|;
    var e := q + 1 + |value|;
    hide Print;
    assert s[0..w] == key;
    forall k | 0 <= k < w ensures IsWord(letters, s[k]) { SliceChars(s, 0, w, key, k); }
    forall k | w <= k < eq ensures IsSpace(s[k]) { SliceChars(s, w, eq, before, k); }
    forall k | eq < k < q ensures IsSpace(s[k]) { SliceChars(s, eq + 1, q, after, k); }
    forall k | q < k < e ensures s[k] != '"' { SliceChars(s, q + 1, e, value, k); }
    KeyValueAt(letters, s, w, eq, q, e);
  }

  lemma SameStrip(host: Host, a: string, b: string)
    requires Strip(a) == Strip(b)
    ensures HostCfg(host, a) == HostCfg(host, b)
  {
  }

  lemma CallRead(op: string, body: string)
    requires |op| == 3
    ensures var p := op + "(" + body + ")"; Inner(p) == body && p[..4] == op + "("
  {
    var p := op + "(" + body + ")";
    assert p[4..|p| - 1] == body;
    assert p[..4] == op + "(";
  }

  lemma Operators(letters: set<char>, p: Pred)
    requires WellFormed(letters, p) && !p.Padded?
    ensures StartsWith(Print(p), "all(") <==> p.All?
    ensures StartsWith(Print(p), "any(") <==> p.Any?
    ensures StartsWith(Print(p), "not(") <==> p.Not?
    ensures p.All? || p.Any? ==> Inner(Print(p)) == PrintArgs(p.args)
    ensures p.Not? ==> Inner(Print(p)) == Print(p.arg)
  {
    hide Holds, Net, KeyValue;
    match p
    case Flag(_) =>
    case Setting(key, before, after, value) =>
      var s := Print(p);
      assert forall k :: 0 <= k < |key| ==> s[k] == key[k];
      SettingPrefix(letters, s, key);
    case All(args) =>
      assert "all" + "(" == "all(";
      CallRead("all", PrintArgs(args));
      assert "all("[0] == 'a' && "any("[1] == 'n' && "all("[1] == 'l' && "not("[0] == 'n';
    case Any(args) =>
      assert "any" + "(" == "any(";
      CallRead("any", PrintArgs(args));
      assert "any("[1] == 'n' && "all("[1] == 'l' && "not("[0] == 'n' && "any("[0] == 'a';
    case Not(arg) =>
      assert "not" + "(" == "not(";
      CallRead("not", Print(arg));
      assert "not("[0] == 'n' && "all("[0] == 'a' && "any("[0] == 'a';
  }

  /** A setting does not begin like a call: its key is followed by spaces or `=`, never by `(`. */
  lemma SettingPrefix(letters: set<char>, s: string, key: string)
    requires |key| < |s| && s[..|key|] == key && key != "" && (forall k :: 0 <= k < |key| ==> IsWord(letters, key[k]))
    requires s[|key|] == '=' || IsSpace(s[|key|])
    ensures !StartsWith(s, "all(") && !StartsWith(s, "any(") && !StartsWith(s, "not(")
  {
    NotCall(letters, s, key, "all(");
    NotCall(letters, s, key, "any(");
    NotCall(letters, s, key, "not(");
  }

  lemma NotCall(letters: set<char>, s: string, key: string, op: string)
    requires |key| < |s| && s[..|key|] == key && key != "" && (forall k :: 0 <= k < |key| ==> IsWord(letters, key[k]))
    requires s[|key|] == '=' || IsSpace(s[|key|])
    requires |op| == 4 && IsWord(letters, op[0]) && IsWord(letters, op[1]) && IsWord(letters, op[2]) && op[3] == '('
    ensures !StartsWith(s, op)
  {
    var k := if |key| < 3 then |key| else 3;
    assert |key| > 3 ==> s[3] == s[..|key|][3];
    if |s| >= 4 {
      assert s[k] != op[k] && s[..4][k] == s[k];
    }
  }

  lemma AllIff(host: Host, args: seq<Pred>)
    requires forall k :: 0 <= k < |args| ==> HostCfg(host, Core(args[k])) == Value(host, args[k])
    ensures (forall k :: 0 <= k < |args| ==> HostCfg(host, Cores(args)[k])) == Value(host, All(args))
    ensures (exists k :: 0 <= k < |args| && HostCfg(host, Cores(args)[k])) == Value(host, Any(args))
  {
    hide HostCfg, Core;
    assert forall k :: 0 <= k < |args| ==> HostCfg(host, Cores(args)[k]) == Value(host, args[k]);
  }

  lemma ListValue(host: Host, p: Pred)
    requires WellFormed(host.letters, p) && (p.All? || p.Any?) && Strip(Print(p)) == Print(p)
    requires forall k :: 0 <= k < |p.args| ==> HostCfg(host, Core(p.args[k])) == Value(host, p.args[k])
    ensures HostCfg(host, Print(p)) == Value(host, p)
  {
    hide HostCfg, Print, Core, Strip, Args, Inner, PrintArgs, StartsWith, KeyValue, Value;
    ArgsPrinted(host.letters, p.args);
    AllIff(host, p.args);
    Operators(host.letters, p);
    EvalCall(host, p);
    assert p == if p.All? then All(p.args) else Any(p.args);
  }

  lemma PlainValue(host: Host, p: Pred)
    requires WellFormed(host.letters, p) && (p.Not? || p.Flag? || p.Setting?) && Strip(Print(p)) == Print(p)
    requires p.Not? ==> HostCfg(host, Print(p.arg)) == Value(host, p.arg)
    ensures HostCfg(host, Print(p)) == Value(host, p)
  {
    hide HostCfg, Core, Strip, Args, Inner, StartsWith, KeyValue;
    Operators(host.letters, p);
    EvalCall(host, p);
    if p.Setting? {
      SettingRead(host.letters, p.key, p.before, p.after, p.value);
    }
  }

  /** On every host the evaluator computes the Boolean value of every predicate from its text,
      however nested and however padded, as long as the splitter keeps its atoms together. */
  lemma {:induction false} HostCfgIsValue(host: Host, p: Pred)
    requires WellFormed(host.letters, p)
    ensures HostCfg(host, Print(p)) == Value(host, p)
    ensures HostCfg(host, Core(p)) == Value(host, p)
    decreases p
  {
    hide HostCfg, Print, Core, Strip, KeyValue;
    StripPrint(host.letters, p);
    SameStrip(host, Print(p), Core(p));
    if p.Padded? {
      PaddedPrint(p.left, p.inner, p.right);
      HostCfgIsValue(host, p.inner);
    } else {
      BareCore(p);
      if p.All? || p.Any? {
        forall k | 0 <= k < |p.args| ensures HostCfg(host, Core(p.args[k])) == Value(host, p.args[k]) {
          HostCfgIsValue(host, p.args[k]);
        }
        ListValue(host, p);
      } else {
        if p.Not? { HostCfgIsValue(host, p.arg); }
        PlainValue(host, p);
      }
    }
  }

  /** One step of the evaluator on a stripped text. */
  lemma EvalCall(host: Host, p: Pred)
    requires !p.Padded? && Strip(Print(p)) == Print(p)
    ensures var s := Print(p);
            HostCfg(host, s) ==
            if StartsWith(s, "all(") then forall k :: 0 <= k < |Args(Inner(s))| ==> HostCfg(host, Args(Inner(s))[k])
            else if StartsWith(s, "any(") then exists k :: 0 <= k < |Args(Inner(s))| && HostCfg(host, Args(Inner(s))[k])
            else if StartsWith(s, "not(") then !HostCfg(host, Inner(s))
            else match KeyValue(host.letters, s)
                 case Some((k, v)) => k in host.kv && host.kv[k] == v
                 case None => if s in host.facts then host.facts[s] else true
  {
    hide Args, Inner, KeyValue, Print, StartsWith;
  }
}
