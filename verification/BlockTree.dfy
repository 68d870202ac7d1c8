/** The brace tree of the test-hygiene gate (scripts/check-test-hygiene.py): `parse` builds the
    blocks of a blanked source text, `chain` and `children` query them by offset. */
module BlockTree {
  import opened Results

  datatype Block = Block(open: nat, close: nat, header: string, parent: Option<nat>, index: nat)

  // ---------------------------------------------------------------------------
  // The reference: the stack of open braces at every offset
  // ---------------------------------------------------------------------------

  /** The braces open just before offset `off`, outermost first; a stray `}` closes nothing. */
  function OpenAt(code: string, off: nat): (r: seq<nat>)
    requires off <= |code|
  {
    if off == 0 then []
    else
      var s := OpenAt(code, off - 1);
      if code[off - 1] == '{' then s + [off - 1]
      else if code[off - 1] == '}' && s != [] then s[..|s| - 1]
      else s
  }

  predicate EndsHeader(c: char) {
    c == '{' || c == '}' || c == ';'
  }

  /** Where the text before offset `i` that belongs to the next block's header starts. */
  function Boundary(code: string, i: nat): (b: nat)
    requires i <= |code|
    ensures b <= i
    ensures b == 0 || EndsHeader(code[b - 1])
    ensures forall k :: b <= k < i ==> !EndsHeader(code[k])
  {
    if i == 0 then 0 else if EndsHeader(code[i - 1]) then i else Boundary(code, i - 1)
  }

  ghost predicate Ascending(s: seq<nat>) {
    forall i, j :: 0 <= i < j < |s| ==> s[i] < s[j]
  }

  /** Positions of opening braces before `off`, in order. */
  ghost predicate Braces(code: string, s: seq<nat>, off: nat)
    requires off <= |code|
  {
    Ascending(s) && forall k :: 0 <= k < |s| ==> s[k] < off && code[s[k]] == '{'
  }

  /** Open braces are listed by position, all before `off`. */
  lemma {:induction false} OpenAscends(code: string, off: nat)
    requires off <= |code|
    ensures Braces(code, OpenAt(code, off), off)
  {
    if off > 0 {
      OpenAscends(code, off - 1);
      BracesStep(code, OpenAt(code, off - 1), off);
    }
  }

  lemma BracesStep(code: string, s: seq<nat>, off: nat)
    requires 0 < off <= |code| && Braces(code, s, off - 1)
    ensures Braces(code, s, off) && (s != [] ==> Braces(code, s[..|s| - 1], off))
    ensures code[off - 1] == '{' ==> Braces(code, s + [off - 1], off)
  {
  }

  // ---------------------------------------------------------------------------
  // What the blocks mean
  // ---------------------------------------------------------------------------

  /** Exactly while the block is open, its brace is on the stack. */
  ghost predicate Tracks(code: string, b: Block, upto: nat)
    requires upto <= |code|
  {
    forall off :: 0 <= off <= upto ==> (b.open in OpenAt(code, off) <==> b.open < off <= b.close)
  }

  /** The block's close is the brace that pops it, or the end of the text. */
  ghost predicate Closes(code: string, b: Block) {
    || b.close == |code|
    || (&& b.open < b.close < |code| && code[b.close] == '}'
        && var s := OpenAt(code, b.close); s != [] && s[|s| - 1] == b.open)
  }

  /** The parent is the innermost block open where this one opens. */
  ghost predicate Parented(code: string, blocks: seq<Block>, b: Block)
    requires b.open < |code|
  {
    var s := OpenAt(code, b.open);
    match b.parent
    case None => s == []
    case Some(k) => s != [] && k < |blocks| && blocks[k].open == s[|s| - 1]
  }

  /** A block found in `code[..upto]`. */
  ghost predicate BlockOk(code: string, b: Block, upto: nat)
    requires upto <= |code|
  {
    && b.open < upto && code[b.open] == '{'
    && b.header == code[Boundary(code, b.open)..b.open]
    && b.open < b.close && (b.close < upto || b.close == |code|)
    && Closes(code, b) && Tracks(code, b, upto)
  }

  /** Every opening brace before `upto` has its block, in order. */
  ghost predicate Listed(code: string, blocks: seq<Block>, upto: nat)
    requires upto <= |code|
  {
    && (forall k :: 0 <= k < |blocks| ==> blocks[k].index == k)
    && (forall j, k :: 0 <= j < k < |blocks| ==> blocks[j].open < blocks[k].open)
    && (forall p :: 0 <= p < upto && code[p] == '{' ==> exists k :: 0 <= k < |blocks| && blocks[k].open == p)
  }

  ghost predicate Describes(code: string, blocks: seq<Block>, upto: nat)
    requires upto <= |code|
  {
    && Listed(code, blocks, upto)
    && (forall k :: 0 <= k < |blocks| ==> BlockOk(code, blocks[k], upto) && Parented(code, blocks, blocks[k]))
  }

  /** The parser's own stack of block indices is the stack of open braces. */
  ghost predicate Mirrors(code: string, blocks: seq<Block>, stack: seq<nat>, off: nat)
    requires off <= |code|
  {
    && |stack| == |OpenAt(code, off)|
    && forall m :: 0 <= m < |stack| ==>
         stack[m] < |blocks| && blocks[stack[m]].open == OpenAt(code, off)[m] && blocks[stack[m]].close == |code|
  }

  lemma NothingOpen(code: string)
    ensures Describes(code, [], 0) && Mirrors(code, [], [], 0) && Boundary(code, 0) == 0
  {
  }

  lemma TopIsBlock(code: string, blocks: seq<Block>, stack: seq<nat>, off: nat)
    requires off <= |code| && Mirrors(code, blocks, stack, off)
    ensures stack != [] ==> stack[|stack| - 1] < |blocks|
  {
    hide OpenAt;
  }

  lemma BoundaryStep(code: string, i: nat)
    requires i < |code|
    ensures Boundary(code, i + 1) == if EndsHeader(code[i]) then i + 1 else Boundary(code, i)
  {
  }

  method Parse(code: string) returns (blocks: seq<Block>)
    ensures Describes(code, blocks, |code|)
  {
    var n := |code|;
    blocks := [];
    var stack: seq<nat> := [];
    var boundary := 0;
    var i := 0;
    hide OpenAt, Describes, Mirrors, Boundary, BlockOk, Listed, Parented;
    NothingOpen(code);
    while i < n
      invariant 0 <= i <= n
      invariant boundary == Boundary(code, i)
      invariant Describes(code, blocks, i) && Mirrors(code, blocks, stack, i)
    {
      TopIsBlock(code, blocks, stack, i);
      BoundaryStep(code, i);
      if code[i] == '{' {
        var parent := if stack != [] then Some(stack[|stack| - 1]) else None;
        var b := Block(i, n, code[boundary..i], parent, |blocks|);
        Opened(code, blocks, stack, i, b);
        blocks := blocks + [b];
        stack := stack + [b.index];
        boundary := i + 1;
      } else if code[i] == '}' {
        if stack != [] {
          var top := stack[|stack| - 1];
          ClosedBy(code, blocks, stack, i);
          blocks := blocks[top := blocks[top].(close := i)];
          stack := stack[..|stack| - 1];
        } else {
          Unmoved(code, blocks, stack, i);
        }
        boundary := i + 1;
      } else {
        Unmoved(code, blocks, stack, i);
        if code[i] == ';' {
          boundary := i + 1;
        }
      }
      i := i + 1;
    }
  }

  // -- one step of the parser

  lemma OkStep(code: string, b: Block, i: nat)
    requires i < |code| && BlockOk(code, b, i)
    requires b.open in OpenAt(code, i + 1) <==> b.close > i
    ensures BlockOk(code, b, i + 1)
  {
    hide OpenAt;
    forall off | 0 <= off <= i + 1 ensures b.open in OpenAt(code, off) <==> b.open < off <= b.close {
      if off <= i { assert b.open in OpenAt(code, off) <==> b.open < off <= b.close; }
    }
  }

  /** A block that the step neither opens nor closes. */
  lemma Untouched(code: string, b: Block, i: nat)
    requires i < |code| && BlockOk(code, b, i)
    requires b.open in OpenAt(code, i + 1) <==> b.open in OpenAt(code, i)
    ensures BlockOk(code, b, i + 1)
  {
    hide OpenAt;
    assert b.open in OpenAt(code, i) <==> b.open < i <= b.close;
    OkStep(code, b, i);
  }

  lemma ListedStep(code: string, blocks: seq<Block>, after: seq<Block>, i: nat)
    requires i < |code| && Listed(code, blocks, i) && code[i] != '{' && |after| == |blocks|
    requires forall k :: 0 <= k < |blocks| ==> after[k].open == blocks[k].open && after[k].index == blocks[k].index
    ensures Listed(code, after, i + 1)
  {
    forall p | 0 <= p < i + 1 && code[p] == '{' ensures exists k :: 0 <= k < |after| && after[k].open == p {
      var k :| 0 <= k < |blocks| && blocks[k].open == p;
      assert after[k].open == p;
    }
  }

  lemma Unmoved(code: string, blocks: seq<Block>, stack: seq<nat>, i: nat)
    requires i < |code| && Describes(code, blocks, i) && Mirrors(code, blocks, stack, i)
    requires code[i] != '{' && (code[i] == '}' ==> stack == [])
    ensures Describes(code, blocks, i + 1) && Mirrors(code, blocks, stack, i + 1)
  {
    assert OpenAt(code, i + 1) == OpenAt(code, i);
    hide OpenAt, BlockOk, Listed, Parented;
    ListedStep(code, blocks, blocks, i);
    forall k | 0 <= k < |blocks| ensures BlockOk(code, blocks[k], i + 1) {
      Untouched(code, blocks[k], i);
    }
  }

  lemma ParentStays(code: string, blocks: seq<Block>, more: seq<Block>, b: Block)
    requires b.open < |code| && Parented(code, blocks, b)
    requires |blocks| <= |more| && forall k :: 0 <= k < |blocks| ==> more[k].open == blocks[k].open
    ensures Parented(code, more, b)
  {
  }

  lemma NewBlockOk(code: string, i: nat, b: Block)
    requires i < |code| && code[i] == '{' && b.open == i && b.close == |code|
    requires b.header == code[Boundary(code, i)..i]
    ensures BlockOk(code, b, i + 1)
  {
    forall off | 0 <= off <= i + 1 ensures i in OpenAt(code, off) <==> i < off <= b.close {
      OpenAscends(code, off);
    }
  }

  lemma MirrorsPush(code: string, blocks: seq<Block>, stack: seq<nat>, i: nat, b: Block)
    requires i < |code| && code[i] == '{' && Mirrors(code, blocks, stack, i)
    requires b.open == i && b.close == |code|
    ensures Mirrors(code, blocks + [b], stack + [|blocks|], i + 1)
  {
    assert OpenAt(code, i + 1) == OpenAt(code, i) + [i];
  }

  lemma Opened(code: string, blocks: seq<Block>, stack: seq<nat>, i: nat, b: Block)
    requires i < |code| && Describes(code, blocks, i) && Mirrors(code, blocks, stack, i)
    requires code[i] == '{'
    requires b == Block(i, |code|, code[Boundary(code, i)..i],
                        if stack != [] then Some(stack[|stack| - 1]) else None, |blocks|)
    ensures Describes(code, blocks + [b], i + 1) && Mirrors(code, blocks + [b], stack + [|blocks|], i + 1)
  {
    hide OpenAt, BlockOk, Listed, Parented, Boundary, Mirrors;
    var more := blocks + [b];
    MirrorsPush(code, blocks, stack, i, b);
    NewBlockOk(code, i, b);
    NewParent(code, blocks, stack, i, b);
    forall k | 0 <= k < |blocks|
      ensures blocks[k].open < i
      ensures BlockOk(code, blocks[k], i + 1) && Parented(code, more, blocks[k])
    {
      OpensBefore(code, blocks[k], i);
      StaysOpen(code, i, blocks[k].open);
      Untouched(code, blocks[k], i);
      ParentStays(code, blocks, more, blocks[k]);
    }
    ListedMore(code, blocks, b, i);
  }

  lemma StaysOpen(code: string, i: nat, p: nat)
    requires i < |code| && code[i] == '{' && p < i
    ensures p in OpenAt(code, i + 1) <==> p in OpenAt(code, i)
  {
    assert OpenAt(code, i + 1) == OpenAt(code, i) + [i];
  }

  lemma NewParent(code: string, blocks: seq<Block>, stack: seq<nat>, i: nat, b: Block)
    requires i < |code| && Mirrors(code, blocks, stack, i) && b.open == i
    requires b.parent == if stack != [] then Some(stack[|stack| - 1]) else None
    ensures Parented(code, blocks + [b], b)
  {
  }

  lemma OpensBefore(code: string, b: Block, upto: nat)
    requires upto <= |code| && BlockOk(code, b, upto)
    ensures b.open < upto
  {
  }

  lemma ListedMore(code: string, blocks: seq<Block>, b: Block, i: nat)
    requires i < |code| && Listed(code, blocks, i) && code[i] == '{'
    requires b.open == i && b.index == |blocks|
    requires forall k :: 0 <= k < |blocks| ==> blocks[k].open < i
    ensures Listed(code, blocks + [b], i + 1)
  {
    var more := blocks + [b];
    assert more[|blocks|].open == i;
    forall p | 0 <= p < i + 1 && code[p] == '{' ensures exists k :: 0 <= k < |more| && more[k].open == p {
      if p < i {
        var k :| 0 <= k < |blocks| && blocks[k].open == p;
        assert more[k].open == p;
      }
    }
  }

  lemma ClosedBlock(code: string, blocks: seq<Block>, after: seq<Block>, top: nat, i: nat, k: nat)
    requires i < |code| && Describes(code, blocks, i) && code[i] == '}' && top < |blocks| && k < |blocks|
    requires after == blocks[top := blocks[top].(close := i)] && blocks[top].close == |code|
    requires OpenAt(code, i) != [] && OpenAt(code, i)[|OpenAt(code, i)| - 1] == blocks[top].open
    ensures BlockOk(code, after[k], i + 1) && Parented(code, after, after[k])
  {
    hide OpenAt, BlockOk, Parented, Listed;
    OpensBefore(code, blocks[k], i);
    ParentStays(code, blocks, after, blocks[k]);
    if k == top {
      JustClosed(code, blocks[top], i);
      SameParent(code, after, blocks[top], after[top]);
    } else {
      Distinct(code, blocks, i);
      StaysWithoutTop(code, i, blocks[k].open);
      Untouched(code, blocks[k], i);
    }
  }

  /** The `}` at `i` closes the innermost open block. */
  lemma ClosedBy(code: string, blocks: seq<Block>, stack: seq<nat>, i: nat)
    requires i < |code| && Describes(code, blocks, i) && Mirrors(code, blocks, stack, i)
    requires code[i] == '}' && stack != []
    ensures var top := stack[|stack| - 1];
            var after := blocks[top := blocks[top].(close := i)];
            Describes(code, after, i + 1) && Mirrors(code, after, stack[..|stack| - 1], i + 1)
  {
    hide OpenAt, BlockOk, Parented, Listed;
    var m := |stack| - 1;
    var top := stack[m];
    var after := blocks[top := blocks[top].(close := i)];
    MirrorsPop(code, blocks, stack, i);
    assert OpenAt(code, i) != [] && OpenAt(code, i)[m] == blocks[top].open;
    hide Mirrors;
    ListedStep(code, blocks, after, i);
    forall k | 0 <= k < |after|
      ensures after[k].open < |code| && BlockOk(code, after[k], i + 1) && Parented(code, after, after[k])
    {
      OpensBefore(code, blocks[k], i);
      ClosedBlock(code, blocks, after, top, i, k);
    }
  }

  lemma Distinct(code: string, blocks: seq<Block>, i: nat)
    requires i <= |code| && Listed(code, blocks, i)
    ensures forall j, k :: 0 <= j < |blocks| && 0 <= k < |blocks| && j != k ==> blocks[j].open != blocks[k].open
  {
  }

  lemma StaysWithoutTop(code: string, i: nat, p: nat)
    requires i < |code| && code[i] == '}' && OpenAt(code, i) != []
    requires p != OpenAt(code, i)[|OpenAt(code, i)| - 1]
    ensures p in OpenAt(code, i + 1) <==> p in OpenAt(code, i)
  {
    var s := OpenAt(code, i);
    assert OpenAt(code, i + 1) == s[..|s| - 1];
    DropLast(s, p);
  }

  lemma SameParent(code: string, blocks: seq<Block>, b: Block, b': Block)
    requires b.open < |code| && Parented(code, blocks, b) && b'.open == b.open && b'.parent == b.parent
    ensures Parented(code, blocks, b')
  {
  }

  lemma OpenPop(code: string, i: nat)
    requires i < |code| && code[i] == '}' && OpenAt(code, i) != []
    ensures OpenAt(code, i + 1) == OpenAt(code, i)[..|OpenAt(code, i)| - 1]
  {
  }

  lemma MirrorsPop(code: string, blocks: seq<Block>, stack: seq<nat>, i: nat)
    requires i < |code| && code[i] == '}' && stack != [] && Mirrors(code, blocks, stack, i)
    ensures var m := |stack| - 1;
            Mirrors(code, blocks[stack[m] := blocks[stack[m]].(close := i)], stack[..m], i + 1)
  {
    hide OpenAt;
    var m := |stack| - 1;
    var s := OpenAt(code, i);
    OpenPop(code, i);
    OpenAscends(code, i);
    forall x | 0 <= x < m ensures stack[x] != stack[m] {
      assert s[x] < s[m];
    }
  }

  lemma DropLast(s: seq<nat>, p: nat)
    requires s != [] && p != s[|s| - 1]
    ensures p in s[..|s| - 1] <==> p in s
  {
    if p in s {
      var k :| 0 <= k < |s| && s[k] == p;
      assert s[..|s| - 1][k] == p;
    }
  }

  lemma JustClosed(code: string, b: Block, i: nat)
    requires i < |code| && code[i] == '}' && BlockOk(code, b, i) && b.close == |code|
    requires OpenAt(code, i) != [] && OpenAt(code, i)[|OpenAt(code, i)| - 1] == b.open
    ensures BlockOk(code, b.(close := i), i + 1)
  {
    hide OpenAt, Boundary;
    var s, b' := OpenAt(code, i), b.(close := i);
    OpenAscends(code, i);
    OpenPop(code, i);
    forall off | 0 <= off <= i + 1 ensures b.open in OpenAt(code, off) <==> b.open < off <= i {
      if off <= i { assert b.open in OpenAt(code, off) <==> b.open < off <= b.close; }
    }
  }

  // ---------------------------------------------------------------------------
  // Queries by offset
  // ---------------------------------------------------------------------------

  /** The blocks whose braces enclose `off`, in the order of the list. */
  function Chain(blocks: seq<Block>, off: nat): (r: seq<Block>) {
    if blocks == [] then []
    else
      var b := blocks[|blocks| - 1];
      Chain(blocks[..|blocks| - 1], off) + if b.open < off < b.close then [b] else []
  }

  /** The blocks whose parent is `b`. */
  function Children(blocks: seq<Block>, b: Block): (r: seq<Block>) {
    if blocks == [] then []
    else
      var c := blocks[|blocks| - 1];
      Children(blocks[..|blocks| - 1], b) + if c.parent == Some(b.index) then [c] else []
  }

  function Opens(blocks: seq<Block>): (r: seq<nat>)
    ensures |r| == |blocks| && forall k :: 0 <= k < |r| ==> r[k] == blocks[k].open
  {
    seq(|blocks|, k requires 0 <= k < |blocks| => blocks[k].open)
  }

  lemma {:induction false} ChainMembers(blocks: seq<Block>, off: nat, b: Block)
    ensures b in Chain(blocks, off) <==> b in blocks && b.open < off < b.close
  {
    if blocks != [] {
      var n := |blocks| - 1;
      ChainMembers(blocks[..n], off, b);
      assert blocks == blocks[..n] + [blocks[n]];
    }
  }

  lemma {:induction false} ChainAscends(blocks: seq<Block>, off: nat)
    requires forall j, k :: 0 <= j < k < |blocks| ==> blocks[j].open < blocks[k].open
    ensures var c := Chain(blocks, off); forall j, k :: 0 <= j < k < |c| ==> c[j].open < c[k].open
  {
    if blocks != [] {
      var n := |blocks| - 1;
      ChainAscends(blocks[..n], off);
      var c := Chain(blocks[..n], off);
      forall j | 0 <= j < |c| ensures c[j].open < blocks[n].open {
        ChainMembers(blocks[..n], off, c[j]);
      }
    }
  }

  lemma HasMember(t: seq<nat>)
    requires t != []
    ensures exists p :: p in t
  {
    assert t[0] in t;
  }

  lemma {:induction false} SameAscending(s: seq<nat>, t: seq<nat>)
    requires Ascending(s) && Ascending(t) && forall p :: p in s <==> p in t
    ensures s == t
  {
    if s == [] {
      if t != [] { HasMember(t); }
    } else {
      assert s[|s| - 1] in t;
      var m, n := |s| - 1, |t| - 1;
      assert t[n] in s && s[m] in s;
      assert s[m] == t[n];
      forall p ensures p in s[..m] <==> p in t[..n] {
        if p in s[..m] { assert p in s && p < s[m]; }
        if p in t[..n] { assert p in t && p < t[n]; }
      }
      SameAscending(s[..m], t[..n]);
    }
  }

  /** The stack the blocks around `off` are compared with: a closing brace is already outside the
      block it closes. */
  function StackAt(code: string, off: nat): (r: seq<nat>)
    requires off < |code|
  {
    if code[off] == '}' then OpenAt(code, off + 1) else OpenAt(code, off)
  }

  lemma EnclosesIff(code: string, b: Block, off: nat)
    requires off < |code| && BlockOk(code, b, |code|)
    ensures b.open < off < b.close <==> b.open in StackAt(code, off)
  {
    hide OpenAt, Boundary;
    assert b.open in OpenAt(code, off) <==> b.open < off <= b.close;
    assert b.open in OpenAt(code, off + 1) <==> b.open < off + 1 <= b.close;
  }

  lemma StackFacts(code: string, off: nat)
    requires off < |code|
    ensures Ascending(StackAt(code, off))
    ensures forall p :: p in StackAt(code, off) ==> p < |code| && code[p] == '{'
  {
    OpenAscends(code, off);
    OpenAscends(code, off + 1);
  }

  /** `chain(off)` is the stack of braces open at `off`, outermost first, for every text, balanced or
      not, and every offset. */
  lemma ChainIsStack(code: string, blocks: seq<Block>, off: nat)
    requires Describes(code, blocks, |code|) && off < |code|
    ensures Opens(Chain(blocks, off)) == StackAt(code, off)
  {
    hide OpenAt, BlockOk, Parented, StackAt, Chain;
    var chain := Chain(blocks, off);
    StackFacts(code, off);
    ChainAscends(blocks, off);
    forall p ensures p in Opens(chain) <==> p in StackAt(code, off) {
      if p in Opens(chain) {
        var j :| 0 <= j < |chain| && chain[j].open == p;
        ChainMembers(blocks, off, chain[j]);
        var k :| 0 <= k < |blocks| && blocks[k] == chain[j];
        EnclosesIff(code, blocks[k], off);
      }
      if p in StackAt(code, off) {
        var k :| 0 <= k < |blocks| && blocks[k].open == p;
        EnclosesIff(code, blocks[k], off);
        ChainMembers(blocks, off, blocks[k]);
        var j :| 0 <= j < |chain| && chain[j] == blocks[k];
        assert Opens(chain)[j] == p;
      }
    }
    SameAscending(Opens(chain), StackAt(code, off));
  }

  /** Below any open brace the stack is what it was where that brace stands. */
  lemma {:induction false} StackPrefix(code: string, off: nat, m: nat)
    requires off <= |code| && m < |OpenAt(code, off)|
    ensures OpenAt(code, off)[m] < off
    ensures OpenAt(code, OpenAt(code, off)[m]) == OpenAt(code, off)[..m]
    decreases off
  {
    var s := OpenAt(code, off - 1);
    var t := OpenAt(code, off);
    if m < |s| {
      StackPrefix(code, off - 1, m);
      assert t[m] == s[m] && t[..m] == s[..m];
    } else {
      assert t[..m] == s;
    }
  }

  /** In every chain each block's parent is its predecessor; the outermost has none. */
  lemma ParentIsPredecessor(code: string, blocks: seq<Block>, off: nat, m: nat)
    requires Describes(code, blocks, |code|) && off < |code| && m < |Chain(blocks, off)|
    ensures var chain := Chain(blocks, off);
            chain[m].parent == if m == 0 then None else Some(chain[m - 1].index)
  {
    hide OpenAt, BlockOk, Chain, Boundary, Parented;
    var chain := Chain(blocks, off);
    var x := if code[off] == '}' then off + 1 else off;
    ChainIsStack(code, blocks, off);
    StackPrefix(code, x, m);
    var k := ChainIndex(blocks, off, m);
    if m == 0 {
      ParentAt(code, blocks, k, OpenAt(code, x)[..m], 0);
    } else {
      var j := ChainIndex(blocks, off, m - 1);
      ParentAt(code, blocks, k, OpenAt(code, x)[..m], j);
    }
  }

  lemma ChainIndex(blocks: seq<Block>, off: nat, m: nat) returns (k: nat)
    requires m < |Chain(blocks, off)|
    ensures k < |blocks| && blocks[k] == Chain(blocks, off)[m]
  {
    ChainMembers(blocks, off, Chain(blocks, off)[m]);
    k :| k < |blocks| && blocks[k] == Chain(blocks, off)[m];
  }

  lemma DescribedParent(code: string, blocks: seq<Block>, k: nat)
    requires Describes(code, blocks, |code|) && k < |blocks| && blocks[k].open < |code|
    ensures Parented(code, blocks, blocks[k])
  {
    hide BlockOk, Parented, Listed;
  }

  lemma DescribedOnce(code: string, blocks: seq<Block>, j: nat, k: nat)
    requires Describes(code, blocks, |code|) && j < |blocks| && k < |blocks| && blocks[j].open == blocks[k].open
    ensures j == k == blocks[j].index
  {
    hide BlockOk, Parented;
  }

  lemma ParentAt(code: string, blocks: seq<Block>, k: nat, below: seq<nat>, j: nat)
    requires Describes(code, blocks, |code|) && k < |blocks| && j < |blocks|
    requires blocks[k].open < |code| && OpenAt(code, blocks[k].open) == below
    requires below != [] ==> blocks[j].open == below[|below| - 1]
    ensures blocks[k].parent == if below == [] then None else Some(blocks[j].index)
  {
    hide OpenAt, Describes;
    DescribedParent(code, blocks, k);
    if below != [] {
      DescribedOnce(code, blocks, j, blocks[k].parent.value);
    }
  }

  lemma ClosesLast(code: string, a: Block, b: Block)
    requires BlockOk(code, a, |code|) && BlockOk(code, b, |code|) && a.open < b.open
    requires a.close < |code|
    ensures a.close < b.open || b.close < a.close
  {
    var s := OpenAt(code, a.close);
    OpenAscends(code, a.close);
    assert s[|s| - 1] == a.open && b.open !in s by {
      assert forall m :: 0 <= m < |s| ==> s[m] <= s[|s| - 1];
    }
    assert b.open in s <==> b.open < a.close <= b.close;
  }

  /** Any two blocks are nested or disjoint; both can end together only at the end of the text. */
  lemma NestedOrDisjoint(code: string, blocks: seq<Block>, j: nat, k: nat)
    requires Describes(code, blocks, |code|) && j < k < |blocks|
    ensures var a, b := blocks[j], blocks[k];
            a.open < b.open && (a.close < b.open || b.close < a.close || b.close == a.close == |code|)
  {
    var a, b := blocks[j], blocks[k];
    assert BlockOk(code, a, |code|) && BlockOk(code, b, |code|);
    if a.close < |code| {
      ClosesLast(code, a, b);
    }
  }

  lemma {:induction false} ChildrenMembers(blocks: seq<Block>, b: Block, c: Block)
    ensures c in Children(blocks, b) <==> c in blocks && c.parent == Some(b.index)
  {
    if blocks != [] {
      var n := |blocks| - 1;
      ChildrenMembers(blocks[..n], b, c);
      assert blocks == blocks[..n] + [blocks[n]];
    }
  }

  /** `children(b)` are the blocks directly inside `b`: those that open where `b` is the innermost
      open block. */
  lemma ChildrenAreDirect(code: string, blocks: seq<Block>, j: nat, k: nat)
    requires Describes(code, blocks, |code|) && j < |blocks| && k < |blocks|
    ensures blocks[k] in Children(blocks, blocks[j]) <==>
            var s := OpenAt(code, blocks[k].open); s != [] && s[|s| - 1] == blocks[j].open
  {
    hide OpenAt, BlockOk, Children, Boundary;
    ChildrenMembers(blocks, blocks[j], blocks[k]);
    OpensBefore(code, blocks[k], |code|);
    assert Parented(code, blocks, blocks[k]);
  }

  // ---------------------------------------------------------------------------
  // The two other ways the gate reads the same braces and lines
  // ---------------------------------------------------------------------------

  function FindOpen(code: string, start: nat): (i: nat)
    requires start <= |code|
    ensures start <= i <= |code| && (i < |code| ==> code[i] == '{')
    ensures forall k :: start <= k < i ==> code[k] != '{'
    decreases |code| - start
  {
    if start < |code| && code[start] != '{' then FindOpen(code, start + 1) else start
  }

  /** Past the brace that brings `depth` back to zero, or the end. */
  function DepthEnd(code: string, i: nat, depth: int): (e: nat)
    requires i <= |code|
    ensures e <= |code|
    decreases |code| - i
  {
    if i == |code| then i
    else if code[i] == '{' then DepthEnd(code, i + 1, depth + 1)
    else if code[i] == '}' then (if depth - 1 == 0 then i + 1 else DepthEnd(code, i + 1, depth - 1))
    else DepthEnd(code, i + 1, depth)
  }

  method BraceSpan(code: string, start: nat) returns (e: nat)
    requires start <= |code|
    ensures e == DepthEnd(code, FindOpen(code, start), 0)
  {
    var i := FindOpen(code, start);
    if i == |code| {
      return |code|;
    }
    var depth := 0;
    ghost var first := i;
    while i < |code|
      invariant first <= i <= |code| && DepthEnd(code, i, depth) == DepthEnd(code, first, 0)
    {
      if code[i] == '{' {
        depth := depth + 1;
      } else if code[i] == '}' {
        depth := depth - 1;
        if depth == 0 {
          return i + 1;
        }
      }
      i := i + 1;
    }
    return |code|;
  }

  /** One character further, a block that is open at `i` is closed there or still in its place. */
  lemma StillOpen(code: string, b: Block, i: nat, m: nat)
    requires BlockOk(code, b, |code|) && b.open < i < |code| && i <= b.close
    requires m < |OpenAt(code, i)| && OpenAt(code, i)[m] == b.open
    ensures var s, t := OpenAt(code, i), OpenAt(code, i + 1);
            && |t| == |s| + (if code[i] == '{' then 1 else if code[i] == '}' then -1 else 0)
            && if code[i] == '}' && m == |s| - 1 then b.close == i
               else i < b.close && m < |t| && t[m] == b.open
  {
    hide Boundary, Closes;
    var s, t := OpenAt(code, i), OpenAt(code, i + 1);
    assert b.open in t <==> b.open < i + 1 <= b.close;
    OpenAscends(code, i);
    if code[i] == '}' && m == |s| - 1 {
      assert t == s[..m];
      assert b.open !in t;
    } else {
      assert t[m] == b.open;
    }
  }

  lemma {:induction false} SpanFrom(code: string, b: Block, i: nat, m: nat)
    requires BlockOk(code, b, |code|) && b.open < i <= |code| && i <= b.close
    requires m < |OpenAt(code, i)| && OpenAt(code, i)[m] == b.open
    ensures DepthEnd(code, i, |OpenAt(code, i)| - m) == if b.close < |code| then b.close + 1 else |code|
    decreases |code| - i
  {
    hide OpenAt, Boundary, Closes, Tracks;
    if i < |code| {
      StillOpen(code, b, i, m);
      if code[i] != '}' || m != |OpenAt(code, i)| - 1 {
        SpanFrom(code, b, i + 1, m);
      }
    }
  }

  lemma SpanOf(code: string, b: Block)
    requires BlockOk(code, b, |code|)
    ensures DepthEnd(code, FindOpen(code, b.open), 0) == if b.close < |code| then b.close + 1 else |code|
  {
    hide Boundary, Closes, Tracks;
    var s := OpenAt(code, b.open);
    assert OpenAt(code, b.open + 1) == s + [b.open];
    hide OpenAt;
    SpanFrom(code, b, b.open + 1, |s|);
    assert FindOpen(code, b.open) == b.open;
  }

  /** Counting braces from a block's opening one finds the very end the parser recorded. */
  lemma BraceSpanIsBlock(code: string, blocks: seq<Block>, k: nat)
    requires Describes(code, blocks, |code|) && k < |blocks|
    ensures var b := blocks[k];
            DepthEnd(code, FindOpen(code, b.open), 0) == if b.close < |code| then b.close + 1 else |code|
  {
    var b := blocks[k];
    assert BlockOk(code, b, |code|);
    SpanOf(code, b);
  }

  ghost predicate FirstFrom(code: string, blocks: seq<Block>, start: nat, k: nat) {
    k < |blocks| && start <= blocks[k].open < |code| && forall p :: start <= p < blocks[k].open ==> code[p] != '{'
  }

  /** From any offset: the end of the first block that opens there or later, or of the text where none does. */
  lemma BraceSpanIsFirst(code: string, blocks: seq<Block>, start: nat)
    requires Describes(code, blocks, |code|) && start <= |code|
    ensures var e := DepthEnd(code, FindOpen(code, start), 0);
            if exists p :: start <= p < |code| && code[p] == '{' then
              exists k: nat :: FirstFrom(code, blocks, start, k) &&
                e == if blocks[k].close < |code| then blocks[k].close + 1 else |code|
            else e == |code|
  {
    hide OpenAt, BlockOk, Parented, DepthEnd;
    var i := FindOpen(code, start);
    if i == |code| {
      NothingDeeper(code);
    } else {
      var k :| 0 <= k < |blocks| && blocks[k].open == i;
      BraceSpanIsBlock(code, blocks, k);
      OpensHere(code, i);
      assert FirstFrom(code, blocks, start, k);
    }
  }

  lemma NothingDeeper(code: string)
    ensures DepthEnd(code, |code|, 0) == |code|
  {
  }

  lemma OpensHere(code: string, i: nat)
    requires i < |code| && code[i] == '{'
    ensures FindOpen(code, i) == i
  {
  }

  /** A block's header: everything since the last brace or semicolon, and nothing of those. */
  lemma HeaderIs(code: string, blocks: seq<Block>, k: nat) returns (from: nat)
    requires Describes(code, blocks, |code|) && k < |blocks|
    ensures from <= blocks[k].open < |code| && blocks[k].header == code[from..blocks[k].open]
    ensures from == 0 || code[from - 1] in ['{', '}', ';']
    ensures forall c :: c in blocks[k].header ==> c !in ['{', '}', ';']
  {
    hide OpenAt, Parented, Closes, Tracks, Listed;
    assert BlockOk(code, blocks[k], |code|);
    from := Boundary(code, blocks[k].open);
    hide Boundary;
    forall c | c in blocks[k].header ensures c !in ['{', '}', ';'] {
      var j :| 0 <= j < |blocks[k].header| && blocks[k].header[j] == c;
      assert !EndsHeader(code[from + j]);
    }
  }

  function Newlines(src: string, off: nat): (n: nat)
    requires off <= |src|
  {
    if off == 0 then 0 else Newlines(src, off - 1) + if src[off - 1] == '\n' then 1 else 0
  }

  /** 0 and every offset just after a newline, among the first `upto` characters. */
  function LineStarts(src: string, upto: nat): (r: seq<nat>)
    requires upto <= |src|
    ensures |r| >= 1
  {
    if upto == 0 then [0]
    else LineStarts(src, upto - 1) + if src[upto - 1] == '\n' then [upto] else []
  }

  lemma {:induction false} StartsCount(src: string, upto: nat, off: nat)
    requires off <= upto <= |src|
    ensures var starts := LineStarts(src, upto);
            && |starts| == Newlines(src, upto) + 1
            && Newlines(src, off) < |starts|
            && (forall k :: 0 <= k < |starts| ==> (starts[k] <= off <==> k <= Newlines(src, off)))
    decreases upto
  {
    if upto > 0 {
      if off < upto {
        StartsCount(src, upto - 1, off);
      } else {
        StartsCount(src, upto - 1, upto - 1);
        StartsBefore(src, upto - 1);
      }
    }
  }

  lemma {:induction false} StartsBefore(src: string, upto: nat)
    requires upto <= |src|
    ensures forall k :: 0 <= k < |LineStarts(src, upto)| ==> LineStarts(src, upto)[k] <= upto
  {
    if upto > 0 { StartsBefore(src, upto - 1); }
  }

  /** The binary search over line starts returns one more than the newlines before the offset. */
  method LineOf(src: string, starts: seq<nat>, off: nat) returns (line: nat)
    requires off <= |src| && starts == LineStarts(src, |src|)
    ensures line == Newlines(src, off) + 1
  {
    StartsCount(src, |src|, off);
    ghost var want := Newlines(src, off);
    hide Newlines, LineStarts;
    var lo, hi := 0, |starts| - 1;
    while lo < hi
      invariant 0 <= lo <= want <= hi < |starts|
    {
      var mid := (lo + hi + 1) / 2;
      if starts[mid] <= off {
        lo := mid;
      } else {
        hi := mid - 1;
      }
    }
    return lo + 1;
  }
}
