/** compile and step of head_m88k/regexp.h together: what a search with a compiled pattern finds. */
module EdSearch {
  import opened Wrappers
  import opened EdProgram
  import opened EdParse
  import opened EdCompile
  import opened EdMatcher
  import opened EdPattern
  import opened EdWriting
  import opened EdGreedy
  import opened EdGroups

  // --- every accepted pattern ---

  /** The test of this instruction, if it has one, does not accept the NUL. */
  predicate NulFree(x: Item) {
    var s := SingleOf(x.op - x.op % 4, x.arg);
    s.Some? ==> !Fits(s.value, 0)
  }

  ghost predicate AllNulFree(items: seq<Item>) {
    forall k :: 0 <= k < |items| ==> NulFree(items[k])
  }

  lemma NulFreeStops(x: Item)
    requires NulFree(x) && Meaning(x).Some?
    ensures StopsAtNul(Meaning(x).value)
  {
    hide Fits;
  }

  lemma {:induction false} NulFreeSafe(items: seq<Item>)
    requires AllNulFree(items) && Meaningful(items)
    ensures Safe(Pieces(items))
  {
    hide NulFree, Meaning, StopsAtNul;
    if items != [] {
      assert NulFree(items[0]);
      NulFreeStops(items[0]);
      forall k | 0 <= k < |items[1..]| ensures NulFree(items[1..][k]) { assert NulFree(items[k + 1]); }
      NulFreeSafe(items[1..]);
      assert Pieces(items) == [Meaning(items[0]).value] + Pieces(items[1..]);
    }
  }

  lemma LiteralNulFree(c: int)
    requires c != 0
    ensures NulFree(Item(CCHR, [c], []))
  {
  }

  lemma ClassNulFree(neg: bool, s: set<int>, wide: bool)
    requires 0 !in s && (!wide ==> Narrow(s))
    ensures NulFree(ClassItem(neg, s, wide))
  {
    hide Bitmap;
    ClassMeans(neg, s, wide, 0);
  }

  lemma RepeatNulFree(x: Item, op: int, tail: seq<int>)
    requires NulFree(x) && op - op % 4 == x.op - x.op % 4
    ensures NulFree(Item(op, x.arg, tail))
  {
    hide Fits;
  }

  lemma NulFreeAdd(items: seq<Item>, x: Item)
    requires AllNulFree(items) && NulFree(x)
    ensures AllNulFree(items + [x]) && (items != [] ==> AllNulFree(SetLast(items, x)))
  {
    hide NulFree;
  }

  /** No turn of compile adds a test that accepts the NUL, as long as it reads no NUL itself. */
  lemma EscapeNulFree(pat: seq<int>, i: int, st: State)
    requires 0 <= i < |pat| - 1 && IsPattern(pat) && AllNulFree(st.items)
    ensures var m := Escape(pat, i, st); m.Go? ==> AllNulFree(m.st.items)
  {
    hide NulFree, Bounds, AllNulFree;
    var c := At(pat, i);
    LiteralNulFree(if c == SMALL_N then NEWLINE else c);
    ShortNulFree(CBRA, st.nbra);
    ShortNulFree(CBACK, c - ONE);
    NulFreeAdd(st.items, Item(CCHR, [if c == SMALL_N then NEWLINE else c], []));
    NulFreeAdd(st.items, Item(CBRA, [st.nbra], []));
    NulFreeAdd(st.items, Item(CBACK, [c - ONE], []));
    if st.open != [] {
      var g := st.open[|st.open| - 1];
      ShortNulFree(CKET, g);
      NulFreeAdd(st.items, Item(CKET, [g], []));
    }
    if st.items != [] {
      LastNulFree(st.items);
      var x, b := Last(st.items), Bounds(pat, i + 1);
      if b.Interval? {
        RepeatNulFree(x, WithRange(x.op), x.tail + [b.low, b.high]);
        NulFreeAdd(st.items, Item(WithRange(x.op), x.arg, x.tail + [b.low, b.high]));
      }
    }
  }

  lemma ShortNulFree(op: int, g: int)
    requires op == CBRA || op == CKET || op == CBACK
    ensures NulFree(Item(op, [g], []))
  {
  }

  lemma PlainNulFree()
    ensures NulFree(Item(CDOT, [], [])) && NulFree(Item(CDOL, [], []))
  {
  }

  lemma LastNulFree(items: seq<Item>)
    requires items != [] && AllNulFree(items)
    ensures NulFree(Last(items))
  {
  }

  lemma BracketNulFree(pat: seq<int>, i: int, st: State, eof: int, sed: bool, endbuf: int)
    requires 0 <= i && IsPattern(pat) && AllNulFree(st.items) && At(pat, i) == LBRACKET && eof != LBRACKET
    ensures var m := Next(pat, i, st, eof, sed, endbuf); m.Go? ==> AllNulFree(m.st.items)
  {
    hide NulFree, AllNulFree, Members, ClassItem, Escape, Flatten;
    var neg := At(pat, i + 1) == CARET;
    var k := if neg then i + 2 else i + 1;
    NoNulMember(pat, k, 0, {}, false, Size(st) + 33 < endbuf);
    NarrowMembers(pat, k, 0, {}, false, Size(st) + 33 < endbuf);
    var r := Members(pat, k, 0, {}, false, Size(st) + 33 < endbuf);
    if r.ClassRead? {
      ClassNulFree(neg, r.members, r.wide);
      NulFreeAdd(st.items, ClassItem(neg, r.members, r.wide));
    }
  }

  lemma StarBase(op: int)
    ensures WithStar(op) - WithStar(op) % 4 == op - op % 4
  {
  }

  lemma StarNulFree(items: seq<Item>)
    requires items != [] && AllNulFree(items)
    ensures AllNulFree(SetLast(items, Last(items).(op := WithStar(Last(items).op))))
  {
    hide NulFree, AllNulFree, SetLast, Last, WithStar;
    LastNulFree(items);
    var x := Last(items);
    StarBase(x.op);
    RepeatNulFree(x, WithStar(x.op), x.tail);
    NulFreeAdd(items, x.(op := WithStar(x.op)));
  }

  lemma NextNulFree(pat: seq<int>, i: int, st: State, eof: int, sed: bool, endbuf: int)
    requires 0 <= i && IsPattern(pat) && AllNulFree(st.items)
    ensures var m := Next(pat, i, st, eof, sed, endbuf); m.Go? && m.next < |pat| ==> AllNulFree(m.st.items)
  {
    var c := At(pat, i);
    if c == LBRACKET && eof != LBRACKET {
      BracketNulFree(pat, i, st, eof, sed, endbuf);
    } else {
      OtherNulFree(pat, i, st, eof, sed, endbuf);
    }
  }

  lemma OtherNulFree(pat: seq<int>, i: int, st: State, eof: int, sed: bool, endbuf: int)
    requires 0 <= i && IsPattern(pat) && AllNulFree(st.items) && (At(pat, i) != LBRACKET || eof == LBRACKET)
    ensures var m := Next(pat, i, st, eof, sed, endbuf); m.Go? && m.next < |pat| ==> AllNulFree(m.st.items)
  {
    hide NulFree, AllNulFree, Members, ClassItem, Escape, Flatten;
    var c := At(pat, i);
    var m := Next(pat, i, st, eof, sed, endbuf);
    if m.Go? && m.next < |pat| {
      if c == ASTERISK {
        if st.items != [] { StarNulFree(st.items); }
        LiteralNulFree(ASTERISK);
        NulFreeAdd(st.items, Item(CCHR, [ASTERISK], []));
      } else if c == BACKSLASH {
        EscapeNulFree(pat, i + 1, st);
      } else {
        PlainNulFree();
        NulFreeAdd(st.items, Item(CDOT, [], []));
        NulFreeAdd(st.items, Item(CDOL, [], []));
        LiteralNulFree(c);
        NulFreeAdd(st.items, Item(CCHR, [c], []));
      }
    }
  }

  /** Once compile has read past the end of its pattern, it cannot come back. */
  lemma {:induction false} ParseNulFree(pat: seq<int>, i: int, st: State, circf: bool, eof: int, sed: bool, endbuf: int)
    requires 0 <= i && IsPattern(pat) && (i < |pat| ==> AllNulFree(st.items))
    ensures var r := Parse(pat, i, st, circf, eof, sed, endbuf);
            r.Compiled? && r.next <= |pat| ==> AllNulFree(r.items)
    ensures var r := Parse(pat, i, st, circf, eof, sed, endbuf);
            r.Compiled? ==> r.next >= i && (i >= |pat| ==> r.next > |pat|)
    decreases if i < |pat| then |pat| - i else 0, endbuf - Size(st)
  {
    hide AllNulFree, Next, Flatten;
    NextProgress(pat, i, st, eof, sed, endbuf);
    DoneAt(pat, i, st, eof, sed, endbuf);
    var m := Next(pat, i, st, eof, sed, endbuf);
    if m.Go? {
      if i < |pat| { NextNulFree(pat, i, st, eof, sed, endbuf); }
      ParseNulFree(pat, m.next, m.st, circf, eof, sed, endbuf);
    }
  }

  lemma DoneAt(pat: seq<int>, i: int, st: State, eof: int, sed: bool, endbuf: int)
    requires 0 <= i
    ensures var m := Next(pat, i, st, eof, sed, endbuf); m.Done? ==> i <= m.next && (i >= |pat| ==> m.next > i)
  {
    hide Members, ClassItem, Escape, Flatten;
  }

  /** Whatever compile accepts without reading past its pattern, the matcher stops at the end of the text:
      every test rejects the NUL.  (Repeated back-references and intervals on groups have no meaning here.) */
  lemma CompiledSafe(pat: seq<int>, eof: int, sed: bool, endbuf: int, blank: bool)
    requires IsPattern(pat)
    ensures var r := Compile(pat, eof, sed, endbuf, blank);
            r.Compiled? && r.next <= |pat| && Meaningful(r.items) ==> Safe(Pieces(r.items))
  {
    hide Parse, Pieces, Safe, Meaningful, NulFree;
    var c := At(pat, 0);
    ParseNulFree(pat, if c == CARET then 1 else 0, START, c == CARET, eof, sed, endbuf);
    var r := Compile(pat, eof, sed, endbuf, blank);
    if r.Compiled? && r.next <= |pat| && Meaningful(r.items) { NulFreeSafe(r.items); }
  }

  // --- compile, then step ---

  lemma Executable(buf: seq<int>, items: seq<Item>)
    requires Meaningful(items) && Safe(Pieces(items))
    requires |Flatten(items)| < |buf| && buf[..|Flatten(items)| + 1] == Flatten(items) + [CCEOF]
    ensures Runnable(buf, 0, items)
  {
    hide Flatten;
    var n := |Flatten(items)|;
    assert buf[0..n] == buf[..n + 1][..n];
    assert buf[n] == buf[..n + 1][n];
  }

  /** The matcher on a compiled pattern: it succeeds where the pattern denotes some prefix of the rest. */
  lemma SpelledGreedy(p: Pattern, t: seq<int>, x: Place)
    requires GoodPattern(p) && IsText(t) && 0 <= x.at <= |t|
    ensures Meaningful(Code(p.elems, p.dollar)) && Safe(Pieces(Code(p.elems, p.dollar)))
    ensures var g := Greedy(Pieces(Code(p.elems, p.dollar)), t, x);
            if g.Some? then Denotes(p.elems, p.dollar, t, x, g.value) else Nothing(p.elems, p.dollar, t, x)
  {
    hide Good, Meaningful, Safe, Pieces, Matches, Denotes, Greedy, Code;
    CodeSafe(p.elems, p.dollar, [], 0);
    var ps := Pieces(Code(p.elems, p.dollar));
    if Greedy(ps, t, x).Some? {
      GreedySound(ps, t, x);
      MatchesIffDenotes(p.elems, p.dollar, [], 0, t, x, Greedy(ps, t, x).value);
    } else {
      forall y ensures !Denotes(p.elems, p.dollar, t, x, y) {
        MatchesIffDenotes(p.elems, p.dollar, [], 0, t, x, y);
        if Matches(ps, t, x, y) { GreedyComplete(ps, t, x, y); }
      }
    }
  }

  /** What `step` promises, in terms of the pattern: the first place where it denotes a piece of the text,
      and of the pieces there the preferred one, with its groups. */
  ghost predicate Finds(p: Pattern, t: seq<int>, found: bool, loc1: int, loc2: int, before: Groups, after: Groups) {
    if found then
      && 0 <= loc1 < |t| && (p.anchored ==> loc1 == 0)
      && Denotes(p.elems, p.dollar, t, Place(loc1, before), Place(loc2, after))
      && Preferred(p.elems, p.dollar, t, Place(loc1, before), Place(loc2, after))
      && forall i :: 0 <= i < loc1 ==> Nothing(p.elems, p.dollar, t, Place(i, before))
    else
      forall i :: 0 <= i < (if p.anchored then 1 else |t|) ==> Nothing(p.elems, p.dollar, t, Place(i, before))
  }

  lemma StepFinds(p: Pattern, t: seq<int>, found: bool, loc1: int, loc2: int, before: Groups, after: Groups,
      ps: seq<Piece>)
    requires GoodPattern(p) && IsText(t) && Meaningful(Code(p.elems, p.dollar)) && ps == Pieces(Code(p.elems, p.dollar))
    requires IsLeast(ps, t, if p.anchored then 1 else |t|, found, loc1, loc2, before, after)
    ensures Finds(p, t, found, loc1, loc2, before, after)
  {
    hide Good, Meaningful, Pieces, Denotes, Greedy, Code, Preferred, Nothing;
    if found {
      SpelledGreedy(p, t, Place(loc1, before));
      GreedyIsPreferred(p, t, Place(loc1, before), Place(loc2, after));
    }
    var n := if found then loc1 else if p.anchored then 1 else |t|;
    forall i | 0 <= i < n ensures Nothing(p.elems, p.dollar, t, Place(i, before)) {
      assert Greedy(ps, t, Place(i, before)).None?;
      SpelledGreedy(p, t, Place(i, before));
    }
  }

  /** As sed and grep do it: compile a pattern, in whatever way it is written, and step through a text.  The
      search succeeds exactly when the pattern denotes a piece of the text (at its start, if anchored), starts
      at the first place where it does, and ends where the preferred piece ends; braslist and braelist then
      hold where its groups are. */
  method CompileAndStep(instring: seq<int>, eof: int, sed: bool, buf: array<int>, endbuf: int, text: seq<int>,
      ghost p: Pattern, ghost ways: seq<bool>, ghost newline: bool)
    returns (found: bool, loc1: int, loc2: int, groups: Groups)
    requires GoodPattern(p) && RefsClosed(p.elems, []) && GoodEof(eof)
    requires IsWriting(p, ways, eof) && (newline ==> !sed)
    requires IsPattern(instring) && Writing(p, ways, newline, eof) <= instring
    requires |Flatten(Code(p.elems, p.dollar))| + 33 < endbuf < buf.Length && IsText(text)
    modifies buf
    ensures Finds(p, text, found, loc1, loc2, BLANK, groups)
  {
    hide Good, Meaningful, Safe, Pieces, Denotes, Greedy, Code, Flatten, IsText, Runnable, Writing, GoodEof, Finds,
        Scoped, Nothing, RefsClosed, IsWriting;
    ghost var items := Code(p.elems, p.dollar);
    ghost var w := Writing(p, ways, newline, eof);
    ScopedIff(p.elems, p.dollar);
    CompileWritten(p, ways, newline, eof, sed, endbuf, buf[0] == 0, instring[|w|..]);
    assert w + instring[|w|..] == instring;
    var c := new Compiler(instring, eof, sed, buf, endbuf);
    var r := c.Compile();
    SpelledGreedy(p, text, Place(0, BLANK));
    Executable(buf[..], items);
    var m := new Matcher(text, buf[..]);
    found := m.Step(c.circf, items);
    loc1, loc2, groups := m.loc1, m.loc2, Groups(m.braslist[..], m.braelist[..]);
    StepFinds(p, text, found, loc1, loc2, BLANK, groups, Pieces(items));
  }
}
