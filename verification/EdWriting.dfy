/** All the ways of writing a pattern that head_m88k/regexp.h knows: which characters stand for themselves,
    with a backslash and without one, and that every way is compiled into the same instructions. */
module EdWriting {
  import opened Sequences
  import opened EdProgram
  import opened EdParse
  import opened EdPattern

  function Ord(c: char): int { c as int }

  predicate Digit19(c: int) { Ord('1') <= c <= Ord('9') }

  // --- one character ---

  /** There is nothing before that a `*` could repeat. */
  predicate NothingBefore(items: seq<Item>) {
    items == [] || Last(items).op == CBRA || Last(items).op == CKET
  }

  /** A character without a backslash stands for itself if and only if it is not the delimiter, a dot, a
      newline, a `[` or a backslash, has nothing to repeat if it is a `*`, and is not at the end if it is
      a `$`. */
  lemma PlainIff(pat: seq<int>, i: int, st: State, eof: int, sed: bool, endbuf: int)
    requires 0 <= i && Size(st) < endbuf
    ensures var c, d := At(pat, i), At(pat, i + 1);
            Next(pat, i, st, eof, sed, endbuf) == Go(i + 1, Literal(st, c)) <==>
            && c != eof && c != Ord('.') && c != Ord('\n') && c != Ord('[') && c != Ord('\\')
            && (c == Ord('*') ==> NothingBefore(st.items))
            && (c == Ord('$') ==> d != eof && d != Ord('\n'))
  {
    hide Flatten, Members, ClassItem, Escape;
    var c := At(pat, i);
    var x := Literal(st, c).items;
    assert x[|x| - 1] == Item(CCHR, [c], []);
    var dot := Add(st, Item(CDOT, [], [])).items;
    assert dot[|dot| - 1].op == CDOT;
    var end := Add(st, Item(CDOL, [], [])).items;
    assert end[|end| - 1].op == CDOL;
    if c == Ord('[') { ClassDiffers(pat, i, st, endbuf); }
  }

  lemma ClassDiffers(pat: seq<int>, i: int, st: State, endbuf: int)
    requires 0 <= i
    ensures forall neg: bool, r: ClassRead :: r.ClassRead? ==>
              Add(st, ClassItem(neg, r.members, r.wide)) != Literal(st, At(pat, i))
  {
    hide Bitmap;
    forall neg: bool, r: ClassRead | r.ClassRead?
      ensures Add(st, ClassItem(neg, r.members, r.wide)) != Literal(st, At(pat, i))
    {
      var a, b := Add(st, ClassItem(neg, r.members, r.wide)).items, Literal(st, At(pat, i)).items;
      assert a[|a| - 1] != b[|b| - 1];
    }
  }

  /** A character after a backslash stands for itself if and only if it is not `(`, `)`, a newline, `n` or a
      digit from 1 on, and does not open an interval. */
  lemma SlashedIff(pat: seq<int>, i: int, st: State, eof: int, sed: bool, endbuf: int)
    requires 0 <= i && Size(st) < endbuf && At(pat, i) == Ord('\\') != eof
    ensures var d := At(pat, i + 1);
            Next(pat, i, st, eof, sed, endbuf) == Go(i + 2, Literal(st, d)) <==>
            && d != Ord('(') && d != Ord(')') && d != Ord('\n') && d != Ord('n') && !Digit19(d)
            && (d == Ord('{') ==> st.items == [])
  {
    hide Flatten, Members, ClassItem, Bounds;
    var d := At(pat, i + 1);
    var x := Literal(st, d).items;
    assert x[|x| - 1] == Item(CCHR, [d], []);
    var nl := Literal(st, NEWLINE).items;
    assert nl[|nl| - 1] == Item(CCHR, [NEWLINE], []);
    var back := Add(st, Item(CBACK, [d - ONE], [])).items;
    assert back[|back| - 1].op == CBACK;
    var bra := Add(st, Item(CBRA, [st.nbra], [])).items;
    assert bra[|bra| - 1].op == CBRA;
  }

  // --- ways of writing a pattern ---

  /** What stands before an element. */
  datatype Before = First(anchored: bool) | Group | Other

  function Following(e: Elem): Before { if e.Open? || e.Close? then Group else Other }

  /** An atom that is a character, written with a backslash or without. */
  function WriteChar(c: int, slashed: bool): (w: seq<int>)
    ensures w != []
  {
    if !slashed then [c] else [Ord('\\'), if c == Ord('\n') then Ord('n') else c]
  }

  function Write(e: Elem, slashed: bool, eof: int): seq<int> {
    if e.Rep? && e.atom.Char? then WriteChar(e.atom.c, slashed) + SpellCount(e.count) else SpellElem(e, eof)
  }

  /** `last`: the delimiter or the newline that ends the pattern comes next. */
  predicate Plain(c: int, before: Before, last: bool, eof: int) {
    && c != eof && c != Ord('.') && c != Ord('\n') && c != Ord('[') && c != Ord('\\')
    && (c == Ord('*') ==> !before.Other?) && (c == Ord('$') ==> !last) && (c == Ord('^') ==> before != First(false))
  }

  predicate Slashed(c: int, before: Before) {
    c != Ord('(') && c != Ord(')') && c != Ord('n') && !Digit19(c) && (c == Ord('{') ==> before.First?)
  }

  predicate CharWay(e: Elem, slashed: bool, before: Before, last: bool, eof: int) {
    e.Rep? && e.atom.Char? ==>
      if slashed then Slashed(e.atom.c, before) else Plain(e.atom.c, before, last && e.count.Just?, eof)
  }

  /** For every element, whether it has a backslash where it is a character. */
  predicate Ways(elems: seq<Elem>, ways: seq<bool>, before: Before, dollar: bool, eof: int) {
    if elems == [] then ways == []
    else
      && ways != [] && CharWay(elems[0], ways[0], before, |elems| == 1 && !dollar, eof)
      && Ways(elems[1..], ways[1..], Following(elems[0]), dollar, eof)
  }

  /** The delimiter ends a pattern, and so does a newline. */
  function WriteElems(elems: seq<Elem>, ways: seq<bool>, dollar: bool, newline: bool, eof: int): (w: seq<int>)
    ensures w != []
  {
    if elems == [] || ways == [] then (if dollar then [Ord('$')] else []) + [if newline then Ord('\n') else eof]
    else Write(elems[0], ways[0], eof) + WriteElems(elems[1..], ways[1..], dollar, newline, eof)
  }

  function Writing(p: Pattern, ways: seq<bool>, newline: bool, eof: int): seq<int> {
    (if p.anchored then [Ord('^')] else []) + WriteElems(p.elems, ways, p.dollar, newline, eof)
  }

  predicate IsWriting(p: Pattern, ways: seq<bool>, eof: int) {
    Ways(p.elems, ways, First(p.anchored), p.dollar, eof)
  }

  // --- the spelling with all its backslashes is one of them ---

  function SpelledWay(e: Elem, eof: int): bool {
    e.Rep? && e.atom.Char? && (e.atom.c == NEWLINE || Special(e.atom.c, eof))
  }

  function SpelledWays(elems: seq<Elem>, eof: int): seq<bool> {
    if elems == [] then [] else [SpelledWay(elems[0], eof)] + SpelledWays(elems[1..], eof)
  }

  lemma SpelledElem(e: Elem, before: Before, last: bool, eof: int)
    requires GoodEof(eof)
    ensures CharWay(e, SpelledWay(e, eof), before, last, eof)
    ensures Write(e, SpelledWay(e, eof), eof) == SpellElem(e, eof)
  {
    hide SpellCount, SpellMembers;
  }

  lemma {:induction false} SpelledElems(elems: seq<Elem>, before: Before, dollar: bool, eof: int)
    requires GoodEof(eof)
    ensures Ways(elems, SpelledWays(elems, eof), before, dollar, eof)
    ensures WriteElems(elems, SpelledWays(elems, eof), dollar, false, eof) == SpellElems(elems, dollar, eof)
    decreases |elems|
  {
    hide GoodEof, CharWay, Write, SpellElem, SpelledWay;
    if elems != [] {
      var ws := SpelledWays(elems, eof);
      assert ws[1..] == SpelledWays(elems[1..], eof);
      SpelledElem(elems[0], before, |elems| == 1 && !dollar, eof);
      SpelledElems(elems[1..], Following(elems[0]), dollar, eof);
    }
  }

  lemma SpellIsWriting(p: Pattern, eof: int)
    requires GoodEof(eof)
    ensures IsWriting(p, SpelledWays(p.elems, eof), eof)
    ensures Writing(p, SpelledWays(p.elems, eof), false, eof) == Spell(p, eof)
  {
    SpelledElems(p.elems, First(p.anchored), p.dollar, eof);
  }

  // --- compile reads every way of writing a pattern as its instructions ---

  /** The state of compile shows what stands before. */
  predicate Shows(st: State, before: Before) {
    match before
    case First(_) => st.items == []
    case Group => st.items != [] && (Last(st.items).op == CBRA || Last(st.items).op == CKET)
    case Other => st.items != [] && Last(st.items).op != CBRA && Last(st.items).op != CKET
  }

  lemma CharRead(pat: seq<int>, i: int, c: int, slashed: bool, before: Before, last: bool, st: State, eof: int,
      sed: bool, endbuf: int)
    requires IsChar(c) && GoodEof(eof) && Has(pat, i, WriteChar(c, slashed)) && Size(st) < endbuf && Shows(st, before)
    requires if slashed then Slashed(c, before) else Plain(c, before, last, eof)
    requires !last ==> At(pat, i + |WriteChar(c, slashed)|) !in [eof, Ord('\n')]
    ensures 0 <= i
    ensures Next(pat, i, st, eof, sed, endbuf) == Go(i + |WriteChar(c, slashed)|, Add(st, AtomItem(Char(c))))
  {
    hide Has, At, Flatten;
    var w := WriteChar(c, slashed);
    HasAt(pat, i, w, 0);
    if slashed {
      HasAt(pat, i, w, 1);
      if c == Ord('\n') {
        NewlineRead(pat, i, st, eof, sed, endbuf);
      } else {
        SlashedIff(pat, i, st, eof, sed, endbuf);
      }
    } else {
      PlainIff(pat, i, st, eof, sed, endbuf);
    }
  }

  lemma NewlineRead(pat: seq<int>, i: int, st: State, eof: int, sed: bool, endbuf: int)
    requires 0 <= i && At(pat, i) == Ord('\\') != eof && At(pat, i + 1) == Ord('n') && Size(st) < endbuf
    ensures Next(pat, i, st, eof, sed, endbuf) == Go(i + 2, Literal(st, Ord('\n')))
  {
    hide Flatten, Members, ClassItem, Bounds;
  }

  lemma WrittenRep(pat: seq<int>, i: int, c: int, n: Count, slashed: bool, before: Before, last: bool, st: State,
      circf: bool, eof: int, sed: bool, endbuf: int)
    requires IsChar(c) && GoodCount(n) && GoodEof(eof) && Shows(st, before)
    requires Has(pat, i, WriteChar(c, slashed) + SpellCount(n))
    requires Size(st) + |Bytes(Counted(AtomItem(Char(c)), n))| + 33 < endbuf
    requires if slashed then Slashed(c, before) else Plain(c, before, last && n.Just?, eof)
    requires !last && n.Just? ==> At(pat, i + |WriteChar(c, slashed)|) !in [eof, Ord('\n')]
    ensures 0 <= i
    ensures Parse(pat, i, st, circf, eof, sed, endbuf)
            == Parse(pat, i + |WriteChar(c, slashed) + SpellCount(n)|, Add(st, Counted(AtomItem(Char(c)), n)), circf,
                eof, sed, endbuf)
  {
    hide Has, At, Next, Flatten, SpellCount, GoodCount, WriteChar, Slashed, Plain, Shows, GoodEof, Counted, Bytes;
    HasSplit(pat, i, WriteChar(c, slashed), SpellCount(n));
    CountFirst(pat, i + |WriteChar(c, slashed)|, n, eof);
    CharRead(pat, i, c, slashed, before, last && n.Just?, st, eof, sed, endbuf);
    CountedRead(pat, i, Char(c), WriteChar(c, slashed), n, st, circf, eof, sed, endbuf);
  }

  /** A count does not begin like the end of a pattern. */
  lemma CountFirst(pat: seq<int>, i: int, n: Count, eof: int)
    requires GoodCount(n) && GoodEof(eof) && Has(pat, i, SpellCount(n))
    ensures !n.Just? ==> At(pat, i) != eof && At(pat, i) != Ord('\n')
  {
    hide Has, At, Decimal;
    if !n.Just? { HasAt(pat, i, SpellCount(n), 0); }
  }

  lemma WrittenElem(pat: seq<int>, i: int, e: Elem, slashed: bool, before: Before, last: bool, st: State, circf: bool,
      eof: int, sed: bool, endbuf: int)
    requires GoodElem(e, st) && Counts(st) && GoodEof(eof) && Has(pat, i, Write(e, slashed, eof)) && Shows(st, before)
    requires Size(st) + |Bytes(ElemItem(e))| + 33 < endbuf
    requires CharWay(e, slashed, before, last, eof)
    requires !last ==> At(pat, i + |Write(e, slashed, eof)|) !in [eof, Ord('\n')]
    ensures 0 <= i
    ensures Parse(pat, i, st, circf, eof, sed, endbuf)
            == Parse(pat, i + |Write(e, slashed, eof)|, AfterElem(e, st), circf, eof, sed, endbuf)
  {
    hide Has, At, Next, Flatten, Counted, AtomItem, SpellElem, SpellCount, GoodCount, WriteChar, Slashed, Plain, Shows,
        GoodEof, Bytes;
    if e.Rep? && e.atom.Char? {
      if e.count.Just? { NoCount(); }
      WrittenRep(pat, i, e.atom.c, e.count, slashed, before, last, st, circf, eof, sed, endbuf);
    } else {
      ElemRead(pat, i, e, st, circf, eof, sed, endbuf);
    }
  }

  lemma ShowsAfter(e: Elem, st: State)
    requires GoodElem(e, st)
    ensures Shows(AfterElem(e, st), Following(e))
  {
    hide AtomItem, GoodAtom;
    var x := ElemItem(e);
    assert Last(AfterElem(e, st).items) == x;
    if e.Rep? { AtomItemPlain(e.atom); }
  }

  /** The first character of what is written is not the delimiter and not a newline, unless it is the end. */
  lemma FirstWritten(pat: seq<int>, i: int, elems: seq<Elem>, ways: seq<bool>, before: Before, dollar: bool,
      newline: bool, eof: int)
    requires Has(pat, i, WriteElems(elems, ways, dollar, newline, eof)) && GoodEof(eof) && (elems != [] || dollar)
    requires Ways(elems, ways, before, dollar, eof) && (elems != [] && elems[0].Rep? ==> GoodAtom(elems[0].atom))
    ensures At(pat, i) != eof && At(pat, i) != Ord('\n')
    ensures before == First(false) ==> At(pat, i) != Ord('^')
  {
    hide Has, At, SpellCount, SpellMembers, GoodMember;
    var w := WriteElems(elems, ways, dollar, newline, eof);
    HasAt(pat, i, w, 0);
    if elems != [] {
      var v := Write(elems[0], ways[0], eof);
      assert v != [];
      assert w[0] == v[0];
    }
  }

  lemma GoodFirst(elems: seq<Elem>, open: seq<int>, nbra: nat)
    requires Good(elems, open, nbra)
    ensures elems != [] && elems[0].Rep? ==> GoodAtom(elems[0].atom)
  {
    hide GoodAtom, GoodCount;
  }

  lemma {:induction false} ParseWritten(pat: seq<int>, i: int, elems: seq<Elem>, ways: seq<bool>, before: Before,
      dollar: bool, newline: bool, st: State, circf: bool, eof: int, sed: bool, endbuf: int)
    requires Counts(st) && Good(elems, st.open, st.nbra) && GoodEof(eof) && (newline ==> !sed)
    requires Has(pat, i, WriteElems(elems, ways, dollar, newline, eof))
    requires Ways(elems, ways, before, dollar, eof) && Shows(st, before)
    requires Size(st) + |Flatten(Code(elems, dollar))| + 33 < endbuf
    ensures 0 <= i
    ensures Parse(pat, i, st, circf, eof, sed, endbuf)
            == Compiled(circf, st.items + Code(elems, dollar), st.nbra + Opens(elems), newline,
                        i + |WriteElems(elems, ways, dollar, newline, eof)| - (if newline then 1 else 0))
    decreases |elems|
  {
    hide Has, At, Next, Parse, Flatten, Bytes, ElemItem, AfterElem, GoodElem, GoodEof, Write, CharWay, Shows,
        GoodAtom;
    if elems == [] {
      EndWritten(pat, i, dollar, newline, st, circf, eof, sed, endbuf);
    } else {
      var e, rest, st1 := elems[0], elems[1..], AfterElem(elems[0], st);
      var x, w := ElemItem(e), Write(e, ways[0], eof);
      CodeStep(elems, dollar, st);
      var code := Code(rest, dollar);
      FlattenCons(x, code);
      SizeAdd(st, x);
      HasSplit(pat, i, w, WriteElems(rest, ways[1..], dollar, newline, eof));
      GoodFirst(rest, st1.open, st1.nbra);
      if rest != [] || dollar {
        FirstWritten(pat, i + |w|, rest, ways[1..], Following(e), dollar, newline, eof);
      }
      WrittenElem(pat, i, e, ways[0], before, rest == [] && !dollar, st, circf, eof, sed, endbuf);
      ShowsAfter(e, st);
      ParseWritten(pat, i + |w|, rest, ways[1..], Following(e), dollar, newline, st1, circf, eof, sed, endbuf);
      Assoc(st.items, [x], code);
    }
  }

  lemma EndWritten(pat: seq<int>, i: int, dollar: bool, newline: bool, st: State, circf: bool, eof: int, sed: bool,
      endbuf: int)
    requires st.open == [] && GoodEof(eof) && Has(pat, i, WriteElems([], [], dollar, newline, eof))
    requires Size(st) + 33 < endbuf && (newline ==> !sed)
    ensures 0 <= i
    ensures Parse(pat, i, st, circf, eof, sed, endbuf)
            == Compiled(circf, st.items + Code([], dollar), st.nbra, newline,
                i + |WriteElems([], [], dollar, newline, eof)| - (if newline then 1 else 0))
  {
    hide Has, At, Flatten, Members, Bounds, Escape;
    var w := WriteElems([], [], dollar, newline, eof);
    HasAt(pat, i, w, 0);
    if dollar {
      HasAt(pat, i, w, 1);
      SizeAdd(st, Item(CDOL, [], []));
      NextProgress(pat, i, st, eof, sed, endbuf);
    }
  }

  /** However a pattern is written, compile makes its own instructions of it, and reads just what is written;
      a newline that ends it is left to be read. */
  lemma CompileWritten(p: Pattern, ways: seq<bool>, newline: bool, eof: int, sed: bool, endbuf: int, blank: bool,
      rest: seq<int>)
    requires GoodPattern(p) && GoodEof(eof) && IsWriting(p, ways, eof) && (newline ==> !sed)
    requires |Flatten(Code(p.elems, p.dollar))| + 33 < endbuf
    ensures Compile(Writing(p, ways, newline, eof) + rest, eof, sed, endbuf, blank)
            == Compiled(p.anchored, Code(p.elems, p.dollar), Opens(p.elems), newline,
                        |Writing(p, ways, newline, eof)| - (if newline then 1 else 0))
  {
    hide Has, At, Next, Flatten, WriteElems, Code, Parse, Ways, GoodAtom, Good;
    var all := Writing(p, ways, newline, eof);
    var pat := all + rest;
    var w := WriteElems(p.elems, ways, p.dollar, newline, eof);
    var i := if p.anchored then 1 else 0;
    SpellsAt(pat, i, w, rest);
    if p.anchored {
      SpellsAt(pat, 0, all, rest);
      HasAt(pat, 0, all, 0);
    } else {
      GoodFirst(p.elems, [], 0);
      FirstWritten(pat, 0, p.elems, ways, First(false), p.dollar, newline, eof);
    }
    NoSize();
    ParseWritten(pat, i, p.elems, ways, First(p.anchored), p.dollar, newline, START, p.anchored, eof, sed, endbuf);
    assert START.items + Code(p.elems, p.dollar) == Code(p.elems, p.dollar);
  }
}
