/** How compile of head_m88k/regexp.h checks back-references.  It asks whether more groups have ended than
    the number of the group says.  That is the right question as long as no group ends inside another; in a
    group inside which one has ended, it accepts a reference to the outer group, which has not ended, and
    rejects one to the inner group, which has. */
module EdGroups {
  import opened Wrappers
  import opened EdProgram
  import opened EdParse
  import opened EdPattern

  /** The groups as the main loop keeps them: the open ones on a stack, numbered from 0 in the order in
      which they begin. */
  ghost predicate GroupsOk(st: State) {
    && Counts(st) && 0 <= st.closed && st.nbra <= NBRA
    && (forall k :: 0 <= k < |st.open| ==> 0 <= st.open[k] < st.nbra)
    && forall i, j :: 0 <= i < j < |st.open| ==> st.open[i] < st.open[j]
  }

  lemma EscapeGroups(pat: seq<int>, i: int, st: State)
    requires GroupsOk(st) && i >= 0
    ensures var m := Escape(pat, i, st); m.Go? ==> GroupsOk(m.st)
  {
    hide Bounds, SetLast;
  }

  /** Every turn of compile keeps them so. */
  lemma NextGroups(pat: seq<int>, i: int, st: State, eof: int, sed: bool, endbuf: int)
    requires GroupsOk(st) && i >= 0
    ensures var m := Next(pat, i, st, eof, sed, endbuf); m.Go? ==> GroupsOk(m.st)
  {
    hide Escape, Members, ClassItem, Flatten, SetLast;
    if At(pat, i) == BACKSLASH { EscapeGroups(pat, i + 1, st); }
  }

  lemma StartGroups()
    ensures GroupsOk(START)
  {
  }

  ghost predicate HasEnded(st: State, n: int) {
    0 <= n < st.nbra && n !in st.open
  }

  lemma {:induction false} OpenAre(open: seq<int>, lo: int, hi: int, k: int)
    requires |open| == hi - lo && (forall i, j :: 0 <= i < j < |open| ==> open[i] < open[j])
    requires (forall i :: 0 <= i < |open| ==> lo <= open[i] < hi) && 0 <= k < |open|
    ensures open[k] >= lo + k && open[k] < hi - (|open| - 1 - k)
  {
    AtLeast(open, lo, k);
    AtMost(open, hi, k);
  }

  lemma {:induction false} AtLeast(open: seq<int>, lo: int, k: int)
    requires (forall i, j :: 0 <= i < j < |open| ==> open[i] < open[j]) && 0 <= k < |open| && open[0] >= lo
    ensures open[k] >= lo + k
    decreases k
  {
    if k > 0 { AtLeast(open, lo, k - 1); }
  }

  lemma {:induction false} AtMost(open: seq<int>, hi: int, k: int)
    requires (forall i, j :: 0 <= i < j < |open| ==> open[i] < open[j]) && 0 <= k < |open| && open[|open| - 1] < hi
    ensures open[k] < hi - (|open| - 1 - k)
    decreases |open| - k
  {
    if k < |open| - 1 { AtMost(open, hi, k + 1); }
  }

  /** The check is right for every reference if and only if no group has ended inside one that is open. */
  lemma CheckExact(st: State)
    requires GroupsOk(st)
    ensures (forall n :: 0 <= n < NBRA ==> (n < st.closed <==> HasEnded(st, n))) <==>
            (st.open == [] || st.open[0] >= st.closed)
  {
    if st.open == [] || st.open[0] >= st.closed {
      forall n | 0 <= n < NBRA ensures n < st.closed <==> HasEnded(st, n) {
        if st.closed <= n < st.nbra {
          OpenAre(st.open, st.closed, st.nbra, n - st.closed);
          assert st.open[n - st.closed] == n;
        }
        if n < st.closed && n in st.open {
          var k :| 0 <= k < |st.open| && st.open[k] == n;
          AtLeast(st.open, st.closed, k);
        }
      }
    } else {
      assert !HasEnded(st, st.open[0]);
    }
  }

  /** Where the main loop is after `n` turns. */
  function Turns(pat: seq<int>, i: int, st: State, eof: int, sed: bool, endbuf: int, n: nat): Move
    requires i >= 0
    decreases n
  {
    if n == 0 then Go(i, st)
    else
      NextProgress(pat, i, st, eof, sed, endbuf);
      match Next(pat, i, st, eof, sed, endbuf)
      case Go(next, st1) => Turns(pat, next, st1, eof, sed, endbuf, n - 1)
      case m => m
  }

  /** Whatever the number of turns, the groups are as they should be; and what is still to be read is read
      from there. */
  lemma {:induction false} TurnsGroups(pat: seq<int>, i: int, st: State, circf: bool, eof: int, sed: bool, endbuf: int,
      n: nat)
    requires GroupsOk(st) && i >= 0
    ensures var m := Turns(pat, i, st, eof, sed, endbuf, n);
            m.Go? ==> GroupsOk(m.st) && m.next >= i
                      && Parse(pat, m.next, m.st, circf, eof, sed, endbuf) == Parse(pat, i, st, circf, eof, sed, endbuf)
    decreases n
  {
    hide Next, GroupsOk, Flatten;
    if n > 0 {
      NextProgress(pat, i, st, eof, sed, endbuf);
      NextGroups(pat, i, st, eof, sed, endbuf);
      var m := Next(pat, i, st, eof, sed, endbuf);
      if m.Go? { TurnsGroups(pat, m.next, m.st, circf, eof, sed, endbuf, n - 1); }
    }
  }

  /** compile accepts, in this state, a reference to group `n`. */
  predicate Accepts(st: State, n: int) { Escape([ONE + n], 0, st).Go? }

  lemma RefAccepted(st: State, n: int)
    requires 0 <= n < NBRA
    ensures Accepts(st, n) <==> n < st.closed
  {
  }

  /** In every state that compile comes to, from the start of any pattern: it accepts exactly the references
      to groups that have ended, if and only if no group has ended inside one that is open. */
  lemma CompileChecks(pat: seq<int>, i: int, eof: int, sed: bool, endbuf: int, n: nat)
    requires i >= 0 && Turns(pat, i, START, eof, sed, endbuf, n).Go?
    ensures var st := Turns(pat, i, START, eof, sed, endbuf, n).st;
            (forall d :: 0 <= d < NBRA ==> (Accepts(st, d) <==> HasEnded(st, d))) <==>
            (st.open == [] || st.open[0] >= st.closed)
  {
    hide Accepts, GroupsOk, HasEnded;
    StartGroups();
    TurnsGroups(pat, i, START, false, eof, sed, endbuf, n);
    var st := Turns(pat, i, START, eof, sed, endbuf, n).st;
    CheckExact(st);
    forall d | 0 <= d < NBRA ensures Accepts(st, d) <==> d < st.closed { RefAccepted(st, d); }
  }

  // --- patterns ---

  /** The sets of groups that are open and done. */
  function OpenSet(open: seq<int>): set<int> { set n | n in open }

  ghost function DoneSet(open: seq<int>, nbra: int): set<int> { set n | 0 <= n < nbra && n !in open }

  /** No group stands twice among the open ones. */
  predicate Apart(open: seq<int>) { forall i, j :: 0 <= i < j < |open| ==> open[i] != open[j] }

  lemma SetsAfter(e: Elem, open: seq<int>, nbra: nat)
    requires Numbered(open, nbra) && Apart(open)
    ensures e.Open? && e.n == nbra ==>
              && OpenSet(OpenAfter(e, open)) == OpenSet(open) + {e.n}
              && DoneSet(OpenAfter(e, open), nbra + 1) == DoneSet(open, nbra)
              && e.n !in OpenSet(open) && e.n !in DoneSet(open, nbra)
    ensures e.Close? && open != [] && e.n == open[|open| - 1] ==>
              && OpenSet(OpenAfter(e, open)) == OpenSet(open) - {e.n}
              && DoneSet(OpenAfter(e, open), nbra) == DoneSet(open, nbra) + {e.n}
              && e.n in OpenSet(open) && e.n !in DoneSet(open, nbra)
    ensures Apart(OpenAfter(e, open)) || (e.Open? && e.n != nbra)
  {
    if e.Close? && open != [] {
      var n := |open| - 1;
      assert open == open[..n] + [open[n]];
    }
  }

  /** For every pattern that compile accepts: its instructions refer to groups only after their end if and
      only if no reference stands inside its own group. */
  lemma ScopedIff(elems: seq<Elem>, dollar: bool)
    requires Good(elems, [], 0)
    ensures Meaningful(Code(elems, dollar))
    ensures Scoped(Pieces(Code(elems, dollar)), {}, {}) <==> RefsClosed(elems, [])
  {
    ScopedFrom(elems, dollar, [], 0);
    assert OpenSet([]) == {} && DoneSet([], 0) == {};
  }

  lemma {:induction false} ScopedFrom(elems: seq<Elem>, dollar: bool, open: seq<int>, nbra: nat)
    requires Good(elems, open, nbra) && Numbered(open, nbra) && Apart(open)
    ensures Meaningful(Code(elems, dollar))
    ensures Scoped(Pieces(Code(elems, dollar)), OpenSet(open), DoneSet(open, nbra)) <==> RefsClosed(elems, open)
    decreases |elems|
  {
    hide ElemItem, AtomSingle, GoodAtom, GoodCount, Meaning, ElemPiece;
    if elems == [] {
      DollarSafe(dollar);
    } else {
      var open1, nbra1 := OpenAfter(elems[0], open), NumberAfter(elems[0], nbra);
      GoodRest(elems, open, nbra);
      SetsAfter(elems[0], open, nbra);
      ScopedFrom(elems[1..], dollar, open1, nbra1);
      CodePieces(elems, dollar, open, nbra);
      var ps := Pieces(Code(elems, dollar));
      assert ps[1..] == Pieces(Code(elems[1..], dollar));
      ScopedElem(ps, elems[0], open, nbra);
    }
  }

  lemma ScopedElem(ps: seq<Piece>, e: Elem, open: seq<int>, nbra: nat)
    requires ps != [] && Numbered(open, nbra) && Apart(open)
    requires e.Rep? ==> AtomSingle(e.atom).Some?
    requires ps[0] == ElemPiece(e)
    requires e.Open? ==> e.n == nbra < NBRA
    requires e.Close? ==> open != [] && e.n == open[|open| - 1]
    requires e.Ref? ==> 0 <= e.n < nbra - |open|
    ensures Scoped(ps, OpenSet(open), DoneSet(open, nbra)) <==>
            (e.Ref? ==> e.n !in open)
            && Scoped(ps[1..], OpenSet(OpenAfter(e, open)), DoneSet(OpenAfter(e, open), NumberAfter(e, nbra)))
  {
    hide AtomSingle, PieceOf;
    SetsAfter(e, open, nbra);
    if e.Rep? { PieceIsPlain(AtomSingle(e.atom).value, e.count); }
  }

  lemma PieceIsPlain(s: Single, n: Count)
    ensures var p := PieceOf(s, n); !p.Enter? && !p.Leave? && !p.Again?
  {
  }

  /** A reference to a group inside it, after another one has ended there: a group of an a, a group of a b
      in it, and a reference to the first. */
  function Own(): seq<Elem> {
    [Open(0), Rep(Char(SMALL_A), Just), Open(1), Rep(Char(SMALL_B), Just), Close(1), Ref(0), Close(0)]
  }

  const SMALL_A: int := 97
  const SMALL_B: int := 98

  /** compile accepts it, and the program refers to a group before its end. */
  lemma OwnAccepted(eof: int, endbuf: int, rest: seq<int>)
    requires GoodEof(eof) && endbuf > 100
    ensures var p := Pattern(false, Own(), false);
            && Meaningful(Code(p.elems, p.dollar)) && !Scoped(Pieces(Code(p.elems, p.dollar)), {}, {})
            && Compile(Spell(p, eof) + rest, eof, false, endbuf, false).Compiled?
            && Compile(Spell(p, eof) + rest, eof, false, endbuf, false).items == Code(p.elems, p.dollar)
  {
    var p := Pattern(false, Own(), false);
    OwnGood(p.elems);
    ScopedIff(p.elems, p.dollar);
    OwnSize(p.elems);
    hide Code, Spell, Compile, Flatten, Own, Pieces, Scoped, Good, GoodEof;
    CompileSpelled(p, eof, false, endbuf, false, rest);
  }

  lemma OwnGood(elems: seq<Elem>)
    requires elems == Own()
    ensures Good(elems, [], 0) && !RefsClosed(elems, []) && elems != []
  {
    hide Good, RefsClosed, GoodAtom, GoodCount, OpenAfter;
    var none: seq<int> := [];
    var one, two, n1 := none + [0], none + [0] + [1], 1;
    assert two[..1] == one && one[..0] == none;
    GoodChar(elems[1..], one, n1);
    GoodOpen(elems, none, 0);
    GoodOpen(elems[2..], one, n1);
    GoodChar(elems[3..], two, n1 + 1);
    GoodClose(elems[4..], two, n1 + 1);
    GoodRef(elems[5..], one, n1 + 1);
    GoodClose(elems[6..], one, n1 + 1);
    GoodNothing(elems[7..], n1 + 1);
  }

  lemma GoodNothing(elems: seq<Elem>, nbra: nat)
    requires elems == []
    ensures Good(elems, [], nbra) && RefsClosed(elems, [])
  {
  }

  lemma GoodChar(elems: seq<Elem>, open: seq<int>, nbra: nat)
    requires elems != [] && (elems[0] == Rep(Char(SMALL_A), Just) || elems[0] == Rep(Char(SMALL_B), Just))
    ensures Good(elems, open, nbra) <==> Good(elems[1..], open, nbra)
    ensures RefsClosed(elems, open) <==> RefsClosed(elems[1..], open)
  {
  }

  lemma GoodOpen(elems: seq<Elem>, open: seq<int>, nbra: nat)
    requires elems != [] && elems[0] == Open(nbra) && nbra < NBRA
    ensures Good(elems, open, nbra) <==> Good(elems[1..], open + [nbra], nbra + 1)
    ensures RefsClosed(elems, open) <==> RefsClosed(elems[1..], open + [nbra])
  {
  }

  lemma GoodClose(elems: seq<Elem>, open: seq<int>, nbra: nat)
    requires elems != [] && open != [] && elems[0] == Close(open[|open| - 1])
    ensures Good(elems, open, nbra) <==> Good(elems[1..], open[..|open| - 1], nbra)
    ensures RefsClosed(elems, open) <==> RefsClosed(elems[1..], open[..|open| - 1])
  {
  }

  /** A reference to a group that is open: the count of the groups that have ended lets it pass. */
  lemma GoodRef(elems: seq<Elem>, open: seq<int>, nbra: nat)
    requires elems != [] && elems[0].Ref? && elems[0].n in open && 0 <= elems[0].n < nbra - |open| && nbra <= NBRA
    ensures Good(elems, open, nbra) <==> Good(elems[1..], open, nbra)
    ensures !RefsClosed(elems, open)
  {
  }

  lemma {:induction false} CodeSize(elems: seq<Elem>)
    requires forall k :: 0 <= k < |elems| ==> elems[k].Rep? ==> elems[k].atom.Char? && elems[k].count.Just?
    ensures |Flatten(Code(elems, false))| == 2 * |elems|
    decreases |elems|
  {
    if elems != [] {
      CodeSize(elems[1..]);
      FlattenCons(ElemItem(elems[0]), Code(elems[1..], false));
    }
  }

  lemma OwnSize(elems: seq<Elem>)
    requires elems == Own()
    ensures |Flatten(Code(elems, false))| == 14
  {
    CodeSize(elems);
  }

  // --- a reference that is refused ---

  function AfterElems(elems: seq<Elem>, st: State): State
    decreases |elems|
  {
    if elems == [] then st else AfterElems(elems[1..], AfterElem(elems[0], st))
  }

  function SpellAll(elems: seq<Elem>, eof: int): seq<int> {
    if elems == [] then [] else SpellElem(elems[0], eof) + SpellAll(elems[1..], eof)
  }

  ghost predicate AllGood(elems: seq<Elem>, st: State, endbuf: int)
    decreases |elems|
  {
    elems == [] ||
    (GoodElem(elems[0], st) && Size(st) + |Bytes(ElemItem(elems[0]))| + 33 < endbuf
     && AllGood(elems[1..], AfterElem(elems[0], st), endbuf))
  }

  lemma AfterCounts(e: Elem, st: State)
    requires Counts(st) && GoodElem(e, st)
    ensures Counts(AfterElem(e, st))
  {
    hide GoodAtom, GoodCount, ElemItem;
  }

  lemma {:induction false} ElemsRead(pat: seq<int>, i: int, elems: seq<Elem>, st: State, eof: int, endbuf: int)
    requires Counts(st) && GoodEof(eof) && Has(pat, i, SpellAll(elems, eof)) && AllGood(elems, st, endbuf)
    ensures 0 <= i && Parse(pat, i, st, false, eof, false, endbuf)
                      == Parse(pat, i + |SpellAll(elems, eof)|, AfterElems(elems, st), false, eof, false, endbuf)
    decreases |elems|
  {
    hide Has, At, Next, Parse, Flatten, Bytes, ElemItem, AfterElem, GoodElem, GoodEof, SpellElem, Counts;
    HasStart(pat, i, SpellAll(elems, eof));
    if elems != [] {
      HasSplit(pat, i, SpellElem(elems[0], eof), SpellAll(elems[1..], eof));
      ElemRead(pat, i, elems[0], st, false, eof, false, endbuf);
      AfterCounts(elems[0], st);
      ElemsRead(pat, i + |SpellElem(elems[0], eof)|, elems[1..], AfterElem(elems[0], st), eof, endbuf);
    }
  }

  lemma HasStart(pat: seq<int>, i: int, w: seq<int>)
    requires Has(pat, i, w)
    ensures 0 <= i
  {
  }

  /** The elements up to the end of the inner group. */
  function Inner(): seq<Elem> {
    [Open(0), Rep(Char(SMALL_A), Just), Open(1), Rep(Char(SMALL_B), Just), Close(1)]
  }

  lemma InnerState(elems: seq<Elem>, endbuf: int)
    requires elems == Inner() && endbuf > 100
    ensures AllGood(elems, START, endbuf)
    ensures var st := AfterElems(elems, START);
            st.open == [0] && st.nbra == 2 && st.closed == 1 && Size(st) < endbuf
  {
    hide Flatten;
    var e1 := elems[1..];
    var e2 := e1[1..];
    var e3 := e2[1..];
    var e4 := e3[1..];
    var e5 := e4[1..];
    var s1 := AfterElem(elems[0], START);
    var s2 := AfterElem(e1[0], s1);
    var s3 := AfterElem(e2[0], s2);
    var s4 := AfterElem(e3[0], s3);
    var s5 := AfterElem(e4[0], s4);
    assert [0, 1][..1] == [0];
    NoSize();
    SizeAdd(START, ElemItem(elems[0]));
    SizeAdd(s1, ElemItem(e1[0]));
    SizeAdd(s2, ElemItem(e2[0]));
    SizeAdd(s3, ElemItem(e3[0]));
    SizeAdd(s4, ElemItem(e4[0]));
    assert AllGood(e5, s5, endbuf) && AfterElems(e5, s5) == s5;
    assert AllGood(e4, s4, endbuf) && AfterElems(e4, s4) == s5;
    assert AllGood(e3, s3, endbuf) && AfterElems(e3, s3) == s5;
    assert AllGood(e2, s2, endbuf) && AfterElems(e2, s2) == s5;
    assert AllGood(e1, s1, endbuf) && AfterElems(e1, s1) == s5;
  }

  /** After the inner group has ended, a reference to it is an error. */
  lemma InnerRefused(pat: seq<int>, eof: int, endbuf: int)
    requires GoodEof(eof) && endbuf > 100 && Has(pat, 0, SpellAll(Inner(), eof) + [BACKSLASH, ONE + 1])
    ensures HasEnded(AfterElems(Inner(), START), 1)
    ensures Parse(pat, 0, START, false, eof, false, endbuf) == Error(25)
  {
    hide Flatten, Inner, SpellAll, AllGood, AfterElems, Has, At, Parse, Next, GoodEof, Size;
    var elems, w := Inner(), [BACKSLASH, ONE + 1];
    InnerState(elems, endbuf);
    HasSplit(pat, 0, SpellAll(elems, eof), w);
    ElemsRead(pat, 0, elems, START, eof, endbuf);
    RefRead(pat, |SpellAll(elems, eof)|, AfterElems(elems, START), 1, eof, endbuf);
  }

  /** A reference for which not enough groups have ended is an error. */
  lemma RefRead(pat: seq<int>, i: nat, st: State, n: int, eof: int, endbuf: int)
    requires Has(pat, i, [BACKSLASH, ONE + n]) && 0 <= n < NBRA && GoodEof(eof) && Size(st) < endbuf && st.closed <= n
    ensures Parse(pat, i, st, false, eof, false, endbuf) == Error(25)
  {
    hide Flatten, Has, At, Members, Bounds;
    HasAt(pat, i, [BACKSLASH, ONE + n], 0);
    HasAt(pat, i, [BACKSLASH, ONE + n], 1);
  }
}
