/** Which of the possible matches the matcher of head_m88k/regexp.h finds: longest first, from the left. */
module EdGreedy {
  import opened Wrappers
  import opened EdProgram
  import opened EdParse
  import opened EdPattern

  /** The elements match nothing from the place on. */
  ghost predicate Nothing(elems: seq<Elem>, dollar: bool, t: seq<int>, x: Place) {
    forall y :: !Denotes(elems, dollar, t, x, y)
  }

  /** The first element takes `k` characters, and could not take more: after any larger number that its
      count allows, the rest of the pattern matches nothing. */
  ghost predicate Takes(elems: seq<Elem>, dollar: bool, t: seq<int>, x: Place, k: int)
    requires elems != [] && elems[0].Rep?
  {
    && Allows(elems[0].count, k) && AllAtoms(elems[0].atom, t, x.at, k)
    && forall m :: m > k && Allows(elems[0].count, m) && AllAtoms(elems[0].atom, t, x.at, m) ==>
         Nothing(elems[1..], dollar, t, x.Ahead(m))
  }

  /** From `x` to `y` stands the preferred match: every element, from the left, takes as many characters as
      leave the rest of the pattern a match. */
  ghost predicate Preferred(elems: seq<Elem>, dollar: bool, t: seq<int>, x: Place, y: Place)
    decreases |elems|
  {
    if elems == [] then Denotes(elems, dollar, t, x, y)
    else
      match elems[0]
      case Rep(_, _) => exists k :: Takes(elems, dollar, t, x, k) && Preferred(elems[1..], dollar, t, x.Ahead(k), y)
      case Open(n) => Preferred(elems[1..], dollar, t, x.Entered(n), y)
      case Close(n) => Preferred(elems[1..], dollar, t, x.Left(n), y)
      case Ref(n) =>
        Repeats(t, x, n) && Preferred(elems[1..], dollar, t, x.Ahead(GroupLength(x.groups, n)), y)
  }

  lemma {:induction false} PreferredDenotes(elems: seq<Elem>, dollar: bool, t: seq<int>, x: Place, y: Place)
    requires Preferred(elems, dollar, t, x, y)
    ensures Denotes(elems, dollar, t, x, y)
    decreases |elems|
  {
    hide Repeats, GroupLength, AllAtoms, Allows;
    if elems != [] {
      match elems[0]
      case Rep(_, _) =>
        var k :| Takes(elems, dollar, t, x, k) && Preferred(elems[1..], dollar, t, x.Ahead(k), y);
        PreferredDenotes(elems[1..], dollar, t, x.Ahead(k), y);
      case Open(n) => PreferredDenotes(elems[1..], dollar, t, x.Entered(n), y);
      case Close(n) => PreferredDenotes(elems[1..], dollar, t, x.Left(n), y);
      case Ref(n) => PreferredDenotes(elems[1..], dollar, t, x.Ahead(GroupLength(x.groups, n)), y);
    }
  }

  /** There is only one preferred match. */
  lemma {:induction false} PreferredOnce(elems: seq<Elem>, dollar: bool, t: seq<int>, x: Place, y: Place, z: Place)
    requires Preferred(elems, dollar, t, x, y) && Preferred(elems, dollar, t, x, z)
    ensures y == z
    decreases |elems|
  {
    hide Allows, AllAtoms, Repeats, GroupLength;
    if elems != [] {
      var rest := elems[1..];
      match elems[0]
      case Rep(_, _) =>
        var k :| Takes(elems, dollar, t, x, k) && Preferred(rest, dollar, t, x.Ahead(k), y);
        var m :| Takes(elems, dollar, t, x, m) && Preferred(rest, dollar, t, x.Ahead(m), z);
        PreferredDenotes(rest, dollar, t, x.Ahead(k), y);
        PreferredDenotes(rest, dollar, t, x.Ahead(m), z);
        assert !Nothing(rest, dollar, t, x.Ahead(k)) && !Nothing(rest, dollar, t, x.Ahead(m));
        assert k == m;
        PreferredOnce(rest, dollar, t, x.Ahead(k), y, z);
      case Open(n) => PreferredOnce(rest, dollar, t, x.Entered(n), y, z);
      case Close(n) => PreferredOnce(rest, dollar, t, x.Left(n), y, z);
      case Ref(n) => PreferredOnce(rest, dollar, t, x.Ahead(GroupLength(x.groups, n)), y, z);
    }
  }

  /** How many characters the first piece takes. */
  lemma FirstTakes(s: Single, n: Count, ps: seq<Piece>, t: seq<int>, x: Place) returns (k: int)
    requires ps != [] && ps[0] == PieceOf(s, n) && GoodCount(n) && 0 <= x.at <= |t| && Greedy(ps, t, x).Some?
    ensures Allows(n, k) && AllFit(s, t, x.at, k) && 0 <= x.at + k <= |t|
    ensures Greedy(ps[1..], t, x.Ahead(k)) == Greedy(ps, t, x)
    ensures forall m :: m > k && Allows(n, m) && AllFit(s, t, x.at, m) ==> NoMatch(ps[1..], t, x.Ahead(m))
  {
    hide Matches, RunLength;
    var rest := ps[1..];
    assert ps == [ps[0]] + rest;
    match n
    case Just => k := 1;
    case Star =>
      var h := LongestFirst(s, rest, t, x);
      k := h - x.at;
      LongestTakes(s, 0, |t| - x.at, rest, t, x, h, Greedy(ps, t, x));
    case _ =>
      var h := IntervalLongestFirst(s, ps[0].low, ps[0].high, rest, t, x);
      k := h - x.at;
      LongestTakes(s, ps[0].low, Upper(ps[0].low, ps[0].high), rest, t, x, h, Greedy(ps, t, x));
  }

  lemma LongestTakes(s: Single, lo: int, hi: int, rest: seq<Piece>, t: seq<int>, x: Place, h: int,
      found: Option<Place>)
    requires Longest(s, lo, hi, rest, t, x, h, found)
    ensures Place(h, x.groups) == x.Ahead(h - x.at)
    ensures forall m :: h - x.at < m <= hi && AllFit(s, t, x.at, m) ==> NoMatch(rest, t, x.Ahead(m))
  {
    hide NoMatch, Greedy, Fits;
    forall m | h - x.at < m <= hi && AllFit(s, t, x.at, m) ensures NoMatch(rest, t, x.Ahead(m)) {
      assert AllFit(s, t, x.at, (x.at + m) - x.at);
      assert x.Ahead(m) == Place(x.at + m, x.groups);
    }
  }

  lemma RepPrefers(a: Atom, n: Count, ps: seq<Piece>, elems: seq<Elem>, dollar: bool, t: seq<int>, x: Place)
    returns (k: int)
    requires GoodAtom(a) && GoodCount(n) && IsText(t) && elems != [] && elems[0] == Rep(a, n)
    requires ps != [] && AtomSingle(a).Some? && ps[0] == PieceOf(AtomSingle(a).value, n)
    requires forall z, y :: Matches(ps[1..], t, z, y) <==> Denotes(elems[1..], dollar, t, z, y)
    requires 0 <= x.at <= |t| && Greedy(ps, t, x).Some?
    ensures 0 <= x.at + k <= |t| && Greedy(ps[1..], t, x.Ahead(k)) == Greedy(ps, t, x)
    ensures Takes(elems, dollar, t, x, k)
  {
    hide Allows, AllAtoms, AtomSingle, GoodAtom, GoodCount, IsText, PieceOf, AllFit, Matches, Denotes, Greedy;
    var s := AtomSingle(a).value;
    k := FirstTakes(s, n, ps, t, x);
    AllAtomsFit(a, t, x.at, k);
    forall m | m > k && Allows(n, m) && AllAtoms(a, t, x.at, m) ensures Nothing(elems[1..], dollar, t, x.Ahead(m)) {
      AllAtomsFit(a, t, x.at, m);
      assert NoMatch(ps[1..], t, x.Ahead(m));
    }
  }

  /** The end the matcher finds is that of the preferred match. */
  lemma {:induction false} GreedyPrefers(elems: seq<Elem>, dollar: bool, open: seq<int>, nbra: nat, t: seq<int>,
      x: Place)
    requires Good(elems, open, nbra) && Numbered(open, nbra) && IsText(t) && 0 <= x.at <= |t|
    ensures Meaningful(Code(elems, dollar))
    ensures var g := Greedy(Pieces(Code(elems, dollar)), t, x);
            g.Some? ==> Preferred(elems, dollar, t, x, g.value)
    decreases |elems|
  {
    hide ElemItem, AtomSingle, IsText, Numbered, Matches, Pieces, Denotes, Good, OpenAfter, Greedy, Takes, Repeats,
        GroupLength;
    CodeSafe(elems, dollar, open, nbra);
    var ps := Pieces(Code(elems, dollar));
    var g := Greedy(ps, t, x);
    if g.Some? {
      if elems == [] {
        GreedySound(ps, t, x);
        MatchesIffDenotes(elems, dollar, open, nbra, t, x, g.value);
      } else {
        var rest, open1, nbra1 := elems[1..], OpenAfter(elems[0], open), NumberAfter(elems[0], nbra);
        GoodRest(elems, open, nbra);
        CodeSafe(rest, dollar, open1, nbra1);
        CodePieces(elems, dollar, open, nbra);
        assert ps[1..] == Pieces(Code(rest, dollar));
        forall z, y ensures Matches(ps[1..], t, z, y) <==> Denotes(rest, dollar, t, z, y) {
          MatchesIffDenotes(rest, dollar, open1, nbra1, t, z, y);
        }
        var z := FirstStep(ps, elems, dollar, open, nbra, t, x);
        GreedyPrefers(rest, dollar, open1, nbra1, t, z);
      }
    }
  }

  /** The place after the first element, from which the preferred match goes on. */
  lemma FirstStep(ps: seq<Piece>, elems: seq<Elem>, dollar: bool, open: seq<int>, nbra: nat, t: seq<int>, x: Place)
    returns (z: Place)
    requires elems != [] && Good(elems, open, nbra) && IsText(t) && ps != [] && 0 <= x.at <= |t|
    requires elems[0].Rep? ==> AtomSingle(elems[0].atom).Some?
    requires ps[0] == ElemPiece(elems[0]) && Greedy(ps, t, x).Some?
    requires forall z, y :: Matches(ps[1..], t, z, y) <==> Denotes(elems[1..], dollar, t, z, y)
    ensures 0 <= z.at <= |t| && Greedy(ps[1..], t, z) == Greedy(ps, t, x)
    ensures forall y :: Preferred(elems[1..], dollar, t, z, y) ==> Preferred(elems, dollar, t, x, y)
  {
    hide AtomSingle, GoodAtom, GoodCount, IsText, PieceOf, Takes, Matches, Denotes;
    match elems[0]
    case Rep(a, n) =>
      var k := RepPrefers(a, n, ps, elems, dollar, t, x);
      z := x.Ahead(k);
    case Open(n) => z := x.Entered(n);
    case Close(n) => z := x.Left(n);
    case Ref(n) => z := x.Ahead(GroupLength(x.groups, n));
  }

  /** Where a pattern denotes a prefix it has a preferred one, and that is the one the matcher finds. */
  lemma GreedyIsPreferred(p: Pattern, t: seq<int>, x: Place, y: Place)
    requires GoodPattern(p) && IsText(t) && 0 <= x.at <= |t|
    ensures Meaningful(Code(p.elems, p.dollar))
    ensures Greedy(Pieces(Code(p.elems, p.dollar)), t, x) == Some(y) <==> Preferred(p.elems, p.dollar, t, x, y)
  {
    hide Good, Pieces, Denotes, Greedy, Code, Preferred, Matches;
    GreedyPrefers(p.elems, p.dollar, [], 0, t, x);
    var ps := Pieces(Code(p.elems, p.dollar));
    if Preferred(p.elems, p.dollar, t, x, y) {
      PreferredDenotes(p.elems, p.dollar, t, x, y);
      MatchesIffDenotes(p.elems, p.dollar, [], 0, t, x, y);
      GreedyComplete(ps, t, x, y);
      PreferredOnce(p.elems, p.dollar, t, x, y, Greedy(ps, t, x).value);
    }
  }

  // --- an interval up to 255 ---

  const SMALL_A: int := 97

  /** An `a` exactly 255 times takes 256 of them where they stand. */
  lemma TakesOneMore(p: Pattern, t: seq<int>, g: Groups)
    requires p == Pattern(false, [Rep(Char(SMALL_A), Exactly(255))], false)
    requires t == seq(256, _ => SMALL_A) + [0]
    ensures GoodPattern(p) && Meaningful(Code(p.elems, p.dollar))
    ensures Greedy(Pieces(Code(p.elems, p.dollar)), t, Place(0, g)) == Some(Place(256, g))
  {
    hide Pieces, Code, Greedy, Meaningful;
    var x, n := Place(0, g), 256;
    var y := x.Ahead(n);
    assert p.elems[1..] == [] && GoodAtom(Char(SMALL_A)) && GoodCount(Exactly(255));
    assert Good(p.elems, [], 0);
    assert IsText(t);
    assert t[n] == 0 && Takes(p.elems, false, t, x, n);
    assert Preferred(p.elems[1..], false, t, y, y);
    GreedyIsPreferred(p, t, x, y);
  }
}
