/** Runs of the position automaton, and what the sets that makeinit starts from accept. */
module AwkAutomaton {
  import opened AwkRegex
  import opened AwkPositions

  /** The set cgoto computes: everything that can follow a position of `s` that consumes `c`. */
  function Step(t: Table, s: set<Position>, c: Symbol): set<Position> {
    set p, q | p in s && 0 <= p < |t| && Consumes(t[p].leaf, c) && q in Follow(t[p].kont) :: q
  }

  function Run(t: Table, s: set<Position>, w: Word): set<Position>
    decreases |w|
  {
    if w == [] then s else Run(t, Step(t, s, w[0]), w[1..])
  }

  lemma {:induction false} RunSnoc(t: Table, s: set<Position>, w: Word, c: Symbol)
    ensures Run(t, s, w + [c]) == Step(t, Run(t, s, w), c)
    decreases |w|
  {
    if w == [] {
      assert (w + [c])[1..] == [];
    } else {
      assert (w + [c])[1..] == w[1..] + [c];
      RunSnoc(t, Step(t, s, w[0]), w[1..], c);
    }
  }

  lemma {:induction false} RunFromNowhere(t: Table, w: Word)
    ensures Run(t, {}, w) == {}
  {
    if w != [] {
      assert Step(t, {}, w[0]) == {};
      RunFromNowhere(t, w[1..]);
    }
  }

  lemma {:induction false} RunConcat(t: Table, s: set<Position>, v: Word, w: Word)
    ensures Run(t, s, v + w) == Run(t, Run(t, s, v), w)
    decreases |v|
  {
    if v == [] {
      assert v + w == w;
    } else {
      assert (v + w)[1..] == v[1..] + w;
      RunConcat(t, Step(t, s, v[0]), v[1..], w);
    }
  }

  /** The list form of a set of positions: from the largest down. */
  function Desc(s: set<Position>, n: nat): seq<Position> {
    if n == 0 then [] else (if n - 1 in s then [n - 1] else []) + Desc(s, n - 1)
  }

  lemma {:induction false} DescMembers(s: set<Position>, n: nat)
    ensures forall p :: p in Desc(s, n) <==> p in s && 0 <= p < n
  {
    if n > 0 { DescMembers(s, n - 1); }
  }

  function Elements(l: seq<Position>): set<Position> {
    set p | p in l
  }

  ghost predicate Sound(t: Table) {
    |t| > 0 && forall p :: 0 <= p < |t| ==>
      if p == |t| - 1 then t[p].leaf.Final? else !t[p].leaf.Final? && Placed(t, t[p].kont)
  }

  lemma StepInTable(t: Table, s: set<Position>, c: Symbol)
    requires Sound(t)
    ensures InStates(t, Step(t, s, c))
  {
    forall q | q in Step(t, s, c) ensures 0 <= q < |t| {
      var p :| p in s && 0 <= p < |t| && Consumes(t[p].leaf, c) && q in Follow(t[p].kont);
      FollowInTable(t, t[p].kont);
    }
  }

  /** The accepting position is reached on `w` exactly when some position of `s` may read `w`. */
  lemma {:induction false} AcceptCorrect(t: Table, s: set<Position>, w: Word)
    requires Sound(t) && InStates(t, s)
    ensures |t| - 1 in Run(t, s, w) <==> FromSome(t, s, w)
    decreases |w|
  {
    if w == [] {
      if |t| - 1 in s { assert From(t, |t| - 1, w); }
    } else {
      var s' := Step(t, s, w[0]);
      StepInTable(t, s, w[0]);
      AcceptCorrect(t, s', w[1..]);
      if FromSome(t, s, w) {
        var p :| p in s && 0 <= p < |t| && From(t, p, w);
        FollowCorrect(t, t[p].kont, w[1..]);
        var q :| q in Follow(t[p].kont) && 0 <= q < |t| && From(t, q, w[1..]);
        assert q in s';
      }
      if FromSome(t, s', w[1..]) {
        var q :| q in s' && 0 <= q < |t| && From(t, q, w[1..]);
        var p :| p in s && 0 <= p < |t| && Consumes(t[p].leaf, w[0]) && q in Follow(t[p].kont);
        FollowCorrect(t, t[p].kont, w[1..]);
        assert From(t, p, w);
      }
    }
  }

  // --- the tree ALL* r FINAL ---

  function AtEnd(r: Regex): Kont { Before(FINAL, Size(r) + 1, Done) }

  function AtPattern(r: Regex): Kont { Before(r, 1, AtEnd(r)) }

  function AtSearch(r: Regex): Kont { Loop(Atom(All), 0, AtPattern(r)) }

  /** `lfollow` of position 0: state 2 of a search that is not anchored. */
  function Start(r: Regex): set<Position> { Follow(AtSearch(r)) }

  /** State 2 of an anchored search: position 0 left out. */
  function AnchoredStart(r: Regex): set<Position> { Start(r) - {0} }

  /** The state an anchored search is in after HAT: position 0 left out here too. */
  function AnchoredInit(r: Regex): set<Position> { Step(Automaton(r), Start(r), HAT) - {0} }

  lemma {:induction false} PlacedRows(t: Table, r: Regex, b: Position, k: Kont)
    requires Holds(t, r, b, k) && NoFinal(r) && Placed(t, k)
    ensures 0 <= b && b + Size(r) <= |t|
    ensures forall p :: b <= p < b + Size(r) ==> !t[p].leaf.Final? && Placed(t, t[p].kont)
    decreases r
  {
    match r
    case Atom(_) =>
    case Star(body) => PlacedRows(t, body, b, Loop(body, b, k));
    case Plus(body) => PlacedRows(t, body, b, Loop(body, b, k));
    case Quest(body) => PlacedRows(t, body, b, k);
    case Cat(left, right) =>
      PlacedRows(t, right, b + Size(left), k);
      PlacedRows(t, left, b, Before(right, b + Size(left), k));
    case Or(left, right) =>
      PlacedRows(t, left, b, k);
      PlacedRows(t, right, b + Size(left), k);
  }

  lemma AutomatonHolds(r: Regex)
    ensures Holds(Automaton(r), Full(r), 0, Done)
  {
    hide Holds, Rows, Full;
    RowsHold([], Full(r), Done, []);
    assert [] + Rows(Full(r), 0, Done) + [] == Automaton(r);
  }

  lemma HoldsCat(t: Table, left: Regex, right: Regex, b: Position, k: Kont)
    requires Holds(t, Cat(left, right), b, k)
    ensures Holds(t, left, b, Before(right, b + Size(left), k)) && Holds(t, right, b + Size(left), k)
  {
    hide Size;
  }

  lemma HoldsStar(t: Table, body: Regex, b: Position, k: Kont)
    requires Holds(t, Star(body), b, k)
    ensures Holds(t, body, b, Loop(body, b, k))
  {
  }

  lemma HoldsAtom(t: Table, leaf: Leaf, b: Position, k: Kont)
    ensures Holds(t, Atom(leaf), b, k) <==> 0 <= b < |t| && t[b] == Row(leaf, k)
  {
  }

  lemma SearchSizes(r: Regex)
    ensures Size(Star(Atom(All))) == 1 && Size(Cat(Star(Atom(All)), r)) == 1 + Size(r)
  {
    assert Size(Star(Atom(All))) == 1;
  }

  lemma FullHolds(r: Regex)
    ensures var t := Automaton(r);
            && |t| == Size(r) + 2
            && t[0] == Row(All, AtSearch(r))
            && Holds(t, r, 1, AtEnd(r))
            && t[|t| - 1] == Row(Final, Done)
  {
    hide Automaton, Holds, Size;
    var t, search := Automaton(r), Cat(Star(Atom(All)), r);
    AutomatonHolds(r);
    SearchSizes(r);
    HoldsCat(t, search, FINAL, 0, Done);
    HoldsCat(t, Star(Atom(All)), r, 0, AtEnd(r));
    HoldsStar(t, Atom(All), 0, AtPattern(r));
    HoldsAtom(t, All, 0, AtSearch(r));
    HoldsAtom(t, Final, Size(r) + 1, Done);
  }

  lemma AutomatonSound(r: Regex)
    requires NoFinal(r)
    ensures Sound(Automaton(r))
    ensures Placed(Automaton(r), AtSearch(r)) && Placed(Automaton(r), AtPattern(r))
  {
    hide Automaton, Holds, Size, NoFinal, Placed;
    var t := Automaton(r);
    FullHolds(r);
    HoldsAtom(t, Final, |t| - 1, Done);
    HoldsAtom(t, All, 0, AtSearch(r));
    ContinuationsPlaced(t, r);
    PlacedRows(t, r, 1, AtEnd(r));
  }

  lemma ContinuationsPlaced(t: Table, r: Regex)
    requires NoFinal(r) && |t| == Size(r) + 2
    requires Holds(t, Atom(All), 0, AtSearch(r)) && Holds(t, r, 1, AtEnd(r)) && Holds(t, FINAL, |t| - 1, Done)
    ensures Placed(t, AtEnd(r)) && Placed(t, AtPattern(r)) && Placed(t, AtSearch(r))
  {
    hide Holds, Size;
    assert Placed(t, AtEnd(r));
    assert Placed(t, AtPattern(r));
  }

  /** No follow set leads out of the table. */
  ghost predicate FollowsInside(t: Table) {
    forall p :: 0 <= p < |t| - 1 ==> InStates(t, Follow(t[p].kont))
  }

  lemma NothingLeadsOut(r: Regex)
    requires NoFinal(r)
    ensures FollowsInside(Automaton(r))
  {
    var t := Automaton(r);
    AutomatonSound(r);
    forall p | 0 <= p < |t| - 1 ensures InStates(t, Follow(t[p].kont)) { FollowInTable(t, t[p].kont); }
  }

  lemma StartInTable(r: Regex)
    requires NoFinal(r)
    ensures InStates(Automaton(r), Start(r)) && 0 in Start(r)
    ensures AnchoredStart(r) == Follow(AtPattern(r))
  {
    AutomatonSound(r);
    FollowInTable(Automaton(r), AtSearch(r));
    FirstInRange(r, 1);
    FirstInRange(FINAL, Size(r) + 1);
  }

  lemma AfterPattern(r: Regex, w: Word)
    requires NoFinal(r)
    ensures After(AtPattern(r), w) <==> In(r, w)
  {
    if In(r, w) {
      assert w[..|w|] == w && w[|w|..] == [];
    }
    if After(AtPattern(r), w) {
      var i :| 0 <= i <= |w| && In(r, w[..i]) && After(AtEnd(r), w[i..]);
      assert w[..i] == w;
    }
  }

  predicate NoNul(w: Word) { forall i :: 0 <= i < |w| ==> w[i] != 0 }

  lemma {:induction false} AnySymbols(w: Word)
    ensures InStar(Atom(All), w) <==> NoNul(w)
    decreases |w|
  {
    if w != [] {
      AnySymbols(w[1..]);
      if NoNul(w) {
        assert In(Atom(All), w[..1]);
      }
      if InStar(Atom(All), w) {
        var x, y := SplitStar(Atom(All), w);
        assert w[1..] == y;
      }
    }
  }

  /** `w` is anything without NUL, up to `i`, and then a match. */
  ghost predicate MatchesFrom(r: Regex, w: Word, i: int) {
    0 <= i <= |w| && NoNul(w[..i]) && In(r, w[i..])
  }

  lemma AfterSearch(r: Regex, w: Word)
    requires NoFinal(r)
    ensures After(AtSearch(r), w) <==> exists i :: MatchesFrom(r, w, i)
  {
    if After(AtSearch(r), w) {
      var i :| 0 <= i <= |w| && InStar(Atom(All), w[..i]) && After(AtPattern(r), w[i..]);
      AnySymbols(w[..i]);
      AfterPattern(r, w[i..]);
      assert MatchesFrom(r, w, i);
    }
    if i :| MatchesFrom(r, w, i) {
      AnySymbols(w[..i]);
      AfterPattern(r, w[i..]);
    }
  }

  /** A search that is not anchored accepts after `w` exactly when `w` is anything without NUL and then a match. */
  lemma StartAccepts(r: Regex, w: Word)
    requires NoFinal(r)
    ensures Size(r) + 1 in Run(Automaton(r), Start(r), w) <==> exists i :: MatchesFrom(r, w, i)
  {
    hide Automaton, AtSearch, Follow, From, FromSome, After, Run, Sound, Placed, InStates, MatchesFrom, Size, NoFinal;
    AutomatonSound(r);
    StartInTable(r);
    AcceptCorrect(Automaton(r), Start(r), w);
    FollowCorrect(Automaton(r), AtSearch(r), w);
    AfterSearch(r, w);
  }

  /** An anchored search in state 2 accepts after `w` exactly when `w` matches. */
  lemma AnchoredStartAccepts(r: Regex, w: Word)
    requires NoFinal(r)
    ensures Size(r) + 1 in Run(Automaton(r), AnchoredStart(r), w) <==> In(r, w)
  {
    hide Automaton, AnchoredStart, AtPattern, Follow, From, FromSome, After, Run, Sound, Placed, InStates, In, Size,
         NoFinal;
    var t := Automaton(r);
    AutomatonSound(r);
    StartInTable(r);
    FollowInTable(t, AtPattern(r));
    AcceptCorrect(t, AnchoredStart(r), w);
    FollowCorrect(t, AtPattern(r), w);
    AfterPattern(r, w);
  }

  lemma AnchoredInitIs(r: Regex)
    requires NoFinal(r)
    ensures AnchoredInit(r) == AnchoredStart(r) + Step(Automaton(r), AnchoredStart(r), HAT)
  {
    var t, s, s0 := Automaton(r), Start(r), AnchoredStart(r);
    FullHolds(r);
    AutomatonSound(r);
    StartInTable(r);
    forall q | q in Step(t, s, HAT) && q != 0 ensures q in s0 + Step(t, s0, HAT) {
      var p :| p in s && 0 <= p < |t| && Consumes(t[p].leaf, HAT) && q in Follow(t[p].kont);
      if p != 0 { assert p in s0; }
    }
    forall q | q in s0 ensures q in Step(t, s, HAT) {
      assert Consumes(t[0].leaf, HAT) && q in Follow(t[0].kont);
    }
    forall q | q in Step(t, s0, HAT) ensures q in Step(t, s, HAT) && q != 0 {
      var p :| p in s0 && 0 <= p < |t| && Consumes(t[p].leaf, HAT) && q in Follow(t[p].kont);
      OnlySearchFollowsSearch(r, p);
    }
  }

  /** Position 0 comes after position 0 only. */
  lemma OnlySearchFollowsSearch(r: Regex, p: Position)
    requires NoFinal(r) && 0 < p < Size(r) + 2
    ensures 0 !in Follow(Automaton(r)[p].kont)
  {
    FullHolds(r);
    if p < Size(r) + 1 {
      FirstInRange(FINAL, Size(r) + 1);
      LaterRows(Automaton(r), r, 1, AtEnd(r));
    }
  }

  lemma {:induction false} LaterRows(t: Table, r: Regex, b: Position, k: Kont)
    requires Holds(t, r, b, k) && b > 0 && 0 !in Follow(k)
    ensures b + Size(r) <= |t| && forall p :: b <= p < b + Size(r) ==> 0 !in Follow(t[p].kont)
    decreases r
  {
    FirstInRange(r, b);
    match r
    case Atom(_) =>
    case Star(body) => FirstInRange(body, b); LaterRows(t, body, b, Loop(body, b, k));
    case Plus(body) => FirstInRange(body, b); LaterRows(t, body, b, Loop(body, b, k));
    case Quest(body) => LaterRows(t, body, b, k);
    case Cat(left, right) =>
      FirstInRange(right, b + Size(left));
      LaterRows(t, left, b, Before(right, b + Size(left), k));
      LaterRows(t, right, b + Size(left), k);
    case Or(left, right) =>
      LaterRows(t, left, b, k);
      LaterRows(t, right, b + Size(left), k);
  }

  lemma {:induction false} RunUnion(t: Table, s: set<Position>, s': set<Position>, w: Word)
    ensures Run(t, s + s', w) == Run(t, s, w) + Run(t, s', w)
    decreases |w|
  {
    if w != [] {
      assert Step(t, s + s', w[0]) == Step(t, s, w[0]) + Step(t, s', w[0]);
      RunUnion(t, Step(t, s, w[0]), Step(t, s', w[0]), w[1..]);
    }
  }

  /** An anchored search that has read HAT accepts after `w` exactly when `w` matches, with or
      without HAT in front. */
  lemma AnchoredInitAccepts(r: Regex, w: Word)
    requires NoFinal(r)
    ensures Size(r) + 1 in Run(Automaton(r), AnchoredInit(r), w) <==> In(r, w) || In(r, [HAT] + w)
  {
    var t, s0 := Automaton(r), AnchoredStart(r);
    AnchoredInitIs(r);
    RunUnion(t, s0, Step(t, s0, HAT), w);
    AnchoredStartAccepts(r, w);
    AnchoredStartAccepts(r, [HAT] + w);
    assert ([HAT] + w)[1..] == w;
  }
}
