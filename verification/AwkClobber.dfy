/** A search that cmd/awk/b.c gets wrong: the expression aaaaaaaaaaaaaa|cc and the subject
    aaaaaaaaaaaaabcc, in which cc is there to be found.  The thirteen a fill the table, b leads back
    to state 2, and c leaves state 2 for a list that is not in the table. */
module AwkClobber {
  import opened AwkRegex
  import opened AwkPositions
  import opened AwkAutomaton
  import opened AwkCache
  import opened AwkSearch
  import opened AwkFound

  const A: Symbol := 97
  const B: Symbol := 98
  const C: Symbol := 99

  /** The number of a; a constant the verifier is not to count down from. */
  const LENGTH: nat := 14

  function As(n: nat): Regex
    requires n > 0
  {
    if n == 1 then Atom(Chr(A)) else Cat(As(n - 1), Atom(Chr(A)))
  }

  function CC(): Regex { Cat(Atom(Chr(C)), Atom(Chr(C))) }

  function Pattern(n: nat): Regex
    requires n > 0
  {
    Or(As(n), CC())
  }

  function Repeat(n: nat): Word { seq(n, _ => A) }

  function Rest(): Word { [B, C, C, 0] }

  function Subject(): Word { Repeat(13) + Rest() }

  /** The positions: 0 for ALL, 1 to 14 for the a, 15 and 16 for the c, 17 for FINAL. */
  ghost predicate Layout(t: Table) {
    && |t| == 18 && t[0].leaf == All
    && Follow(t[0].kont) == {0, 1, 15}
    && (forall i :: 1 <= i <= 14 ==> t[i].leaf == Chr(A) && Follow(t[i].kont) == {if i < 14 then i + 1 else 17})
    && t[15].leaf == Chr(C) && Follow(t[15].kont) == {16}
    && t[16].leaf == Chr(C) && Follow(t[16].kont) == {17}
    && t[17].leaf == Final
  }

  lemma {:induction false} AsSize(n: nat)
    requires n > 0
    ensures Size(As(n)) == n && !Nullable(As(n)) && NoFinal(As(n))
  {
    if n > 1 { AsSize(n - 1); }
  }

  lemma {:induction false} AsFirst(n: nat, b: Position)
    requires n > 0
    ensures First(As(n), b) == {b}
  {
    if n > 1 { AsFirst(n - 1, b); AsSize(n - 1); }
  }

  lemma {:induction false} AsRow(t: Table, n: nat, b: Position, k: Kont, p: Position)
    requires 0 < n && Holds(t, As(n), b, k) && b <= p < b + n
    ensures 0 <= p < |t|
    ensures t[p].leaf == Chr(A) && Follow(t[p].kont) == if p < b + n - 1 then {p + 1} else Follow(k)
    decreases n
  {
    hide As, Holds, Follow, First, Size;
    if n > 1 {
      AsHolds(t, n, b, k);
      FollowAtom(Chr(A), b + n - 1, k);
      if p < b + n - 1 {
        AsRow(t, n - 1, b, Before(Atom(Chr(A)), b + n - 1, k), p);
      } else {
        AtomRow(t, Chr(A), p, k);
      }
    } else {
      OneA();
      AtomRow(t, Chr(A), b, k);
    }
  }

  lemma OneA()
    ensures As(1) == Atom(Chr(A))
  {
  }

  lemma AsHolds(t: Table, n: nat, b: Position, k: Kont)
    requires n > 1 && Holds(t, As(n), b, k)
    ensures Holds(t, As(n - 1), b, Before(Atom(Chr(A)), b + n - 1, k)) && Holds(t, Atom(Chr(A)), b + n - 1, k)
  {
    hide Size;
    AsSize(n - 1);
  }

  lemma FollowAtom(leaf: Leaf, b: Position, k: Kont)
    requires !IsEmptyClass(leaf)
    ensures Follow(Before(Atom(leaf), b, k)) == {b}
  {
  }

  lemma AtomRow(t: Table, leaf: Leaf, b: Position, k: Kont)
    requires Holds(t, Atom(leaf), b, k)
    ensures 0 <= b < |t| && t[b] == Row(leaf, k)
  {
  }

  lemma PatternLayout(n: nat)
    requires n == 14
    ensures var r := Pattern(n); NoFinal(r) && Layout(Automaton(r)) && Searchable(Automaton(r))
  {
    var r := Pattern(n);
    AsSize(n);
    FirstCC(n + 1);
    FullHolds(r);
    AutomatonSearchable(r);
    PatternFollow(n);
    LayoutFrom(Automaton(r), n, AtEnd(r));
  }

  lemma LayoutFrom(t: Table, n: nat, end: Kont)
    requires n == 14 && |t| == 18 && t[0].leaf == All && Follow(t[0].kont) == {0, 1, n + 1}
    requires Holds(t, Or(As(n), CC()), 1, end) && Follow(end) == {17} && t[17].leaf == Final
    ensures Layout(t)
  {
    AsSize(n);
    assert Holds(t, As(n), 1, end) && Holds(t, CC(), 1 + n, end);
    hide Holds, First, Nullable, Size, As, Follow;
    CCRows(t, end);
    forall p | 1 <= p <= 14 ensures t[p].leaf == Chr(A) && Follow(t[p].kont) == {if p < 14 then p + 1 else 17} {
      AsRow(t, n, 1, end, p);
    }
  }

  lemma PatternFollow(n: nat)
    requires n > 0
    ensures var r := Pattern(n); Follow(AtSearch(r)) == {0, 1, n + 1} && Follow(AtEnd(r)) == {Size(r) + 1}
  {
    hide First, Pattern, Size, Nullable;
    var r := Pattern(n);
    FirstPattern(n);
    FollowAtom(Final, Size(r) + 1, Done);
    FollowSearch(r, AtEnd(r));
  }

  lemma FirstPattern(n: nat)
    requires n > 0
    ensures First(Pattern(n), 1) == {1, n + 1} && !Nullable(Pattern(n))
  {
    hide As, CC;
    AsFirst(n, 1);
    AsSize(n);
    FirstCC(n + 1);
  }

  lemma FirstCC(b: Position)
    ensures First(CC(), b) == {b} && !Nullable(CC()) && Size(CC()) == 2 && NoFinal(CC())
  {
  }

  lemma FollowSearch(r: Regex, end: Kont)
    requires !Nullable(r)
    ensures Follow(Loop(Atom(All), 0, Before(r, 1, end))) == {0} + First(r, 1)
  {
    assert Follow(Before(r, 1, end)) == First(r, 1);
    assert First(Atom(All), 0) == {0};
  }

  lemma CCRows(t: Table, k: Kont)
    requires Holds(t, CC(), 15, k)
    ensures |t| >= 17
    ensures t[15].leaf == Chr(C) && Follow(t[15].kont) == {16}
    ensures t[16].leaf == Chr(C) && Follow(t[16].kont) == Follow(k)
  {
    assert Holds(t, Atom(Chr(C)), 15, Before(Atom(Chr(C)), 16, k));
  }

  /** The set after j times a. */
  ghost function S(j: int): set<Position> { set i: Position | 0 <= i < 18 && InS(i, j) }

  predicate InS(i: Position, j: int) { 0 <= i <= j + 1 || i == 15 }

  ghost function T(): set<Position> { {0, 1, 15, 16} }

  lemma InStep(t: Table, s: set<Position>, c: Symbol, p: Position, q: Position)
    requires p in s && 0 <= p < |t| && Consumes(t[p].leaf, c) && q in Follow(t[p].kont)
    ensures q in Step(t, s, c)
  {
  }

  lemma FromStep(t: Table, s: set<Position>, c: Symbol, q: Position) returns (p: Position)
    requires q in Step(t, s, c)
    ensures p in s && 0 <= p < |t| && Consumes(t[p].leaf, c) && q in Follow(t[p].kont)
  {
    p :| p in s && 0 <= p < |t| && Consumes(t[p].leaf, c) && q in Follow(t[p].kont);
  }

  lemma StepsOnA(t: Table, j: int)
    requires Layout(t) && 0 <= j < 13
    ensures Step(t, S(j), A) == S(j + 1)
  {
    hide Follow, Step;
    forall q | q in S(j + 1) ensures q in Step(t, S(j), A) {
      InStep(t, S(j), A, if q <= 1 || q == 15 then 0 else q - 1, q);
    }
    forall q | q in Step(t, S(j), A) ensures q in S(j + 1) {
      var p := FromStep(t, S(j), A, q);
    }
  }

  /** On a symbol that is not in the pattern only ALL moves. */
  lemma StepsOnOther(t: Table, j: int, c: Symbol)
    requires Layout(t) && 0 <= j <= 13 && c != A && c != C && c != 0
    ensures Step(t, S(j), c) == S(0)
  {
    hide Follow, Step;
    forall q | q in S(0) ensures q in Step(t, S(j), c) {
      InStep(t, S(j), c, 0, q);
    }
    forall q | q in Step(t, S(j), c) ensures q in S(0) {
      var p := FromStep(t, S(j), c, q);
    }
  }

  lemma StepsOnC(t: Table)
    requires Layout(t)
    ensures Step(t, S(0), C) == T()
  {
    hide Follow, Step;
    forall q | q in Step(t, S(0), C) ensures q in T() {
      var p := FromStep(t, S(0), C, q);
    }
    forall q | q in T() ensures q in Step(t, S(0), C) {
      InStep(t, S(0), C, if q == 16 then 15 else 0, q);
    }
  }

  lemma StepsOnNul(t: Table)
    requires Layout(t)
    ensures Step(t, T(), 0) == {}
  {
    hide Follow, Step;
    forall q | q in Step(t, T(), 0) ensures false {
      var p := FromStep(t, T(), 0, q);
    }
  }

  // --- the lists the run goes through ---

  ghost function L(t: Table, j: int): List { Desc(S(j), |t|) }

  ghost function LT(t: Table): List { Desc(T(), |t|) }

  ghost predicate Lists(t: Table) {
    |t| == 18 && OnA(t) && OnB(t) && Distinct(t) && OnRest(t)
  }

  ghost predicate OnA(t: Table) {
    forall j {:trigger Next(t, L(t, j), A)} :: 0 <= j < 13 ==> Next(t, L(t, j), A) == L(t, j + 1)
  }

  ghost predicate OnB(t: Table) {
    forall j :: 0 <= j <= 13 ==>
      Next(t, L(t, j), B) == L(t, 0) && L(t, j) != [] && 17 !in L(t, j) && L(t, j) != LT(t)
  }

  ghost predicate Distinct(t: Table) {
    forall i, j :: 0 <= i < j <= 13 ==> L(t, i) != L(t, j)
  }

  ghost predicate OnRest(t: Table) {
    && Next(t, L(t, 0), HAT) == L(t, 0) && Next(t, L(t, 0), C) == LT(t)
    && Next(t, LT(t), 0) == [] && 17 !in LT(t) && Next(t, LT(t), C) != LT(t)
  }

  lemma ListFacts(t: Table, j: int)
    requires |t| == 18 && 0 <= j <= 13
    ensures Elements(L(t, j)) == S(j) && L(t, j) != [] && 17 !in L(t, j)
  {
    hide Desc;
    ElementsOfDesc(S(j), |t|);
    assert 0 in S(j) && 17 !in S(j);
    assert 0 in Elements(L(t, j)) && 17 !in Elements(L(t, j));
  }

  lemma LTFacts(t: Table)
    requires |t| == 18
    ensures Elements(LT(t)) == T() && 17 !in LT(t)
  {
    hide Desc;
    ElementsOfDesc(T(), |t|);
    assert 17 !in Elements(LT(t));
  }

  lemma NextOnA(t: Table, j: int)
    requires Layout(t) && 0 <= j < 13
    ensures Next(t, L(t, j), A) == L(t, j + 1)
  {
    ListFacts(t, j);
    StepsOnA(t, j);
  }

  lemma NextOnOther(t: Table, j: int, c: Symbol)
    requires Layout(t) && 0 <= j <= 13 && c != A && c != C && c != 0
    ensures Next(t, L(t, j), c) == L(t, 0)
  {
    ListFacts(t, j);
    StepsOnOther(t, j, c);
  }

  lemma ListsDiffer(t: Table, i: int, j: int)
    requires |t| == 18 && 0 <= i < j <= 13
    ensures L(t, i) != L(t, j)
  {
    ListFacts(t, i);
    ListFacts(t, j);
    // at j = 13 position 14 is in S(j) and not in S(i)
    assert j + 1 in S(j) && j + 1 !in S(i);
  }

  lemma ListsOnA(t: Table)
    requires Layout(t)
    ensures OnA(t)
  {
    hide L, Next, Layout;
    forall j | 0 <= j < 13 ensures Next(t, L(t, j), A) == L(t, j + 1) { NextOnA(t, j); }
  }

  lemma ListsOnB(t: Table)
    requires Layout(t)
    ensures OnB(t)
  {
    assert |t| == 18;
    hide L, LT, Next, Layout;
    LTFacts(t);
    forall j | 0 <= j <= 13
      ensures Next(t, L(t, j), B) == L(t, 0) && L(t, j) != [] && 17 !in L(t, j) && L(t, j) != LT(t)
    {
      NextOnOther(t, j, B);
      ListFacts(t, j);
      assert 16 in T() && 16 !in S(j);
    }
  }

  lemma ListsHold(t: Table)
    requires Layout(t)
    ensures Lists(t)
  {
    assert |t| == 18;
    hide L, LT, Next, Layout, OnA, OnB;
    ListsOnA(t);
    ListsOnB(t);
    forall i, j | 0 <= i < j <= 13 ensures L(t, i) != L(t, j) { ListsDiffer(t, i, j); }
    NextOnOther(t, 0, HAT);
    LTFacts(t);
    NextOnC(t);
  }

  lemma NextOnC(t: Table)
    requires Layout(t)
    ensures |t| == 18 && Next(t, L(t, 0), C) == LT(t) && Next(t, LT(t), 0) == [] && Next(t, LT(t), C) != LT(t)
  {
    ListFacts(t, 0);
    LTFacts(t);
    StepsOnC(t);
    StepsOnNul(t);
    DescOfNone(|t|);
    NextOnCC(t);
  }

  lemma NextOnCC(t: Table)
    requires Layout(t)
    ensures |t| == 18 && Next(t, LT(t), C) != LT(t)
  {
    LTFacts(t);
    InStep(t, T(), C, 16, 17);
    DescMembers(Step(t, T(), C), |t|);
    hide Desc, Step, T;
    assert 17 in Next(t, LT(t), C);
  }

  // --- the run ---

  /** What cgoto does with a list that no state has. */
  lemma GotoNew(t: Table, k: Cache, s: int, c: Symbol, next: List)
    requires Shape(t, k) && 1 <= s <= k.curstat && 0 <= c < NCHARS && k.tab[s][c] == 0
    requires Next(t, k.posns[s], c) == next && forall i :: 1 <= i <= k.curstat ==> k.posns[i] != next
    ensures var (k', n) := Goto(t, k, s, c);
            && n == (if k.curstat == NSTATES - 1 then 2 else k.curstat + 1)
            && Shape(t, k') && k'.curstat == n && k'.posns == k.posns[n := next]
            && k'.out == k.out[n := |t| - 1 in next]
            && k'.reset == (k.reset || k.curstat == NSTATES - 1)
            && (forall q, d :: 1 <= q <= n && 0 <= d < NCHARS ==>
                 k'.tab[q][d] == if q == s && d == c then n else if q == n then 0 else k.tab[q][d])
  {
    CgotoShape(t, k, s, c);
  }

  /** And with one that state `i` has. */
  lemma GotoOld(t: Table, k: Cache, s: int, c: Symbol, next: List, i: int)
    requires Shape(t, k) && 1 <= s <= k.curstat && 0 <= c < NCHARS && k.tab[s][c] == 0
    requires Next(t, k.posns[s], c) == next && 1 <= i <= k.curstat && k.posns[i] == next
    requires forall j :: 1 <= j < i ==> k.posns[j] != next
    ensures var (k', n) := Goto(t, k, s, c);
            && n == i && Shape(t, k') && k'.curstat == k.curstat && k'.posns == k.posns && k'.out == k.out
            && (forall q, d :: 1 <= q <= k.curstat && 0 <= d < NCHARS ==>
                 k'.tab[q][d] == if q == s && d == c then i else k.tab[q][d])
  {
    FindIs(k.posns, next, 1, k.curstat, i);
    CgotoShape(t, k, s, c);
  }

  lemma {:induction false} FindIs(posns: seq<List>, l: List, i: int, n: int, j: int)
    requires 0 < i <= j <= n < |posns| && posns[j] == l
    requires forall q :: i <= q < j ==> posns[q] != l
    ensures Find(posns, l, i, n) == j
    decreases j - i
  {
    if i < j { FindIs(posns, l, i + 1, n, j); }
  }

  /** The cache after j times a: states 2 to 2 + j hold the lists reached, and nothing is known yet
      but the transitions on a between them. */
  ghost predicate Filled(t: Table, k: Cache, j: int) {
    && Lists(t) && Shape(t, k) && 0 <= j <= 13 && k.curstat == 2 + j
    && (forall i :: 2 <= i <= 2 + j ==> k.posns[i] == L(t, i - 2))
    && (forall i :: 2 <= i <= 2 + j ==> k.tab[i][0] == 0 && k.tab[i][B] == 0 && k.tab[i][C] == 0)
    && k.tab[2 + j][A] == 0
  }

  /** One more a. */
  lemma FillMore(t: Table, k: Cache, j: int)
    requires Filled(t, k, j) && j < 13
    ensures var (k', s') := Goto(t, k, 2 + j, A);
            s' == 3 + j && Filled(t, k', j + 1) && !k'.out[s']
  {
    hide L, LT, Next, Goto, IsList;
    assert forall i :: 1 <= i <= 2 + j ==> k.posns[i] != L(t, j + 1);
    GotoNew(t, k, 2 + j, A, L(t, j + 1));
  }

  lemma FilledShape(t: Table, k: Cache, j: int)
    requires Filled(t, k, j)
    ensures Shape(t, k) && Sized(k) && 0 <= j <= 13 && k.curstat == 2 + j
  {
  }

  lemma OneMoreA(n: nat, w: Word)
    requires AllBytes(w)
    ensures AllBytes(Repeat(n) + w) && (n == 0 ==> Repeat(n) + w == w)
    ensures n > 0 ==> Repeat(n) + w != [] && (Repeat(n) + w)[0] == A && (Repeat(n) + w)[1..] == Repeat(n - 1) + w
  {
  }

  lemma {:induction false} Fill(t: Table, k: Cache, j: int, w: Word) returns (k': Cache)
    requires Filled(t, k, j) && AllBytes(w)
    ensures Filled(t, k', 13)
    ensures AllBytes(Repeat(13 - j) + w)
    ensures MatchLoop(t, k, 2 + j, Repeat(13 - j) + w) == MatchLoop(t, k', 15, w)
    decreases 13 - j
  {
    hide L, LT, Next, Goto, IsList, Lists, Filled, Shape, Repeat;
    FilledShape(t, k, j);
    OneMoreA(13 - j, w);
    if j == 13 {
      k' := k;
    } else {
      FillMore(t, k, j);
      FilledShape(t, Goto(t, k, 2 + j, A).0, j + 1);
      k' := Fill(t, Goto(t, k, 2 + j, A).0, j + 1, w);
    }
  }

  /** After b, from the full table, the search is back in state 2. */
  ghost predicate Back(t: Table, k: Cache) {
    && Lists(t) && Shape(t, k) && k.curstat == 15 && k.tab[2][C] == 0
    && (forall i :: 2 <= i <= 15 ==> k.posns[i] == L(t, i - 2))
  }

  lemma AfterB(t: Table, k: Cache)
    requires Filled(t, k, 13)
    ensures var (k', s') := Goto(t, k, 15, B); s' == 2 && Back(t, k') && !k'.out[2]
  {
    hide L, LT, Next, Goto, IsList;
    GotoOld(t, k, 15, B, L(t, 0), 2);
  }

  /** After c the new state 2 claims to stay where it is on c. */
  ghost predicate Broken(t: Table, k: Cache) {
    && Lists(t) && Shape(t, k) && k.curstat == 2 && !k.out[2] && k.posns[2] == LT(t)
    && k.tab[2][C] == 2 && k.tab[2][0] == 0
  }

  lemma AfterC(t: Table, k: Cache)
    requires Back(t, k)
    ensures var (k', s') := Goto(t, k, 2, C); s' == 2 && Broken(t, k')
  {
    hide L, LT, Next, Goto, IsList, Desc;
    NoStateHasLT(t, k);
    assert Next(t, k.posns[2], C) == LT(t) && |t| - 1 !in LT(t);
    GotoNew(t, k, 2, C, LT(t));
  }

  /** That step is the one that clobbers the table. */
  lemma ClobberHere(t: Table, k: Cache)
    requires Back(t, k)
    ensures Clobbers(t, k, 2, C)
  {
    hide L, LT, Next, Goto, IsList, Desc;
    NoStateHasLT(t, k);
    assert Next(t, k.posns[2], C) == LT(t) && Next(t, LT(t), C) != LT(t);
  }

  lemma NoStateHasLT(t: Table, k: Cache)
    requires Back(t, k)
    ensures forall i :: 1 <= i <= 15 ==> k.posns[i] != LT(t)
  {
    hide L, LT, Next, IsList, Desc;
    LTNotEmpty(t);
  }

  lemma LTNotEmpty(t: Table)
    requires |t| == 18
    ensures LT(t) != []
  {
    LTFacts(t);
    assert 0 in T();
  }

  lemma {:induction false} SkipSame(t: Table, k: Cache, w: Word)
    requires Broken(t, k) && AllBytes(w) && w != [] && w[0] == C
    ensures MatchLoop(t, k, 2, w) == MatchLoop(t, k, 2, w[1..])
  {
  }

  lemma NulFails(t: Table, k: Cache, w: Word)
    requires Broken(t, k) && w == [0]
    ensures AllBytes(w) && !MatchLoop(t, k, 2, w).1
  {
    hide L, LT, Next, Goto, IsList;
    GotoOld(t, k, 2, 0, [], 1);
    var (k', s') := Goto(t, k, 2, 0);
    GotoShape(t, k, 2, 0);
    assert !k'.out[1];
    assert w[1..] == [];
  }

  lemma RestFails(t: Table, k: Cache, w: Word)
    requires Filled(t, k, 13) && w == Rest()
    ensures AllBytes(w) && !MatchLoop(t, k, 15, w).1
  {
    hide L, LT, Next, Goto, IsList, Lists;
    AfterB(t, k);
    var (k1, s1) := Goto(t, k, 15, B);
    AfterC(t, k1);
    var (k2, s2) := Goto(t, k1, 2, C);
    var w1 := w[1..];
    var w2 := w1[1..];
    assert w1 == [C, C, 0] && w2 == [C, 0];
    assert MatchLoop(t, k, 15, w) == MatchLoop(t, k1, 2, w1);
    assert MatchLoop(t, k1, 2, w1) == MatchLoop(t, k2, 2, w2);
    SkipSame(t, k2, w2);
    NulFails(t, k2, w2[1..]);
  }

  /** HAT leads from the start to itself. */
  lemma HatStays(t: Table, k: Cache)
    requires Lists(t) && Shape(t, k) && k.curstat == 2 && k.posns[2] == L(t, 0)
    requires forall c :: 0 <= c < NCHARS ==> k.tab[2][c] == 0
    ensures var (k', s) := Goto(t, k, 2, HAT); s == 2 && Filled(t, k', 0) && !k'.out[2]
  {
    hide L, Next, Desc, S;
    GotoOld(t, k, 2, HAT, L(t, 0), 2);
  }

  lemma MakeinitIsGoto(t: Table, k: Cache)
    requires Searchable(t) && Shape(t, k)
    ensures var k0 := Restarted(t, k);
            && Shape(t, k0) && k0.curstat == 2 && k0.posns[2] == StartList(t, false)
            && (forall c :: 0 <= c < NCHARS ==> k0.tab[2][c] == 0)
            && var (k', s) := Goto(t, k0, 2, HAT); Makeinit(t, k, false) == k'.(curstat := s)
  {
    hide Cgoto, Searchable, Sound, IsList;
    RestartedShape(t, k);
  }

  lemma InitFilled(t: Table, k: Cache)
    requires Lists(t) && Searchable(t) && Shape(t, k) && StartList(t, false) == L(t, 0)
    ensures var k' := Makeinit(t, k, false); Filled(t, k', 0) && !k'.out[2]
  {
    hide Lists, Goto, Restarted, Makeinit, L, StartList, IsList, Sound;
    MakeinitIsGoto(t, k);
    HatStays(t, Restarted(t, k));
  }

  lemma StartsFilled(t: Table)
    requires Layout(t) && Searchable(t)
    ensures var k := Makedfa(t, false); Filled(t, k, 0) && k.initstat == 2 && !k.reset && !k.out[2]
  {
    ListsHold(t);
    StartIsL(t);
    BlankShape(t);
    hide L, LT, Next, IsList, Layout, Searchable, Lists, Makeinit, Blank, StartList;
    InitFilled(t, Blank());
  }

  lemma StartIsL(t: Table)
    requires Layout(t)
    ensures |t| > 0 && StartList(t, false) == L(t, 0)
  {
    hide Desc;
    assert S(0) == {0, 1, 15};
  }

  /** makedfa and match on this expression and this subject: match returns 0, and there is a match. */
  lemma MatchMissesMatch()
    ensures var r := Pattern(LENGTH); NoFinal(r) && Searchable(Automaton(r)) && IsSubject(Subject())
    ensures var r := Pattern(LENGTH); HasMatch(r, [HAT] + Subject())
    ensures var t := Automaton(Pattern(LENGTH)); !Match(t, Makedfa(t, false), Subject()).1
  {
    var n := LENGTH;
    PatternLayout(n);
    SubjectHasMatch(n);
    hide Automaton, Pattern, Layout;
    RunFails(Automaton(Pattern(n)), Subject());
  }

  /** So the run takes a step that harms. */
  lemma RunHarms()
    ensures var t := Automaton(Pattern(LENGTH));
            Searchable(t) && IsSubject(Subject()) && !MatchRunHarmless(t, Makedfa(t, false), Subject())
  {
    MatchMissesMatch();
    hide Automaton, Pattern, As, HasMatch, MatchRunHarmless, Makedfa;
    var r := Pattern(LENGTH);
    if MatchRunHarmless(Automaton(r), Makedfa(Automaton(r), false), Subject()) {
      MatchCorrect(r, Makedfa(Automaton(r), false), Subject());
    }
  }

  lemma RunFails(t: Table, w: Word)
    requires Layout(t) && Searchable(t) && w == Subject()
    ensures IsSubject(w) && !Match(t, Makedfa(t, false), w).1
  {
    hide Layout, Searchable, Lists, Makedfa, MatchLoop, L, LT, Next, IsList, RowsOk, Initial;
    StartsFilled(t);
    var k := Makedfa(t, false);
    var rest := Rest();
    assert AllBytes(rest) && IsSubject(w);
    var k' := Fill(t, k, 0, rest);
    RestFails(t, k', rest);
  }

  lemma CCMatches(n: nat)
    requires n > 0
    ensures In(Pattern(n), [C, C])
  {
    hide As;
    assert [C] + [C] == [C, C];
    assert In(Atom(Chr(C)), [C]);
    CatIntro(Atom(Chr(C)), Atom(Chr(C)), [C], [C]);
    assert In(CC(), [C, C]);
  }

  lemma SubjectHasMatch(n: nat)
    requires n > 0
    ensures HasMatch(Pattern(n), [HAT] + Subject())
  {
    hide In, Pattern;
    var w := [HAT] + Subject();
    CCMatches(n);
    assert w[15..17] == [C, C];
  }
}
