/** The subject of AwkClobber, searched with pmatch and nematch of cmd/awk/b.c.  The first start fills
    the table with the pieces of aaaaaaaaaaaaaa, the next ones find everything in it, and at the first c
    the start itself, which is state 2, is left for a list that is not in the table. */
module AwkMisses {
  import opened AwkRegex
  import opened AwkPositions
  import opened AwkAutomaton
  import opened AwkCache
  import opened AwkSearch
  import opened AwkFound
  import opened AwkClobber

  /** The positions after j times a, and the one after c. */
  ghost function P(j: int): set<Position> { if j == 0 then {1, 15} else {j + 1} }

  ghost function Row(t: Table, j: int): List { Desc(P(j), |t|) }

  ghost function RowC(t: Table): List { Desc({16}, |t|) }

  ghost predicate Rows(t: Table) {
    && |t| == 18
    && (forall j {:trigger Next(t, Row(t, j), A)} :: 0 <= j < 13 ==> Next(t, Row(t, j), A) == Row(t, j + 1))
    && (forall j :: 0 <= j <= 13 ==> RowOk(t, j))
    && (forall i, j :: 0 <= i < j <= 13 ==> Row(t, i) != Row(t, j))
    && CRows(t)
    && StartList(t, true) == Row(t, 0) && InitList(t, true) == Row(t, 0)
  }

  ghost predicate RowOk(t: Table, j: int)
    requires |t| == 18
  {
    Next(t, Row(t, j), B) == [] && Row(t, j) != [] && 17 !in Row(t, j) && Row(t, j) != RowC(t)
  }

  ghost predicate CRows(t: Table)
    requires |t| == 18
  {
    && Next(t, Row(t, 0), C) == RowC(t) && Next(t, Row(t, 0), 0) == []
    && Next(t, RowC(t), 0) == [] && 17 !in RowC(t) && RowC(t) != [] && Next(t, RowC(t), C) != RowC(t)
  }

  lemma PList(t: Table, s: set<Position>)
    requires |t| == 18 && forall p :: p in s ==> 0 <= p < 17
    ensures Elements(Desc(s, |t|)) == s && 17 !in Desc(s, |t|) && (s != {} ==> Desc(s, |t|) != [])
  {
    ElementsOfDesc(s, |t|);
    hide Desc;
    assert 17 !in Elements(Desc(s, |t|));
    if p :| p in s { assert p in Elements(Desc(s, |t|)); }
  }

  lemma NextIs(t: Table, s: set<Position>, c: Symbol, s': set<Position>)
    requires |t| == 18 && (forall p :: p in s ==> 0 <= p < 17) && Step(t, s, c) == s'
    ensures Next(t, Desc(s, |t|), c) == Desc(s', |t|)
    ensures s' == {} ==> Next(t, Desc(s, |t|), c) == []
  {
    PList(t, s);
    DescOfNone(|t|);
  }

  lemma StepA(t: Table, j: int)
    requires Layout(t) && 0 <= j < 13
    ensures Step(t, P(j), A) == P(j + 1)
  {
    hide Follow, Step;
    InStep(t, P(j), A, j + 1, j + 2);
    forall q | q in Step(t, P(j), A) ensures q in P(j + 1) {
      var p := FromStep(t, P(j), A, q);
    }
  }

  /** Nothing in the pattern reads B or the NUL, and after an a only another a goes on. */
  lemma StepNowhere(t: Table, s: set<Position>, c: Symbol)
    requires Layout(t) && (forall p :: p in s ==> 1 <= p <= 16) && c != A && c != C
    ensures Step(t, s, c) == {}
  {
    hide Follow, Step;
    forall q | q in Step(t, s, c) ensures false {
      var p := FromStep(t, s, c, q);
    }
  }

  lemma StepC(t: Table)
    requires Layout(t)
    ensures Step(t, P(0), C) == {16} && Step(t, {16}, C) == {17}
  {
    hide Follow, Step;
    InStep(t, P(0), C, 15, 16);
    InStep(t, {16}, C, 16, 17);
    forall q | q in Step(t, P(0), C) ensures q == 16 {
      var p := FromStep(t, P(0), C, q);
    }
    forall q | q in Step(t, {16}, C) ensures q == 17 {
      var p := FromStep(t, {16}, C, q);
    }
  }

  lemma StartIsRow(t: Table)
    requires Layout(t)
    ensures |t| > 0 && StartList(t, true) == Row(t, 0) && InitList(t, true) == Row(t, 0)
  {
    hide Desc, Step;
    StepsOnOther(t, 0, HAT);
    assert S(0) == {0, 1, 15} && StartSet(t) == S(0);
    assert S(0) - {0} == P(0);
  }

  lemma CRowsHold(t: Table)
    requires Layout(t)
    ensures |t| == 18 && CRows(t)
  {
    hide Desc, Next, Step;
    StepC(t);
    NextIs(t, P(0), C, {16});
    StepNowhere(t, P(0), 0);
    NextIs(t, P(0), 0, {});
    StepNowhere(t, {16}, 0);
    NextIs(t, {16}, 0, {});
    NextIs(t, {16}, C, {17});
    PList(t, {16});
    ElementsOfDesc({17}, |t|);
    assert 17 in Elements(Desc({17}, |t|));
  }

  lemma RowHolds(t: Table, j: int)
    requires Layout(t) && 0 <= j <= 13
    ensures |t| == 18 && RowOk(t, j) && Elements(Row(t, j)) == P(j)
  {
    hide Desc, Next, Step;
    StepNowhere(t, P(j), B);
    NextIs(t, P(j), B, {});
    PList(t, P(j));
    PList(t, {16});
    assert j + 1 in Elements(Row(t, j)) && j + 1 !in Elements(RowC(t));
  }

  lemma RowsHold(t: Table)
    requires Layout(t)
    ensures Rows(t)
  {
    hide Row, RowC, RowOk, CRows, Next, Layout, StartList, InitList, P;
    CRowsHold(t);
    StartIsRow(t);
    forall j | 0 <= j < 13 ensures Next(t, Row(t, j), A) == Row(t, j + 1) { OneMoreA(t, j); }
    forall j | 0 <= j <= 13 ensures RowOk(t, j) { RowHolds(t, j); }
    forall i, j | 0 <= i < j <= 13 ensures Row(t, i) != Row(t, j) { RowsDiffer(t, i, j); }
  }

  lemma RowsDiffer(t: Table, i: int, j: int)
    requires Layout(t) && 0 <= i < j <= 13
    ensures |t| == 18 && Row(t, i) != Row(t, j)
  {
    hide Row, RowOk, Next, Layout;
    RowHolds(t, i);
    RowHolds(t, j);
    assert j + 1 in P(j) && j + 1 !in P(i);
  }

  lemma OneMoreA(t: Table, j: int)
    requires Layout(t) && 0 <= j < 13
    ensures Next(t, Row(t, j), A) == Row(t, j + 1)
  {
    StepA(t, j);
    NextIs(t, P(j), A, P(j + 1));
  }

  // --- the first start fills the table ---

  /** Slot 0 keeps the start, and no flush has happened. */
  ghost predicate Fresh(t: Table, k: Cache)
    requires Sized(k)
  {
    !k.reset && k.posns[0] == Row(t, 0) && !k.out[0]
  }

  ghost predicate Filling(t: Table, k: Cache, j: int) {
    hide RowOk, CRows, Row, Next, IsList, StartList, InitList;
    && Rows(t) && Shape(t, k) && Fresh(t, k) && 0 <= j <= 13 && k.curstat == 2 + j
    && (forall i :: 2 <= i <= 2 + j ==> k.posns[i] == Row(t, i - 2) && k.tab[i][B] == 0 && k.tab[i][C] == 0)
    && (forall i :: 2 <= i < 2 + j ==> k.tab[i][A] == i + 1) && k.tab[2 + j][A] == 0
  }

  lemma NoOutput(t: Table, k: Cache, j: int, n: int)
    requires Rows(t) && Shape(t, k) && 0 <= j <= n <= 13 && k.curstat == 2 + n && k.posns[2 + j] == Row(t, j)
    ensures !k.out[2 + j]
  {
    hide Row, RowC, Next, IsList, CRows, StartList, InitList;
    assert RowOk(t, j) && 17 !in k.posns[2 + j];
  }

  lemma FillOne(t: Table, k: Cache, j: int)
    requires Filling(t, k, j) && j < 13
    ensures var (k', s') := Goto(t, k, 2 + j, A); s' == 3 + j && Filling(t, k', j + 1)
  {
    hide Row, RowC, Next, Goto, IsList, CRows, StartList, InitList;
    assert RowOk(t, j + 1);
    assert forall i :: 2 <= i <= 2 + j ==> k.posns[i] != Row(t, j + 1);
    GotoNew(t, k, 2 + j, A, Row(t, j + 1));
  }

  lemma {:induction false} FillAll(t: Table, k: Cache, j: int, w: Word, q: int) returns (k': Cache)
    requires Filling(t, k, j) && AllBytes(w) && w != []
    ensures Filling(t, k', 13)
    ensures AllBytes(Repeat(13 - j) + w)
    ensures Scan(t, k, 2 + j, Repeat(13 - j) + w, q, -1) == Scan(t, k', 15, w, q + 13 - j, -1)
    decreases 13 - j
  {
    hide Row, Next, Goto, IsList, Rows;
    var v := Repeat(13 - j) + w;
    if j == 13 {
      k' := k;
      assert v == w;
    } else {
      assert v[0] == A && v[1..] == Repeat(13 - (j + 1)) + w;
      NoOutput(t, k, j, j);
      FillOne(t, k, j);
      k' := FillAll(t, Goto(t, k, 2 + j, A).0, j + 1, w, q + 1);
    }
  }

  /** The full table: all transitions on a are in it, and on b nothing but the dead end. */
  ghost predicate Full(t: Table, k: Cache) {
    hide RowOk, CRows, Row, Next, IsList, StartList, InitList;
    && Rows(t) && Shape(t, k) && Fresh(t, k) && k.curstat == 15
    && (forall i :: 2 <= i <= 15 ==> k.posns[i] == Row(t, i - 2) && 0 <= k.tab[i][B] <= 1)
    && (forall i :: 2 <= i < 15 ==> k.tab[i][A] == i + 1) && k.tab[2][C] == 0
  }

  lemma FilledIsFull(t: Table, k: Cache)
    requires Filling(t, k, 13)
    ensures Full(t, k)
  {
  }

  /** b leads to the dead state. */
  lemma FullOnB(t: Table, k: Cache, s: int)
    requires Full(t, k) && 2 <= s <= 15
    ensures var (k', s') := Goto(t, k, s, B); s' == 1 && Full(t, k')
  {
    hide Row, RowC, Next, IsList, Cgoto, CRows, StartList, InitList;
    assert RowOk(t, s - 2);
    if k.tab[s][B] == 0 {
      GotoOld(t, k, s, B, [], 1);
      CgotoKeeps(t, k, s, B, 1);
    }
  }

  /** A transition to a state that is there changes the table and nothing else. */
  lemma CgotoKeeps(t: Table, k: Cache, s: int, c: Symbol, i: int)
    requires Sized(k) && 1 <= s <= k.curstat && 0 <= c < NCHARS && k.tab[s][c] == 0 && 1 <= i <= k.curstat
    requires k.posns[i] == Next(t, k.posns[s], c)
    ensures var k' := Goto(t, k, s, c).0;
            k'.reset == k.reset && k'.initstat == k.initstat && k'.posns == k.posns && k'.out == k.out
  {
  }

  lemma {:induction false} ScanFull(t: Table, k: Cache, j: int, m: nat, u: Word, q: int)
    requires Full(t, k) && 0 <= j && j + m <= 13 && AllBytes(u)
    requires |u| > m && u[..m] == Repeat(m) && u[m] == B
    ensures var (k', b) := Scan(t, k, 2 + j, u, q, -1); Full(t, k') && b == -1
    decreases m
  {
    hide Row, Next, Goto, IsList, Rows;
    NoOutput(t, k, j, 13);
    if m == 0 {
      FullOnB(t, k, 2 + j);
    } else {
      assert u[0] == u[..m][0] == A;
      assert u[1..][..m - 1] == u[..m][1..] == Repeat(m - 1);
      KnownA(t, k, j);
      ScanFull(t, k, j + 1, m - 1, u[1..], q + 1);
    }
  }

  lemma KnownA(t: Table, k: Cache, j: int)
    requires Full(t, k) && 0 <= j < 13
    ensures Goto(t, k, 2 + j, A) == (k, 3 + j)
  {
    hide Row, RowC, Next, IsList, Rows;
    assert k.tab[2 + j][A] == 3 + j;
  }

  // --- the clobbered start ---

  /** State 2 holds the list after c and claims to stay on c. */
  ghost predicate Wrong(t: Table, k: Cache) {
    && Rows(t) && Shape(t, k) && k.curstat == 2 && k.posns[2] == RowC(t) && k.reset
    && k.tab[2][C] == 2 && k.tab[2][0] == 0 && k.posns[0] == Row(t, 0) && !k.out[0]
  }

  lemma LeaveOnC(t: Table, k: Cache)
    requires Full(t, k)
    ensures var (k', s') := Goto(t, k, 2, C); s' == 2 && Wrong(t, k')
  {
    hide Row, RowC, Next, IsList, StartList, InitList;
    assert RowOk(t, 0);
    NoneIsRowC(t, k);
    GotoNew(t, k, 2, C, RowC(t));
  }

  lemma NoneIsRowC(t: Table, k: Cache)
    requires Full(t, k)
    ensures forall i :: 1 <= i <= 15 ==> k.posns[i] != RowC(t)
  {
    hide Row, RowC, Next, IsList, StartList, InitList;
    forall i | 2 <= i <= 15 ensures k.posns[i] != RowC(t) { assert RowOk(t, i - 2); }
  }

  /** What is left of a start once the table has been flushed: slot 0. */
  ghost predicate Flushed(t: Table, k: Cache) {
    Rows(t) && Shape(t, k) && k.reset && k.posns[0] == Row(t, 0) && !k.out[0]
  }

  /** The list after c dies on the NUL. */
  lemma DiesOnNul(t: Table, k: Cache, s: int)
    requires Flushed(t, k) && 2 <= s <= k.curstat && k.tab[s][0] == 0
    requires k.posns[s] == RowC(t) || k.posns[s] == Row(t, 0)
    ensures !k.out[s]
    ensures var (k', s') := Goto(t, k, s, 0); s' == 1 && Flushed(t, k')
  {
    hide Row, RowC, Next, IsList, StartList, InitList;
    assert RowOk(t, 0);
    GotoOld(t, k, s, 0, [], 1);
    CgotoKeeps(t, k, s, 0, 1);
  }

  /** The c that ends the match is taken for one that goes nowhere new. */
  lemma ScanMissesC(t: Table, k: Cache, u: Word)
    requires Full(t, k) && |u| == 3 && u[0] == u[1] == C && u[2] == 0 && AllBytes(u)
    ensures var (k', b) := Scan(t, k, 2, u, 0, -1); Flushed(t, k') && b == -1
  {
    hide Row, RowC, Next, IsList, Rows, Goto, Wrong;
    NoOutput(t, k, 0, 13);
    LeaveOnC(t, k);
    var (k1, s1) := Goto(t, k, 2, C);
    WrongIs(t, k1);
    ScanWrong(t, k1, u[1..], 1);
  }

  lemma WrongIs(t: Table, k: Cache)
    requires Wrong(t, k)
    ensures Shape(t, k) && k.curstat == 2
  {
  }

  lemma ScanWrong(t: Table, k: Cache, u: Word, q: int)
    requires Wrong(t, k) && |u| == 2 && u[0] == C && u[1] == 0 && AllBytes(u)
    ensures var (k', b) := Scan(t, k, 2, u, q, -1); Flushed(t, k') && b == -1
  {
    hide Row, RowC, Next, IsList, Rows, Goto;
    StaysOnC(t, k);
    DiesOnNul(t, k, 2);
  }

  lemma StaysOnC(t: Table, k: Cache)
    requires Wrong(t, k)
    ensures Goto(t, k, 2, C) == (k, 2) && Flushed(t, k)
  {
  }

  /** The start as pmatch makes it again after a flush. */
  ghost predicate Anew(t: Table, k: Cache) {
    Flushed(t, k) && k.curstat == 2 && k.posns[2] == Row(t, 0) && k.tab[2] == ZeroRow()
  }

  lemma RewindAnew(t: Table, k: Cache)
    requires Flushed(t, k) && Valid(t, true, k)
    ensures Anew(t, Rewind(k))
  {
    hide Row, RowC, Next, IsList, Rows, RowsOk, Initial;
    RewindReady(t, k);
  }

  lemma ScanLastC(t: Table, k: Cache, u: Word)
    requires Anew(t, k) && |u| == 2 && u[0] == C && u[1] == 0 && AllBytes(u)
    ensures var (k', b) := Scan(t, k, 2, u, 0, -1); Flushed(t, k') && b == -1
  {
    hide Row, RowC, Next, IsList, Rows, Goto;
    NoOutput(t, k, 0, 0);
    AnewOnC(t, k);
    var (k1, s1) := Goto(t, k, 2, C);
    var u1 := u[1..];
    DiesOnNul(t, k1, 3);
    assert Scan(t, k, 2, u, 0, -1) == Scan(t, k1, 3, u1, 1, -1);
  }

  lemma AnewOnC(t: Table, k: Cache)
    requires Anew(t, k)
    ensures var (k', s') := Goto(t, k, 2, C);
            s' == 3 && Flushed(t, k') && k'.curstat == 3 && k'.posns[3] == RowC(t) && k'.tab[3][0] == 0
  {
    hide Row, RowC, Next, IsList, StartList, InitList;
    assert RowOk(t, 0);
    GotoNew(t, k, 2, C, RowC(t));
  }

  lemma ScanNul(t: Table, k: Cache, u: Word)
    requires Anew(t, k) && |u| == 1 && u[0] == 0 && AllBytes(u)
    ensures var (k', b) := Scan(t, k, 2, u, 0, -1); Flushed(t, k') && b == -1
  {
    hide Row, RowC, Next, IsList, Rows, Goto;
    DiesOnNul(t, k, 2);
  }

  // --- the starts, one after the other ---

  lemma SubjectFrom(w: Word, p: int)
    requires w == Subject() && 0 <= p < |w|
    ensures |w| == 17 && IsSubject(w) && AllBytes(w[p..])
    ensures p <= 13 ==> var u := w[p..]; |u| > 13 - p && u[..13 - p] == Repeat(13 - p) && u[13 - p] == B
    ensures w[14..] == [C, C, 0] && w[15..] == [C, 0] && w[16..] == [0]
    ensures w[p] == 0 <==> p == 16
  {
    assert w[13..] == Rest();
  }

  /** What is known of the cache before the start `p`. */
  ghost predicate Before(t: Table, k: Cache, p: int) {
    if p == 0 then Filling(t, k, 0) else if p <= 14 then Full(t, k) else Anew(t, k)
  }

  ghost predicate After(t: Table, k: Cache, p: int) {
    if p < 14 then Full(t, k) else Flushed(t, k)
  }

  lemma ScanAt(t: Table, k: Cache, w: Word, p: int)
    requires w == Subject() && 0 <= p < |w| && Before(t, k, p)
    ensures AllBytes(w[p..]) && Shape(t, k) && k.curstat >= 2
    ensures var (k', b) := Scan(t, k, 2, w[p..], 0, -1); After(t, k', p) && b == -1
  {
    hide Row, RowC, Next, IsList, Rows, Goto, Scan, Filling, Full, Anew, Flushed, Repeat, Rest;
    SubjectFrom(w, p);
    BeforeShape(t, k, p);
    if p == 0 {
      var rest := w[13..];
      assert w[0..] == w && w[..13] == w[0..][..13];
      assert w == Repeat(13 - 0) + rest;
      SubjectFrom(w, 13);
      assert AllBytes(rest);
      var k1 := FillAll(t, k, 0, rest, 0);
      FilledIsFull(t, k1);
      FullIs(t, k1);
      ScanFull(t, k1, 13, 0, rest, 13);
    } else if p < 14 {
      ScanFull(t, k, 0, 13 - p, w[p..], 0);
    } else if p == 14 {
      ScanMissesC(t, k, w[p..]);
    } else if p == 15 {
      ScanLastC(t, k, w[p..]);
    } else {
      ScanNul(t, k, w[p..]);
    }
  }

  lemma FullIs(t: Table, k: Cache)
    requires Full(t, k)
    ensures Shape(t, k) && k.curstat == 15
  {
  }

  lemma BeforeShape(t: Table, k: Cache, p: int)
    requires Before(t, k, p)
    ensures Shape(t, k) && k.curstat >= 2
  {
  }

  lemma NextBefore(t: Table, k: Cache, p: int)
    requires After(t, k, p) && Valid(t, true, k) && p >= 0
    ensures Before(t, Rewind(k), p + 1)
  {
    hide Row, RowC, Next, IsList, Rows, RowsOk, Initial, Shape;
    if p >= 14 {
      RewindAnew(t, k);
    } else {
      assert !k.reset;
    }
  }

  lemma {:induction false} PmatchNone(t: Table, k: Cache, w: Word, p: int)
    requires w == Subject() && IsSubject(w) && 0 <= p <= |w| && Valid(t, true, k)
    requires p < |w| ==> Before(t, k, p)
    ensures PmatchFrom(t, k, 2, w, p, -1).1 == None
    decreases |w| - p
  {
    hide Scan, Before, After, RowsOk, Initial, Subject, Rewind;
    if p < |w| {
      ScanAt(t, k, w, p);
      ScanValid(t, k, 2, w[p..], 0, -1);
      var (k1, b) := Scan(t, k, 2, w[p..], 0, -1);
      RewindReady(t, k1);
      NextBefore(t, k1, p);
      PmatchNone(t, Rewind(k1), w, p + 1);
    }
  }

  lemma {:induction false} NematchNone(t: Table, k: Cache, w: Word, p: int)
    requires w == Subject() && IsSubject(w) && 0 <= p < |w| && Valid(t, true, k) && Before(t, k, p)
    ensures NematchFrom(t, k, 2, w, p, -1).1 == None
    decreases |w| - p
  {
    hide Scan, Before, After, RowsOk, Initial, Rewind, Repeat, Rest;
    SubjectFrom(w, p);
    if w[p] != 0 {
      ScanAt(t, k, w, p);
      ScanValid(t, k, 2, w[p..], 0, -1);
      var (k1, b) := Scan(t, k, 2, w[p..], 0, -1);
      RewindReady(t, k1);
      NextBefore(t, k1, p);
      NematchNone(t, Rewind(k1), w, p + 1);
    }
  }

  // --- makedfa ---

  /** makedfa leaves the start in state 2 and in slot 0. */
  lemma StartsFilling(t: Table)
    requires Layout(t) && Searchable(t)
    ensures var k := Makedfa(t, true); Filling(t, k, 0) && k.initstat == 2
  {
    RowsHold(t);
    BlankShape(t);
    hide Row, RowC, Next, IsList, Layout, Searchable, Makeinit, Blank, CRows;
    InitFilling(t, Blank());
  }

  lemma InitFilling(t: Table, k: Cache)
    requires Rows(t) && Searchable(t) && Shape(t, k) && Layout(t)
    ensures var k' := Makeinit(t, k, true); Filling(t, k'.(reset := false), 0) && k'.curstat == 2
  {
    hide Row, RowC, IsList, Layout, CRows, Restarted, Next, Goto, Rows, Sound;
    var k0 := Restarted(t, k);
    StartIsL(t);
    ListsHold(t);
    MakeinitIsGoto(t, k);
    HatStays(t, k0);
    MakeinitAnchored(t, k);
    MakeinitCorrect(t, k, true);
    var k' := Makeinit(t, k, true);
    StartIsRow(t);
    FillingFrom(t, k', Makeinit(t, k, false));
  }

  lemma MakeinitAnchored(t: Table, k: Cache)
    requires Searchable(t) && Shape(t, k)
    ensures Sized(Makeinit(t, k, false)) && Makeinit(t, k, true).tab == Makeinit(t, k, false).tab
    ensures Makeinit(t, k, true).curstat == Makeinit(t, k, false).curstat
  {
    AfterHat(t, k);
  }

  lemma FillingFrom(t: Table, k: Cache, k0: Cache)
    requires Rows(t) && Shape(t, k) && k.curstat == 2 && Initial(t, true, k, 2)
    requires k.posns[0] == StartList(t, true) && (k.out[0] <==> |t| - 1 in k.posns[0])
    requires Sized(k0) && k.tab == k0.tab && k0.tab[2][A] == 0 && k0.tab[2][B] == 0 && k0.tab[2][C] == 0
    ensures Filling(t, k.(reset := false), 0)
  {
    hide Row, RowC, IsList, CRows, Next, StartList, InitList;
    assert RowOk(t, 0);
  }

  /** pmatch and nematch return 0 on the subject, and the expression matches in it. */
  lemma PmatchMissesMatch()
    ensures var r := Pattern(LENGTH);
            NoFinal(r) && Searchable(Automaton(r)) && IsSubject(Subject()) && IsMatch(r, Subject(), 14, 2)
    ensures var t := Automaton(Pattern(LENGTH)); Pmatch(t, Makedfa(t, true), Subject()).1 == None
    ensures var t := Automaton(Pattern(LENGTH)); Nematch(t, Makedfa(t, true), Subject()).1 == None
  {
    hide Automaton, Pattern, Layout, As;
    var n := LENGTH;
    PatternLayout(n);
    SubjectFrom(Subject(), 0);
    SubjectIsMatch(n);
    PmatchRunFails(Automaton(Pattern(n)), Subject());
  }

  /** So these runs take such a step, too. */
  lemma RunsHarm()
    ensures var t := Automaton(Pattern(LENGTH));
            && Searchable(t) && IsSubject(Subject())
            && !PmatchRunHarmless(t, Makedfa(t, true), Subject()) && !NematchRunHarmless(t, Makedfa(t, true), Subject())
  {
    PmatchMissesMatch();
    SubjectFrom(Subject(), 14);
    hide Automaton, Pattern, As, IsMatch, PmatchRunHarmless, NematchRunHarmless, Makedfa, Repeat;
    var r, w := Pattern(LENGTH), Subject();
    var k := Makedfa(Automaton(r), true);
    if PmatchRunHarmless(Automaton(r), k, w) {
      PmatchCorrect(r, k, w);
    }
    if NematchRunHarmless(Automaton(r), k, w) {
      NematchCorrect(r, k, w);
    }
  }

  lemma PmatchRunFails(t: Table, w: Word)
    requires Layout(t) && Searchable(t) && w == Subject()
    ensures IsSubject(w) && Pmatch(t, Makedfa(t, true), w).1 == None && Nematch(t, Makedfa(t, true), w).1 == None
  {
    hide Layout, Searchable, Makedfa, PmatchFrom, NematchFrom, Filling, RowsOk, Initial;
    SubjectFrom(w, 0);
    StartsFilling(t);
    var k := Makedfa(t, true);
    FillingFresh(t, k);
    PmatchNone(t, k, w, 0);
    NematchNone(t, k, w, 0);
  }

  lemma FillingFresh(t: Table, k: Cache)
    requires Filling(t, k, 0)
    ensures !k.reset && Before(t, k, 0)
  {
  }

  lemma SubjectIsMatch(n: nat)
    requires n > 0
    ensures IsMatch(Pattern(n), Subject(), 14, 2)
  {
    hide As;
    var w := Subject();
    assert w[14..14 + 2] == [C, C];
    CCMatches(n);
  }
}
