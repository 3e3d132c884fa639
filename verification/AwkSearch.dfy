/** makeinit and the three matchers of cmd/awk/b.c, as functions over the cache, and what they find. */
module AwkSearch {
  import opened AwkRegex
  import opened AwkPositions
  import opened AwkAutomaton
  import opened AwkCache

  // --- where a search starts ---

  /** The table of a tree that makedfa built: row 0 is the ALL of ALL*, which it can follow itself. */
  ghost predicate Searchable(t: Table) {
    Sound(t) && |t| >= 2 && t[0].leaf == All && 0 in Follow(t[0].kont)
  }

  /** `lfollow` of position 0. */
  ghost function StartSet(t: Table): set<Position>
    requires |t| > 0
  {
    Follow(t[0].kont)
  }

  /** State 2 of a search; position 0 is left out when it is anchored. */
  ghost function StartList(t: Table, anchor: bool): List
    requires |t| > 0
  {
    Desc(if anchor then StartSet(t) - {0} else StartSet(t), |t|)
  }

  /** The set after HAT; position 0 is left out here too. */
  ghost function InitSet(t: Table, anchor: bool): set<Position>
    requires |t| > 0
  {
    if anchor then Step(t, StartSet(t), HAT) - {0} else Step(t, StartSet(t), HAT)
  }

  ghost function InitList(t: Table, anchor: bool): List
    requires |t| > 0
  {
    Desc(InitSet(t, anchor), |t|)
  }

  function DropLast(l: List): List
    requires l != []
  {
    l[..|l| - 1]
  }

  /** The first half of makeinit: state 2 is the follow set of position 0. */
  ghost function Restarted(t: Table, k: Cache): Cache
    requires |t| > 0 && Sized(k)
  {
    var start := Desc(StartSet(t), |t|);
    k.(tab := k.tab[2 := ZeroRow()], posns := k.posns[2 := start],
       out := k.out[2 := start != [] && start[0] == |t| - 1], curstat := 2)
  }

  /** The second half, for an anchored search: position 0, the last of both lists, is left out. */
  ghost function Anchored(k: Cache): Cache
    requires Sized(k) && k.posns[2] != [] && k.posns[k.curstat] != []
  {
    var two := DropLast(k.posns[2]);
    var posns := k.posns[2 := two][0 := two];
    k.(posns := if k.curstat != 2 then posns[k.curstat := DropLast(k.posns[k.curstat])] else posns,
       out := k.out[0 := k.out[2]])
  }

  ghost function Makeinit(t: Table, k: Cache, anchor: bool): Cache
    requires Searchable(t) && Shape(t, k)
  {
    StartNotEmpty(t);
    RestartedShape(t, k);
    var (k1, s) := Cgoto(t, Restarted(t, k), 2, HAT);
    AfterHat(t, k);
    var k2 := k1.(curstat := s);
    if anchor then Anchored(k2) else k2
  }

  /** What holds between calls: the start is at hand, and unless the table has been flushed, state 2
      is the start, `initstat` is the state after HAT and the table is right. */
  ghost predicate Valid(t: Table, anchor: bool, k: Cache) {
    && Searchable(t) && Shape(t, k)
    && (anchor ==> k.posns[0] == StartList(t, anchor) && (k.out[0] <==> |t| - 1 in k.posns[0]))
    && (!k.reset ==> Initial(t, anchor, k, k.initstat) && RowsOk(t, k))
  }

  ghost predicate Initial(t: Table, anchor: bool, k: Cache, s: int)
    requires |t| > 0 && Sized(k)
  {
    k.posns[2] == StartList(t, anchor) && 2 <= s <= k.curstat && k.posns[s] == InitList(t, anchor)
  }

  lemma {:induction false} DescEnds(s: set<Position>, n: nat)
    requires forall p :: p in s ==> 0 <= p < n
    requires 0 in s
    ensures Desc(s, n) != [] && Desc(s, n)[|Desc(s, n)| - 1] == 0
    ensures DropLast(Desc(s, n)) == Desc(s - {0}, n)
    ensures Desc(s, n)[0] == n - 1 <==> n - 1 in s
  {
    DescLast(s, n);
    if n - 1 !in s { DescMembers(s, n); assert Desc(s, n)[0] in Desc(s, n); }
  }

  lemma {:induction false} DescLast(s: set<Position>, n: nat)
    requires 0 in s && n > 0
    ensures Desc(s, n) != [] && Desc(s, n)[|Desc(s, n)| - 1] == 0
    ensures DropLast(Desc(s, n)) == Desc(s - {0}, n)
    decreases n
  {
    if n == 1 {
      assert Desc(s, 0) == [] && Desc(s - {0}, 0) == [];
    } else {
      DescLast(s, n - 1);
      var l := Desc(s, n - 1);
      assert DropLast([n - 1] + l) == [n - 1] + DropLast(l);
    }
  }

  lemma StartNotEmpty(t: Table)
    requires Searchable(t)
    ensures var start := Desc(StartSet(t), |t|);
            && start != [] && start[|start| - 1] == 0 && DropLast(start) == StartList(t, true)
            && start == StartList(t, false)
            && IsList(t, start) && Elements(start) == StartSet(t)
            && (start[0] == |t| - 1 <==> |t| - 1 in start)
  {
    FollowInTable(t, t[0].kont);
    DescEnds(StartSet(t), |t|);
    ElementsOfDesc(StartSet(t), |t|);
  }

  /** The row of the dead state is right: nothing leads out of it. */
  lemma RowOneOk(t: Table, k: Cache)
    requires Sound(t) && Sized(k) && k.posns[1] == [] && forall c :: 0 <= c < NCHARS ==> 0 <= k.tab[1][c] <= 1
    ensures forall c :: 0 <= c < HAT && 0 < k.tab[1][c] < NSTATES ==> k.posns[k.tab[1][c]] == Next(t, k.posns[1], c)
  {
    forall c | 0 <= c < HAT && 0 < k.tab[1][c] < NSTATES ensures k.posns[k.tab[1][c]] == Next(t, k.posns[1], c) {
      NextIsList(t, [], c);
    }
  }

  /** Nothing is known of the rows from the second on. */
  ghost predicate Unknown(k: Cache)
    requires Sized(k)
  {
    forall q, c :: 2 <= q <= k.curstat && 0 <= c < HAT ==> k.tab[q][c] == 0
  }

  /** So the table is right. */
  lemma UnknownRows(t: Table, k: Cache)
    requires Shape(t, k) && Unknown(k)
    ensures RowsOk(t, k)
  {
    hide Next, IsList, Desc, Sound;
    RowOneOk(t, k);
  }

  lemma RestartedShape(t: Table, k: Cache)
    requires Searchable(t) && Shape(t, k)
    ensures Shape(t, Restarted(t, k)) && RowsOk(t, Restarted(t, k))
  {
    hide Next, IsList, Desc, Sound, Follow, StartSet, StartList, DropLast, RowsOk, Elements;
    StartNotEmpty(t);
    UnknownRows(t, Restarted(t, k));
  }

  /** After HAT: state 2 or a new state 3, on whose rows nothing but the transition on HAT is known. */
  lemma AfterHat(t: Table, k: Cache)
    requires Searchable(t) && Shape(t, k)
    ensures RestartedOk(t, k)
  {
    hide Next, IsList, Desc, Searchable, Sound, StartSet, StartList, InitList, RowsOk, Clobbers;
    StartNotEmpty(t);
    HatDoesNotClobber(t, k);
    RestartedShape(t, k);
    var k0 := Restarted(t, k);
    CgotoShape(t, k0, 2, HAT);
    CgotoRows(t, k0, 2, HAT);
    HatList(t);
  }

  lemma HatDoesNotClobber(t: Table, k: Cache)
    requires Searchable(t) && Shape(t, k)
    ensures |t| > 0 && Sized(k) && Sized(Restarted(t, k)) && !Clobbers(t, Restarted(t, k), 2, HAT)
  {
  }

  lemma HatList(t: Table)
    requires Searchable(t)
    ensures StartList(t, false) != [] && Next(t, StartList(t, false), HAT) == InitList(t, false) != []
  {
    StartNotEmpty(t);
    NextIsList(t, StartList(t, false), HAT);
    StartReachesItself(t);
    FollowInTable(t, t[0].kont);
    assert 0 in Elements(InitList(t, false));
  }

  ghost predicate RestartedOk(t: Table, k: Cache)
    requires |t| > 0 && Sized(k)
  {
    var k0 := Restarted(t, k);
    var (k1, s) := Cgoto(t, k0, 2, HAT);
    && Shape(t, k1) && RowsOk(t, k1)
    && 2 <= s <= 3 && s == k1.curstat && k1.posns[2] == k0.posns[2] && k1.posns[2] != []
    && k1.posns[s] == InitList(t, false) && k1.posns[s] != []
    && (s == 2 ==> k1.posns[2] == InitList(t, false))
    && k1.reset == k.reset && Unknown(k1)
  }

  lemma StartReachesItself(t: Table)
    requires Searchable(t)
    ensures StartSet(t) <= Step(t, StartSet(t), HAT)
  {
    FollowInTable(t, t[0].kont);
    forall q | q in StartSet(t) ensures q in Step(t, StartSet(t), HAT) {
      assert Consumes(t[0].leaf, HAT) && q in Follow(t[0].kont);
    }
  }

  /** makeinit puts any cache in order, whatever went wrong before. */
  lemma MakeinitCorrect(t: Table, k: Cache, anchor: bool)
    requires Searchable(t) && Shape(t, k)
    ensures var k' := Makeinit(t, k, anchor);
            && Shape(t, k') && RowsOk(t, k') && Initial(t, anchor, k', k'.curstat)
            && k'.reset == k.reset && k'.curstat <= 3
            && (anchor ==> k'.posns[0] == StartList(t, anchor) && (k'.out[0] <==> |t| - 1 in k'.posns[0]))
  {
    AfterHat(t, k);
    if anchor {
      var (k1, s) := Cgoto(t, Restarted(t, k), 2, HAT);
      AnchoredLists(t);
      StartNotEmpty(t);
      AnchoredRows(t, k1);
    }
  }

  /** Dropping the last position of the two lists turns one start into the other. */
  lemma AnchoredLists(t: Table)
    requires Searchable(t)
    ensures InitList(t, false) != [] && InitList(t, false)[|InitList(t, false)| - 1] == 0
    ensures DropLast(InitList(t, false)) == InitList(t, true)
    ensures IsList(t, StartList(t, true)) && IsList(t, InitList(t, true))
    ensures |t| - 1 in StartList(t, true) <==> |t| - 1 in StartList(t, false)
    ensures |t| - 1 in InitList(t, true) <==> |t| - 1 in InitList(t, false)
  {
    hide Desc, IsList, Step, DropLast;
    SetsInTable(t);
    DescEnds(InitSet(t, false), |t|);
    WithoutFirst(StartSet(t), |t|);
    WithoutFirst(InitSet(t, false), |t|);
    DescIsList(t, StartSet(t) - {0});
    DescIsList(t, InitSet(t, true));
  }

  /** The two sets a search may start from. */
  lemma SetsInTable(t: Table)
    requires Searchable(t)
    ensures InStates(t, StartSet(t)) && InStates(t, InitSet(t, false)) && 0 in StartSet(t) && 0 in InitSet(t, false)
  {
    hide Step, Placed;
    FollowInTable(t, t[0].kont);
    StepInTable(t, StartSet(t), HAT);
    StartReachesItself(t);
  }

  lemma WithoutFirst(s: set<Position>, n: nat)
    requires n >= 2
    ensures n - 1 in Desc(s - {0}, n) <==> n - 1 in Desc(s, n)
  {
    hide Desc;
    DescMembers(s, n);
    DescMembers(s - {0}, n);
  }

  lemma DescIsList(t: Table, s: set<Position>)
    requires forall p :: p in s ==> 0 <= p < |t|
    ensures IsList(t, Desc(s, |t|))
  {
    hide Desc;
    ElementsOfDesc(s, |t|);
  }

  lemma AnchoredRows(t: Table, k: Cache)
    requires Searchable(t) && Shape(t, k) && RowsOk(t, k) && k.curstat <= 3
    requires k.posns[2] == StartList(t, false) && k.posns[k.curstat] == InitList(t, false)
    requires Unknown(k) && k.posns[2] != [] && k.posns[k.curstat] != []
    requires DropLast(k.posns[2]) == StartList(t, true)
    ensures Shape(t, Anchored(k)) && RowsOk(t, Anchored(k)) && Initial(t, true, Anchored(k), k.curstat)
    ensures Anchored(k).posns[0] == StartList(t, true) && (Anchored(k).out[0] <==> |t| - 1 in Anchored(k).posns[0])
  {
    hide Next, IsList, Desc, Sound, Searchable, StartList, InitList, DropLast, RowsOk, Elements;
    AnchoredLists(t);
    UnknownRows(t, Anchored(k));
  }

  /** makedfa: a blank cache, and the first start. */
  ghost function Makedfa(t: Table, anchor: bool): (k: Cache)
    requires Searchable(t)
    ensures Valid(t, anchor, k) && !k.reset
  {
    BlankShape(t);
    MakeinitCorrect(t, Blank(), anchor);
    var k := Makeinit(t, Blank(), anchor);
    k.(initstat := k.curstat, reset := false)
  }

  function Blank(): Cache {
    Cache(seq(NSTATES, _ => ZeroRow()), seq(NSTATES, _ => []), seq(NSTATES, _ => false), 2, 0, false)
  }

  lemma BlankShape(t: Table)
    requires Sound(t)
    ensures Shape(t, Blank())
  {
    DescOfNone(|t|);
    assert Elements([]) == {};
  }

  /** The state a matcher begins in. */
  ghost function Begin(t: Table, anchor: bool, k: Cache): (Cache, int)
    requires Valid(t, anchor, k)
  {
    if k.reset then
      var k' := Makeinit(t, k, anchor);
      (k', k'.curstat)
    else (k, k.initstat)
  }

  /** Valid, and the table is right. */
  ghost predicate Ready(t: Table, anchor: bool, k: Cache) {
    Valid(t, anchor, k) && RowsOk(t, k)
  }

  lemma BeginReady(t: Table, anchor: bool, k: Cache)
    requires Valid(t, anchor, k)
    ensures var (k', s) := Begin(t, anchor, k);
            Ready(t, anchor, k') && 1 <= s <= k'.curstat && k'.posns[s] == InitList(t, anchor)
  {
    if k.reset { MakeinitCorrect(t, k, anchor); }
  }

  lemma GotoReady(t: Table, anchor: bool, k: Cache, s: int, c: Symbol)
    requires Ready(t, anchor, k) && 1 <= s <= k.curstat && 0 <= c < HAT
    ensures var (k', s') := Goto(t, k, s, c);
            && Valid(t, anchor, k') && 1 <= s' <= k'.curstat
            && k'.posns[s'] == Next(t, k.posns[s], c)
            && (RowsOk(t, k') <==> !Clobbers(t, k, s, c))
  {
    GotoCorrect(t, k, s, c);
  }

  // --- match ---

  /** The loop of match from state `s` on the symbols `w`: the cache it leaves, and whether it accepts. */
  ghost function MatchLoop(t: Table, k: Cache, s: int, w: Word): (Cache, bool)
    requires Shape(t, k) && 1 <= s <= k.curstat && forall i :: 0 <= i < |w| ==> 0 <= w[i] < HAT
    decreases |w|
  {
    if w == [] then (k, false)
    else
      GotoShape(t, k, s, w[0]);
      var (k', s') := Goto(t, k, s, w[0]);
      if k'.out[s'] then (k', true) else MatchLoop(t, k', s', w[1..])
  }

  lemma GotoShape(t: Table, k: Cache, s: int, c: Symbol)
    requires Shape(t, k) && 1 <= s <= k.curstat && 0 <= c < HAT
    ensures var (k', s') := Goto(t, k, s, c); Shape(t, k') && 1 <= s' <= k'.curstat
  {
    if k.tab[s][c] == 0 { CgotoShape(t, k, s, c); }
  }

  // --- harm ---

  /** The automaton accepts at once or after some of the symbols. */
  ghost predicate Accepts(t: Table, s: set<Position>, w: Word) {
    exists n :: AcceptsAfter(t, s, w, n)
  }

  /** From both lists it accepts the same rests of a subject. */
  ghost predicate SameAnswers(t: Table, l: List, m: List) {
    forall w :: IsSubject(w) ==> (Accepts(t, Elements(l), w) <==> Accepts(t, Elements(m), w))
  }

  /** From both lists the longest piece it accepts of any rest of a subject has the same length. */
  ghost predicate SameLengths(t: Table, l: List, m: List) {
    forall w, b :: IsSubject(w) ==>
      (IsLongest(t, Elements(l), w, 0, -1, b) <==> IsLongest(t, Elements(m), w, 0, -1, b))
  }

  /** A state with the list `l` may stand for one with the list `m` after the symbol `c`, for a search that
      asks for the longest piece or for one that asks only for an answer.  After NUL nothing is left. */
  ghost predicate Alike(t: Table, longest: bool, c: Symbol, l: List, m: List) {
    l == m || (c != 0 && if longest then SameLengths(t, l, m) else SameAnswers(t, l, m))
  }

  /** The step clobbers the table, and it matters: the new state stays where it is on `c`, and the list it
      should go to does not do as well. */
  ghost predicate Harms(t: Table, longest: bool, k: Cache, s: int, c: Symbol)
    requires Sized(k) && 1 <= s <= k.curstat && 0 <= c < NCHARS
  {
    var next := Next(t, k.posns[s], c);
    && Clobbers(t, k, s, c) && c != 0 && (longest || |t| - 1 !in next)
    && !Alike(t, longest, c, next, Next(t, next, c))
  }

  /** Every transition on a byte that is in the table is right, or does as well. */
  ghost predicate RowsAlike(t: Table, longest: bool, k: Cache)
    requires Sized(k)
  {
    forall s, c :: 1 <= s <= k.curstat && 0 <= c < HAT && 0 < k.tab[s][c] < NSTATES ==>
      Alike(t, longest, c, k.posns[k.tab[s][c]], Next(t, k.posns[s], c))
  }

  lemma RowsOkAlike(t: Table, longest: bool, k: Cache)
    requires Sized(k) && RowsOk(t, k)
    ensures RowsAlike(t, longest, k)
  {
    hide Next, SameAnswers, SameLengths;
  }

  /** A step with an entry that is in the table, or with a new one: the list does as well as the right one,
      and so does the table unless the step harms. */
  lemma GotoAlike(t: Table, longest: bool, k: Cache, s: int, c: Symbol)
    requires Shape(t, k) && RowsAlike(t, longest, k) && 1 <= s <= k.curstat && 0 <= c < HAT
    ensures var (k', s') := Goto(t, k, s, c);
            && Shape(t, k') && 1 <= s' <= k'.curstat && Alike(t, longest, c, k'.posns[s'], Next(t, k.posns[s], c))
            && (c != 0 && !Harms(t, longest, k, s, c) && (longest || !k'.out[s']) ==> RowsAlike(t, longest, k'))
  {
    hide Next, SameAnswers, SameLengths, IsList;
    if k.tab[s][c] == 0 {
      CgotoShape(t, k, s, c);
      if c != 0 { CgotoAlike(t, longest, k, s, c); }
    }
  }

  lemma CgotoAlike(t: Table, longest: bool, k: Cache, s: int, c: Symbol)
    requires Shape(t, k) && RowsAlike(t, longest, k) && 1 <= s <= k.curstat && 0 < c < HAT && k.tab[s][c] == 0
    ensures var (k', s') := Cgoto(t, k, s, c);
            Sized(k') && (!Harms(t, longest, k, s, c) && (longest || !k'.out[s']) ==> RowsAlike(t, longest, k'))
  {
    hide Next, Alike, IsList, Sound;
    if Find(k.posns, Next(t, k.posns[s], c), 1, k.curstat) != 0 || k.curstat < NSTATES - 1 {
      KeepsAlike(t, longest, k, s, c);
    } else {
      FlushAlike(t, longest, k, s, c);
    }
  }

  lemma AlikeSame(t: Table, longest: bool, c: Symbol, l: List)
    ensures Alike(t, longest, c, l, l)
  {
  }

  /** A transition to a list that is kept, or for which there is room. */
  lemma KeepsAlike(t: Table, longest: bool, k: Cache, s: int, c: Symbol)
    requires Shape(t, k) && RowsAlike(t, longest, k) && 1 <= s <= k.curstat && 0 < c < HAT && k.tab[s][c] == 0
    requires Find(k.posns, Next(t, k.posns[s], c), 1, k.curstat) != 0 || k.curstat < NSTATES - 1
    ensures var k' := Cgoto(t, k, s, c).0; Sized(k') && RowsAlike(t, longest, k')
  {
    hide Next, Alike, IsList, Sound;
    AlikeSame(t, longest, c, Next(t, k.posns[s], c));
  }

  /** A transition that finds no room: state 2 is all that is left. */
  lemma FlushAlike(t: Table, longest: bool, k: Cache, s: int, c: Symbol)
    requires Shape(t, k) && RowsAlike(t, longest, k) && 1 <= s <= k.curstat && 0 < c < HAT && k.tab[s][c] == 0
    requires Find(k.posns, Next(t, k.posns[s], c), 1, k.curstat) == 0 && k.curstat == NSTATES - 1
    ensures var (k', s') := Cgoto(t, k, s, c);
            Sized(k') && (!Harms(t, longest, k, s, c) && (longest || !k'.out[s']) ==> RowsAlike(t, longest, k'))
  {
    hide Next, Alike, IsList, Sound;
    var next := Next(t, k.posns[s], c);
    AlikeSame(t, longest, c, next);
  }

  /** No step of the loop harms. */
  ghost predicate MatchHarmless(t: Table, k: Cache, s: int, w: Word)
    requires Shape(t, k) && 1 <= s <= k.curstat && forall i :: 0 <= i < |w| ==> 0 <= w[i] < HAT
    decreases |w|
  {
    w == [] ||
    (GotoShape(t, k, s, w[0]);
     var (k', s') := Goto(t, k, s, w[0]);
     !Harms(t, false, k, s, w[0]) && (k'.out[s'] || MatchHarmless(t, k', s', w[1..])))
  }

  /** The subject as the matchers read it: its bytes and the NUL that ends it. */
  ghost predicate IsSubject(w: Word) {
    |w| > 0 && w[|w| - 1] == 0 && (forall i :: 0 <= i < |w| - 1 ==> 0 < w[i] < HAT)
  }

  ghost predicate AcceptsAfter(t: Table, s: set<Position>, w: Word, n: int) {
    0 <= n <= |w| && |t| - 1 in Run(t, s, w[..n])
  }

  lemma AcceptsAfterStep(t: Table, s: set<Position>, w: Word, n: int)
    requires w != []
    ensures AcceptsAfter(t, s, w, n + 1) && 0 <= n <==> AcceptsAfter(t, Step(t, s, w[0]), w[1..], n)
  {
    if 0 <= n < |w| {
      assert w[..n + 1][1..] == w[1..][..n];
    }
  }

  /** The list of a state is a list of positions, and its bit tells whether it accepts. */
  lemma StateIs(t: Table, k: Cache, s: int)
    requires Shape(t, k) && 1 <= s <= k.curstat
    ensures k.out[s] <==> |t| - 1 in Elements(k.posns[s])
    ensures s == 1 ==> Elements(k.posns[s]) == {}
  {
  }

  lemma AcceptsNow(t: Table, s: set<Position>, w: Word)
    ensures |t| - 1 in s ==> Accepts(t, s, w)
    ensures |t| - 1 !in s ==> (Accepts(t, s, w) <==> exists n :: n > 0 && AcceptsAfter(t, s, w, n))
  {
    assert w[..0] == [];
    assert AcceptsAfter(t, s, w, 0) <==> |t| - 1 in s;
  }

  /** What is accepted after the first symbol is accepted from the next set. */
  lemma AcceptsNext(t: Table, s: set<Position>, w: Word)
    requires w != []
    ensures (exists n :: n > 0 && AcceptsAfter(t, s, w, n)) <==> Accepts(t, Step(t, s, w[0]), w[1..])
  {
    var s1 := Step(t, s, w[0]);
    if n :| n > 0 && AcceptsAfter(t, s, w, n) {
      AcceptsAfterStep(t, s, w, n - 1);
      assert AcceptsAfter(t, s1, w[1..], n - 1);
    }
    if n :| AcceptsAfter(t, s1, w[1..], n) {
      AcceptsAfterStep(t, s, w, n);
      assert AcceptsAfter(t, s, w, n + 1);
    }
  }

  lemma RestIsSubject(w: Word)
    requires IsSubject(w)
    ensures w != [] && AllBytes(w) && 0 <= w[0] < HAT && (w[0] == 0 <==> |w| == 1)
    ensures |w| > 1 ==> IsSubject(w[1..])
  {
  }

  /** A list that does as well gives the same answer on the rest of the subject. */
  lemma AlikeAnswers(t: Table, w: Word, l: List, m: List)
    requires IsSubject(w) && Alike(t, false, w[0], l, m)
    ensures Accepts(t, Elements(l), w[1..]) <==> Accepts(t, Elements(m), w[1..])
  {
    hide Accepts, Elements;
    RestIsSubject(w);
  }

  lemma {:induction false} MatchLoopCorrect(t: Table, k: Cache, s: int, w: Word)
    requires Shape(t, k) && RowsAlike(t, false, k) && 1 <= s <= k.curstat && IsSubject(w)
    requires MatchHarmless(t, k, s, w)
    ensures MatchLoop(t, k, s, w).1 <==> exists n :: n > 0 && AcceptsAfter(t, Elements(k.posns[s]), w, n)
    decreases |w|
  {
    hide RowsAlike, IsList, Goto, Harms, Alike, Elements, Step, Shape, IsSubject, AcceptsAfter;
    ShapeSized(t, k);
    RestIsSubject(w);
    var (k', s') := Goto(t, k, s, w[0]);
    GotoAlike(t, false, k, s, w[0]);
    ShapeSized(t, k');
    NextElements(t, k, s, w[0]);
    StateIs(t, k', s');
    AcceptsNext(t, Elements(k.posns[s]), w);
    AlikeAnswers(t, w, k'.posns[s'], Next(t, k.posns[s], w[0]));
    AcceptsNow(t, Elements(k'.posns[s']), w[1..]);
    if !k'.out[s'] {
      if |w| == 1 {
        NothingAfter(t, Elements(k'.posns[s']), w[1..]);
      } else {
        MatchLoopCorrect(t, k', s', w[1..]);
      }
    }
  }

  lemma ShapeSized(t: Table, k: Cache)
    requires Shape(t, k)
    ensures Sized(k) && Sound(t)
  {
  }

  lemma NextElements(t: Table, k: Cache, s: int, c: Symbol)
    requires Shape(t, k) && 1 <= s <= k.curstat && 0 <= c < HAT
    ensures Elements(Next(t, k.posns[s], c)) == Step(t, Elements(k.posns[s]), c)
  {
    NextIsList(t, k.posns[s], c);
  }

  lemma NothingAfter(t: Table, s: set<Position>, w: Word)
    requires w == []
    ensures !exists n :: n > 0 && AcceptsAfter(t, s, w, n)
  {
  }

  lemma GotoValid(t: Table, anchor: bool, k: Cache, s: int, c: Symbol)
    requires Valid(t, anchor, k) && 1 <= s <= k.curstat && 0 <= c < HAT
    ensures Valid(t, anchor, Goto(t, k, s, c).0)
  {
    GotoShape(t, k, s, c);
    if !k.reset { GotoReady(t, anchor, k, s, c); }
  }

  lemma {:induction false} MatchLoopValid(t: Table, k: Cache, s: int, w: Word)
    requires Valid(t, false, k) && 1 <= s <= k.curstat
    requires forall i :: 0 <= i < |w| ==> 0 <= w[i] < HAT
    ensures Valid(t, false, MatchLoop(t, k, s, w).0)
    decreases |w|
  {
    if w != [] {
      GotoShape(t, k, s, w[0]);
      GotoValid(t, false, k, s, w[0]);
      var (k', s') := Goto(t, k, s, w[0]);
      MatchLoopValid(t, k', s', w[1..]);
    }
  }

  /** match on a subject. */
  ghost function Match(t: Table, k: Cache, w: Word): (Cache, bool)
    requires Valid(t, false, k) && IsSubject(w)
  {
    BeginReady(t, false, k);
    var (k1, s) := Begin(t, false, k);
    if k1.out[s] then (k1, true) else MatchLoop(t, k1, s, w)
  }

  /** Whatever a call of match does to the table, the next call can start from the cache it leaves. */
  lemma MatchValid(t: Table, k: Cache, w: Word)
    requires Valid(t, false, k) && IsSubject(w)
    ensures Valid(t, false, Match(t, k, w).0)
  {
    BeginReady(t, false, k);
    var (k1, s) := Begin(t, false, k);
    hide Initial, RowsOk, Goto;
    MatchLoopValid(t, k1, s, w);
  }

  ghost predicate MatchRunHarmless(t: Table, k: Cache, w: Word)
    requires Valid(t, false, k) && IsSubject(w)
  {
    BeginReady(t, false, k);
    var (k1, s) := Begin(t, false, k);
    k1.out[s] || MatchHarmless(t, k1, s, w)
  }

  lemma InitElements(t: Table, anchor: bool)
    requires Searchable(t)
    ensures Elements(InitList(t, anchor)) == InitSet(t, anchor)
  {
    StepInTable(t, StartSet(t), HAT);
    ElementsOfDesc(InitSet(t, anchor), |t|);
  }

  // --- pmatch and nematch ---

  ghost predicate AllBytes(w: Word) { forall i :: 0 <= i < |w| ==> 0 <= w[i] < HAT }

  /** The inner loop from state `s`, `q` symbols into the match, on the rest `u` of the subject: the
      cache it leaves, and the length of the longest match seen (`best` so far). */
  ghost function Scan(t: Table, k: Cache, s: int, u: Word, q: int, best: int): (Cache, int)
    requires Shape(t, k) && 1 <= s <= k.curstat && AllBytes(u) && u != []
    decreases |u|
  {
    var b := if k.out[s] then q else best;
    GotoShape(t, k, s, u[0]);
    var (k', s') := Goto(t, k, s, u[0]);
    if s' == 1 then (k', b)
    else if |u| == 1 then (k', if k'.out[s'] then q + 1 else b)
    else Scan(t, k', s', u[1..], q + 1, b)
  }

  ghost predicate ScanHarmless(t: Table, k: Cache, s: int, u: Word)
    requires Shape(t, k) && 1 <= s <= k.curstat && AllBytes(u) && u != []
    decreases |u|
  {
    GotoShape(t, k, s, u[0]);
    var (k', s') := Goto(t, k, s, u[0]);
    !Harms(t, true, k, s, u[0]) && (s' == 1 || |u| == 1 || ScanHarmless(t, k', s', u[1..]))
  }

  /** `b` is the longest length accepted on `u` from the set `s`, counted from `q`; or `best` if none is. */
  ghost predicate IsLongest(t: Table, s: set<Position>, u: Word, q: int, best: int, b: int) {
    if forall n :: !AcceptsAfter(t, s, u, n) then b == best
    else AcceptsAfter(t, s, u, b - q) && forall n :: AcceptsAfter(t, s, u, n) ==> n <= b - q
  }

  lemma LongestStep(t: Table, s: set<Position>, u: Word, q: int, best: int, b: int)
    requires u != []
    requires var now := if |t| - 1 in s then q else best;
             IsLongest(t, Step(t, s, u[0]), u[1..], q + 1, now, b)
    ensures IsLongest(t, s, u, q, best, b)
  {
    var s' := Step(t, s, u[0]);
    assert u[..0] == [];
    assert AcceptsAfter(t, s, u, 0) <==> |t| - 1 in s;
    forall n ensures n > 0 ==> (AcceptsAfter(t, s, u, n) <==> AcceptsAfter(t, s', u[1..], n - 1)) {
      AcceptsAfterStep(t, s, u, n - 1);
    }
    forall n | AcceptsAfter(t, s', u[1..], n) ensures AcceptsAfter(t, s, u, n + 1) {
      AcceptsAfterStep(t, s, u, n);
    }
  }

  lemma DeadState(t: Table, s: set<Position>, u: Word, q: int, best: int)
    requires s == {}
    ensures IsLongest(t, s, u, q, best, best)
  {
    forall n | 0 <= n <= |u| ensures !AcceptsAfter(t, s, u, n) { RunFromNowhere(t, u[..n]); }
  }

  lemma NothingLeft(t: Table, s: set<Position>, u: Word, q: int, best: int)
    requires u == []
    ensures IsLongest(t, s, u, q, best, if |t| - 1 in s then q else best)
  {
    assert u[..0] == [];
    assert AcceptsAfter(t, s, u, 0) <==> |t| - 1 in s;
  }

  /** A list that does as well has the same longest length, from wherever it is counted. */
  lemma AlikeLongest(t: Table, w: Word, l: List, m: List, q: int, best: int, b: int)
    requires IsSubject(w) && Alike(t, true, w[0], l, m) && IsLongest(t, Elements(l), w[1..], q, best, b)
    ensures IsLongest(t, Elements(m), w[1..], q, best, b)
  {
    RestIsSubject(w);
    if l != m {
      hide Elements, AcceptsAfter;
      var u := w[1..];
      var b0 := if forall n :: !AcceptsAfter(t, Elements(l), u, n) then -1 else b - q;
      LengthsFrom(t, Elements(l), u, q, best, b, b0);
      assert IsLongest(t, Elements(l), u, 0, -1, b0) <==> IsLongest(t, Elements(m), u, 0, -1, b0);
      LengthsBack(t, Elements(l), Elements(m), u, q, best, b, b0);
    }
  }

  lemma LengthsFrom(t: Table, s: set<Position>, u: Word, q: int, best: int, b: int, b0: int)
    requires IsLongest(t, s, u, q, best, b)
    requires b0 == if forall n :: !AcceptsAfter(t, s, u, n) then -1 else b - q
    ensures IsLongest(t, s, u, 0, -1, b0) && b0 >= -1
  {
  }

  lemma LengthsBack(t: Table, s: set<Position>, r: set<Position>, u: Word, q: int, best: int, b: int, b0: int)
    requires IsLongest(t, s, u, q, best, b) && IsLongest(t, s, u, 0, -1, b0) && IsLongest(t, r, u, 0, -1, b0)
    ensures IsLongest(t, r, u, q, best, b)
  {
    assert !AcceptsAfter(t, s, u, -1) && !AcceptsAfter(t, r, u, -1);
  }

  lemma {:induction false} ScanCorrect(t: Table, k: Cache, s: int, u: Word, q: int, best: int)
    requires Shape(t, k) && RowsAlike(t, true, k) && 1 <= s <= k.curstat && IsSubject(u)
    requires AllBytes(u) && ScanHarmless(t, k, s, u)
    ensures IsLongest(t, Elements(k.posns[s]), u, q, best, Scan(t, k, s, u, q, best).1)
    decreases |u|
  {
    hide RowsAlike, IsList, Goto, Harms, Alike, IsLongest, Elements, Step, Shape, IsSubject;
    ShapeSized(t, k);
    RestIsSubject(u);
    var (k', s') := Goto(t, k, s, u[0]);
    GotoAlike(t, true, k, s, u[0]);
    ShapeSized(t, k');
    NextElements(t, k, s, u[0]);
    StateIs(t, k, s);
    StateIs(t, k', s');
    var now := if k.out[s] then q else best;
    var s1, b := Elements(k'.posns[s']), Scan(t, k, s, u, q, best).1;
    if s' == 1 {
      DeadState(t, s1, u[1..], q + 1, now);
    } else if |u| == 1 {
      NothingLeft(t, s1, u[1..], q + 1, now);
    } else {
      ScanCorrect(t, k', s', u[1..], q + 1, now);
    }
    AlikeLongest(t, u, k'.posns[s'], Next(t, k.posns[s], u[0]), q + 1, now, b);
    LongestStep(t, Elements(k.posns[s]), u, q, best, b);
  }

  lemma {:induction false} ScanValid(t: Table, k: Cache, s: int, u: Word, q: int, best: int)
    requires Valid(t, true, k) && 1 <= s <= k.curstat && AllBytes(u) && u != []
    ensures Valid(t, true, Scan(t, k, s, u, q, best).0)
    decreases |u|
  {
    GotoShape(t, k, s, u[0]);
    GotoValid(t, true, k, s, u[0]);
    var (k', s') := Goto(t, k, s, u[0]);
    if s' != 1 && |u| > 1 {
      ScanValid(t, k', s', u[1..], q + 1, if k.out[s] then q else best);
    }
  }

  /** What pmatch does before the next start: after a flush, state 2 is made again from slot 0. */
  ghost function Rewind(k: Cache): Cache
    requires Sized(k)
  {
    if k.reset then
      k.(tab := k.tab[2 := ZeroRow()], posns := k.posns[2 := k.posns[0]], out := k.out[2 := k.out[0]],
         curstat := 2, initstat := 2)
    else k
  }

  lemma RewindReady(t: Table, k: Cache)
    requires Valid(t, true, k)
    ensures Ready(t, true, Rewind(k)) && Rewind(k).posns[2] == StartList(t, true)
  {
    hide RowsOk, StartList, InitList, Next, IsList, Desc, Sound, Searchable;
    if k.reset {
      RewindShape(t, k);
      UnknownRows(t, Rewind(k));
    }
  }

  lemma RewindShape(t: Table, k: Cache)
    requires Searchable(t) && Shape(t, k) && k.posns[0] == StartList(t, true) && (k.out[0] <==> |t| - 1 in k.posns[0])
    ensures k.reset ==> Shape(t, Rewind(k)) && Unknown(Rewind(k))
  {
    hide Next, IsList, Desc, Sound, Searchable, StartList, InitList, Elements, DropLast;
    AnchoredLists(t);
  }

  /** What the next start of an outer loop relies on. */
  lemma StartAfter(t: Table, k: Cache, s: int, w: Word, p: int, best: int)
    requires Valid(t, true, k) && 1 <= s <= k.curstat && IsSubject(w) && 0 <= p < |w|
    ensures AllBytes(w[p..]) && w[p..] != [] && Shape(t, k) && (w[p] != 0 ==> p + 1 < |w|)
    ensures var k1 := Scan(t, k, s, w[p..], 0, best).0;
            Sized(k1) && Valid(t, true, k1) && Valid(t, true, Rewind(k1)) && 2 <= Rewind(k1).curstat
  {
    hide RowsOk, Initial, Searchable, StartList, Scan;
    ScanValid(t, k, s, w[p..], 0, best);
    RewindReady(t, Scan(t, k, s, w[p..], 0, best).0);
  }

  datatype Found = None | Some(start: int, length: int)

  /** The outer loop of pmatch from the start `p`. */
  ghost function PmatchFrom(t: Table, k: Cache, s: int, w: Word, p: int, best: int): (Cache, Found)
    requires Valid(t, true, k) && 1 <= s <= k.curstat && IsSubject(w) && 0 <= p <= |w|
    decreases |w| - p
  {
    if p == |w| then (k, None)
    else
      hide *;
      StartAfter(t, k, s, w, p, best);
      var (k1, b) := Scan(t, k, s, w[p..], 0, best);
      if b >= 0 then (k1, Some(p, b))
      else PmatchFrom(t, Rewind(k1), 2, w, p + 1, b)
  }

  ghost predicate PmatchFromHarmless(t: Table, k: Cache, s: int, w: Word, p: int, best: int)
    requires Valid(t, true, k) && 1 <= s <= k.curstat && IsSubject(w) && 0 <= p <= |w|
    decreases |w| - p
  {
    p == |w| ||
    (hide *;
     StartAfter(t, k, s, w, p, best);
     var (k1, b) := Scan(t, k, s, w[p..], 0, best);
     ScanHarmless(t, k, s, w[p..]) && (b >= 0 || PmatchFromHarmless(t, Rewind(k1), 2, w, p + 1, b)))
  }

  ghost function Pmatch(t: Table, k: Cache, w: Word): (Cache, Found)
    requires Valid(t, true, k) && IsSubject(w)
  {
    BeginReady(t, true, k);
    var (k1, s) := Begin(t, true, k);
    PmatchFrom(t, k1, s, w, 0, -1)
  }

  lemma {:induction false} PmatchFromValid(t: Table, k: Cache, s: int, w: Word, p: int, best: int)
    requires Valid(t, true, k) && 1 <= s <= k.curstat && IsSubject(w) && 0 <= p <= |w|
    ensures Valid(t, true, PmatchFrom(t, k, s, w, p, best).0)
    decreases |w| - p
  {
    hide Scan, RowsOk, Initial;
    if p < |w| {
      ScanValid(t, k, s, w[p..], 0, best);
      var (k1, b) := Scan(t, k, s, w[p..], 0, best);
      RewindReady(t, k1);
      if b < 0 { PmatchFromValid(t, Rewind(k1), 2, w, p + 1, b); }
    }
  }

  /** The same for pmatch. */
  lemma PmatchValid(t: Table, k: Cache, w: Word)
    requires Valid(t, true, k) && IsSubject(w)
    ensures Valid(t, true, Pmatch(t, k, w).0)
  {
    BeginReady(t, true, k);
    var (k1, s) := Begin(t, true, k);
    PmatchFromValid(t, k1, s, w, 0, -1);
  }

  /** No step of a pmatch run harms. */
  ghost predicate PmatchRunHarmless(t: Table, k: Cache, w: Word)
    requires Valid(t, true, k) && IsSubject(w)
  {
    BeginReady(t, true, k);
    var (k1, s) := Begin(t, true, k);
    PmatchFromHarmless(t, k1, s, w, 0, -1)
  }

  /** The outer loop of nematch: it stops at the NUL, and goes on after an empty match. */
  ghost function NematchFrom(t: Table, k: Cache, s: int, w: Word, p: int, best: int): (Cache, Found)
    requires Valid(t, true, k) && 1 <= s <= k.curstat && IsSubject(w) && 0 <= p < |w|
    decreases |w| - p
  {
    if w[p] == 0 then (k, None)
    else
      hide *;
      StartAfter(t, k, s, w, p, best);
      var (k1, b) := Scan(t, k, s, w[p..], 0, best);
      if b > 0 then (k1, Some(p, b))
      else NematchFrom(t, Rewind(k1), 2, w, p + 1, b)
  }

  ghost predicate NematchFromHarmless(t: Table, k: Cache, s: int, w: Word, p: int, best: int)
    requires Valid(t, true, k) && 1 <= s <= k.curstat && IsSubject(w) && 0 <= p < |w|
    decreases |w| - p
  {
    w[p] == 0 ||
    (hide *;
     StartAfter(t, k, s, w, p, best);
     var (k1, b) := Scan(t, k, s, w[p..], 0, best);
     ScanHarmless(t, k, s, w[p..]) && (b > 0 || NematchFromHarmless(t, Rewind(k1), 2, w, p + 1, b)))
  }

  ghost function Nematch(t: Table, k: Cache, w: Word): (Cache, Found)
    requires Valid(t, true, k) && IsSubject(w)
  {
    BeginReady(t, true, k);
    var (k1, s) := Begin(t, true, k);
    NematchFrom(t, k1, s, w, 0, -1)
  }

  lemma {:induction false} NematchFromValid(t: Table, k: Cache, s: int, w: Word, p: int, best: int)
    requires Valid(t, true, k) && 1 <= s <= k.curstat && IsSubject(w) && 0 <= p < |w|
    ensures Valid(t, true, NematchFrom(t, k, s, w, p, best).0)
    decreases |w| - p
  {
    hide Scan, RowsOk, Initial;
    if w[p] != 0 {
      ScanValid(t, k, s, w[p..], 0, best);
      var (k1, b) := Scan(t, k, s, w[p..], 0, best);
      RewindReady(t, k1);
      if b <= 0 { NematchFromValid(t, Rewind(k1), 2, w, p + 1, b); }
    }
  }

  /** And for nematch. */
  lemma NematchValid(t: Table, k: Cache, w: Word)
    requires Valid(t, true, k) && IsSubject(w)
    ensures Valid(t, true, Nematch(t, k, w).0)
  {
    BeginReady(t, true, k);
    var (k1, s) := Begin(t, true, k);
    NematchFromValid(t, k1, s, w, 0, -1);
  }

  ghost predicate NematchRunHarmless(t: Table, k: Cache, w: Word)
    requires Valid(t, true, k) && IsSubject(w)
  {
    BeginReady(t, true, k);
    var (k1, s) := Begin(t, true, k);
    NematchFromHarmless(t, k1, s, w, 0, -1)
  }

  /** The set a scan starts from. */
  ghost function ScanStart(t: Table, p: int): set<Position>
    requires |t| > 0
  {
    if p == 0 then InitSet(t, true) else StartSet(t) - {0}
  }

  /** The automaton accepts `w[p..p + n]` from the set that a scan at `p` starts from. */
  ghost predicate Accepted(t: Table, w: Word, p: int, n: int)
    requires |t| > 0
  {
    0 <= p <= |w| && AcceptsAfter(t, ScanStart(t, p), w[p..], n)
  }

  /** The longest accepted length at `p`, or `best` if there is none. */
  ghost predicate BestAt(t: Table, w: Word, p: int, best: int, b: int)
    requires |t| > 0
  {
    if forall n :: !Accepted(t, w, p, n) then b == best
    else Accepted(t, w, p, b) && forall n :: Accepted(t, w, p, n) ==> n <= b
  }

  /** From `p` on: the leftmost start, then the longest length. */
  ghost predicate LeftmostLongest(t: Table, w: Word, p: int, f: Found)
    requires |t| > 0
  {
    match f
    case None => forall i, n :: p <= i < |w| ==> !Accepted(t, w, i, n)
    case Some(start, length) =>
      && p <= start < |w| && Accepted(t, w, start, length)
      && (forall n :: Accepted(t, w, start, n) ==> n <= length)
      && (forall i, n :: p <= i < start ==> !Accepted(t, w, i, n))
  }

  /** The leftmost start before the NUL with a length above 0, then the longest. */
  ghost predicate LeftmostLongestNonEmpty(t: Table, w: Word, p: int, f: Found)
    requires |t| > 0
  {
    match f
    case None => forall i, n :: p <= i < |w| - 1 && n > 0 ==> !Accepted(t, w, i, n)
    case Some(start, length) =>
      && p <= start < |w| - 1 && length > 0 && Accepted(t, w, start, length)
      && (forall n :: Accepted(t, w, start, n) ==> n <= length)
      && (forall i, n :: p <= i < start && n > 0 ==> !Accepted(t, w, i, n))
  }

  lemma LongestIsBest(t: Table, w: Word, p: int, best: int, b: int)
    requires |t| > 0 && 0 <= p <= |w|
    requires IsLongest(t, ScanStart(t, p), w[p..], 0, best, b)
    ensures BestAt(t, w, p, best, b) && (b < 0 ==> forall n :: !Accepted(t, w, p, n))
  {
    forall n ensures Accepted(t, w, p, n) <==> AcceptsAfter(t, ScanStart(t, p), w[p..], n) {}
  }

  lemma StartElements(t: Table)
    requires Searchable(t)
    ensures Elements(StartList(t, true)) == StartSet(t) - {0}
  {
    FollowInTable(t, t[0].kont);
    ElementsOfDesc(StartSet(t) - {0}, |t|);
  }

  lemma SuffixIsSubject(w: Word, p: int)
    requires IsSubject(w) && 0 <= p < |w|
    ensures IsSubject(w[p..])
  {
  }

  /** One scan: the best length at `p`. */
  lemma ScanBest(t: Table, k: Cache, s: int, w: Word, p: int, best: int) returns (k1: Cache, b: int)
    requires Ready(t, true, k) && 1 <= s <= k.curstat && IsSubject(w) && 0 <= p < |w|
    requires Elements(k.posns[s]) == ScanStart(t, p) && ScanHarmless(t, k, s, w[p..])
    ensures (k1, b) == Scan(t, k, s, w[p..], 0, best) && Valid(t, true, k1) && Sized(k1)
    ensures BestAt(t, w, p, best, b) && (b < 0 ==> forall n :: !Accepted(t, w, p, n))
  {
    hide Scan, ScanHarmless, RowsOk, RowsAlike, IsLongest, BestAt, Accepted, Initial, IsList;
    RowsOkAlike(t, true, k);
    SuffixIsSubject(w, p);
    ScanValid(t, k, s, w[p..], 0, best);
    ScanCorrect(t, k, s, w[p..], 0, best);
    var scan := Scan(t, k, s, w[p..], 0, best);
    k1, b := scan.0, scan.1;
    LongestIsBest(t, w, p, best, b);
  }

  /** And the state the next one starts from. */
  lemma NextStart(t: Table, k: Cache, p: int)
    requires Valid(t, true, k) && p >= 0
    ensures Ready(t, true, Rewind(k)) && 2 <= Rewind(k).curstat && Sized(Rewind(k))
    ensures Elements(Rewind(k).posns[2]) == ScanStart(t, p + 1)
  {
    RewindReady(t, k);
    StartElements(t);
  }

  lemma {:induction false} PmatchFromCorrect(t: Table, k: Cache, s: int, w: Word, p: int, best: int)
    requires Ready(t, true, k) && 1 <= s <= k.curstat && IsSubject(w) && 0 <= p <= |w| && best < 0
    requires Elements(k.posns[s]) == ScanStart(t, p)
    requires PmatchFromHarmless(t, k, s, w, p, best)
    ensures LeftmostLongest(t, w, p, PmatchFrom(t, k, s, w, p, best).1)
    decreases |w| - p
  {
    hide Scan, ScanHarmless, Shape, RowsOk, Initial, Accepted;
    if p < |w| {
      var k1, b := ScanBest(t, k, s, w, p, best);
      NextStart(t, k1, p);
      if b < 0 {
        PmatchFromCorrect(t, Rewind(k1), 2, w, p + 1, b);
      }
    }
  }

  /** pmatch finds the leftmost and there the longest piece that the automaton accepts, or none if
      there is none; whatever the cache holds, and across flushes. */
  lemma PmatchFinds(t: Table, k: Cache, w: Word)
    requires Valid(t, true, k) && IsSubject(w) && PmatchRunHarmless(t, k, w)
    ensures LeftmostLongest(t, w, 0, Pmatch(t, k, w).1)
  {
    BeginReady(t, true, k);
    var (k1, s) := Begin(t, true, k);
    InitElements(t, true);
    PmatchFromCorrect(t, k1, s, w, 0, -1);
  }

  lemma {:induction false} NematchFromCorrect(t: Table, k: Cache, s: int, w: Word, p: int, best: int)
    requires Ready(t, true, k) && 1 <= s <= k.curstat && IsSubject(w) && 0 <= p < |w| && best <= 0
    requires Elements(k.posns[s]) == ScanStart(t, p)
    requires NematchFromHarmless(t, k, s, w, p, best)
    ensures LeftmostLongestNonEmpty(t, w, p, NematchFrom(t, k, s, w, p, best).1)
    decreases |w| - p
  {
    hide Scan, ScanHarmless, Shape, RowsOk, Initial, Accepted;
    if w[p] != 0 {
      var k1, b := ScanBest(t, k, s, w, p, best);
      NextStart(t, k1, p);
      if b <= 0 {
        NematchFromCorrect(t, Rewind(k1), 2, w, p + 1, b);
      }
    }
  }

  lemma NematchFinds(t: Table, k: Cache, w: Word)
    requires Valid(t, true, k) && IsSubject(w) && NematchRunHarmless(t, k, w)
    ensures LeftmostLongestNonEmpty(t, w, 0, Nematch(t, k, w).1)
  {
    BeginReady(t, true, k);
    var (k1, s) := Begin(t, true, k);
    InitElements(t, true);
    NematchFromCorrect(t, k1, s, w, 0, -1);
  }

  /** match accepts exactly when the automaton, started before HAT, accepts some prefix. */
  lemma MatchFinds(t: Table, k: Cache, w: Word)
    requires Valid(t, false, k) && IsSubject(w) && MatchRunHarmless(t, k, w)
    ensures Match(t, k, w).1 <==> exists n :: n > 0 && AcceptsAfter(t, StartSet(t), [HAT] + w, n)
  {
    hide Initial, Goto, Step, MatchLoop, MatchHarmless, RowsOk, RowsAlike;
    BeginReady(t, false, k);
    var (k1, s) := Begin(t, false, k);
    var v := [HAT] + w;
    InitElements(t, false);
    AcceptsNext(t, StartSet(t), v);
    assert v[1..] == w;
    AcceptsNow(t, InitSet(t, false), w);
    StateIs(t, k1, s);
    if !k1.out[s] {
      RowsOkAlike(t, false, k1);
      MatchLoopCorrect(t, k1, s, w);
    }
  }
}
