/** When the table of cmd/awk/b.c cannot go wrong: an expression whose searches reach few lists of
    positions never fills the table. */
module AwkFlush {
  import opened AwkRegex
  import opened AwkPositions
  import opened AwkAutomaton
  import opened AwkCache
  import opened AwkSearch

  /** A set of lists that holds the lists a search starts from and all that is reached from them. */
  ghost predicate Family(t: Table, anchor: bool, f: set<List>)
    requires |t| > 0
  {
    && [] in f && StartList(t, anchor) in f && InitList(t, anchor) in f
    && forall l, c :: l in f && 0 <= c < HAT ==> Next(t, l, c) in f
  }

  /** No flush has happened, and the states are different members of `f`. */
  ghost predicate Calm(t: Table, anchor: bool, f: set<List>, k: Cache) {
    && Ready(t, anchor, k) && !k.reset
    && (forall s :: 1 <= s <= k.curstat ==> k.posns[s] in f)
    && (forall i, j :: 1 <= i < j <= k.curstat ==> k.posns[i] != k.posns[j])
  }

  lemma {:induction false} DistinctCount(l: seq<List>, f: set<List>)
    requires forall i, j :: 0 <= i < j < |l| ==> l[i] != l[j]
    requires forall i :: 0 <= i < |l| ==> l[i] in f
    ensures |l| <= |f|
    decreases |l|
  {
    if l != [] {
      var last := l[|l| - 1];
      DistinctCount(l[..|l| - 1], f - {last});
    }
  }

  lemma NoRoomForMore(t: Table, anchor: bool, f: set<List>, k: Cache, l: List)
    requires Calm(t, anchor, f, k) && |f| < NSTATES && l in f && k.curstat == NSTATES - 1
    ensures Find(k.posns, l, 1, k.curstat) != 0
  {
    if Find(k.posns, l, 1, k.curstat) == 0 {
      DistinctCount(k.posns[1..] + [l], f);
    }
  }

  /** With at most NSTATES - 1 lists, no step flushes, and the states stay as they should be. */
  lemma CalmGoto(t: Table, anchor: bool, f: set<List>, k: Cache, s: int, c: Symbol)
    requires |t| > 0 && Family(t, anchor, f) && |f| < NSTATES && Calm(t, anchor, f, k)
    requires 1 <= s <= k.curstat && 0 <= c < HAT
    ensures var (k', s') := Goto(t, k, s, c);
            Calm(t, anchor, f, k') && 1 <= s' <= k'.curstat && !Clobbers(t, k, s, c)
  {
    GotoReady(t, anchor, k, s, c);
    var next := Next(t, k.posns[s], c);
    if k.curstat == NSTATES - 1 {
      NoRoomForMore(t, anchor, f, k, next);
    }
  }

  lemma {:induction false} CalmMatchLoop(t: Table, f: set<List>, k: Cache, s: int, w: Word)
    requires |t| > 0 && Family(t, false, f) && |f| < NSTATES && Calm(t, false, f, k)
    requires 1 <= s <= k.curstat && AllBytes(w)
    ensures MatchHarmless(t, k, s, w) && Calm(t, false, f, MatchLoop(t, k, s, w).0)
    decreases |w|
  {
    hide Goto, Clobbers, Calm, Family, Alike;
    CalmIsReady(t, false, f, k);
    if w != [] {
      CalmGoto(t, false, f, k, s, w[0]);
      var (k', s') := Goto(t, k, s, w[0]);
      CalmIsReady(t, false, f, k');
      if !k'.out[s'] {
        CalmMatchLoop(t, f, k', s', w[1..]);
      }
    }
  }

  lemma CalmIsReady(t: Table, anchor: bool, f: set<List>, k: Cache)
    requires Calm(t, anchor, f, k)
    ensures Ready(t, anchor, k) && !k.reset
  {
  }

  lemma {:induction false} CalmScan(t: Table, f: set<List>, k: Cache, s: int, u: Word, q: int, best: int)
    requires |t| > 0 && Family(t, true, f) && |f| < NSTATES && Calm(t, true, f, k)
    requires 1 <= s <= k.curstat && AllBytes(u) && u != []
    ensures ScanHarmless(t, k, s, u) && Calm(t, true, f, Scan(t, k, s, u, q, best).0)
    decreases |u|
  {
    hide Goto, Clobbers, Calm, Family, Alike;
    CalmIsReady(t, true, f, k);
    CalmGoto(t, true, f, k, s, u[0]);
    var (k', s') := Goto(t, k, s, u[0]);
    CalmIsReady(t, true, f, k');
    if s' != 1 && |u| > 1 {
      CalmScan(t, f, k', s', u[1..], q + 1, if k.out[s] then q else best);
    }
  }

  lemma {:induction false} CalmPmatchFrom(t: Table, f: set<List>, k: Cache, s: int, w: Word, p: int, best: int)
    requires |t| > 0 && Family(t, true, f) && |f| < NSTATES && Calm(t, true, f, k)
    requires 1 <= s <= k.curstat && IsSubject(w) && 0 <= p <= |w|
    ensures PmatchFromHarmless(t, k, s, w, p, best) && Calm(t, true, f, PmatchFrom(t, k, s, w, p, best).0)
    decreases |w| - p
  {
    hide Scan, ScanHarmless, Calm, Family, RowsOk, Initial;
    CalmIsReady(t, true, f, k);
    if p < |w| {
      ScanValid(t, k, s, w[p..], 0, best);
      CalmScan(t, f, k, s, w[p..], 0, best);
      var (k1, b) := Scan(t, k, s, w[p..], 0, best);
      CalmIsReady(t, true, f, k1);
      if b < 0 {
        CalmPmatchFrom(t, f, k1, 2, w, p + 1, b);
      }
    }
  }

  lemma {:induction false} CalmNematchFrom(t: Table, f: set<List>, k: Cache, s: int, w: Word, p: int, best: int)
    requires |t| > 0 && Family(t, true, f) && |f| < NSTATES && Calm(t, true, f, k)
    requires 1 <= s <= k.curstat && IsSubject(w) && 0 <= p < |w|
    ensures NematchFromHarmless(t, k, s, w, p, best) && Calm(t, true, f, NematchFrom(t, k, s, w, p, best).0)
    decreases |w| - p
  {
    hide Scan, ScanHarmless, Calm, Family, RowsOk, Initial;
    CalmIsReady(t, true, f, k);
    if w[p] != 0 {
      ScanValid(t, k, s, w[p..], 0, best);
      CalmScan(t, f, k, s, w[p..], 0, best);
      var (k1, b) := Scan(t, k, s, w[p..], 0, best);
      CalmIsReady(t, true, f, k1);
      if b <= 0 {
        CalmNematchFrom(t, f, k1, 2, w, p + 1, b);
      }
    }
  }

  /** Three properties of one expression: every call of the matchers, from makedfa on, is free of the
      step that clobbers the table, if at most NSTATES - 1 lists can be reached. */
  lemma FewListsMatch(t: Table, f: set<List>, k: Cache, w: Word)
    requires |t| > 0 && Family(t, false, f) && |f| < NSTATES && Calm(t, false, f, k) && IsSubject(w)
    ensures MatchRunHarmless(t, k, w) && Calm(t, false, f, Match(t, k, w).0)
  {
    CalmMatchLoop(t, f, k, k.initstat, w);
  }

  lemma FewListsPmatch(t: Table, f: set<List>, k: Cache, w: Word)
    requires |t| > 0 && Family(t, true, f) && |f| < NSTATES && Calm(t, true, f, k) && IsSubject(w)
    ensures PmatchRunHarmless(t, k, w) && Calm(t, true, f, Pmatch(t, k, w).0)
    ensures NematchRunHarmless(t, k, w) && Calm(t, true, f, Nematch(t, k, w).0)
  {
    CalmPmatchFrom(t, f, k, k.initstat, w, 0, -1);
    CalmNematchFrom(t, f, k, k.initstat, w, 0, -1);
  }

  /** The lists of the two states that makeinit leaves differ when it leaves two. */
  lemma TwoStarts(t: Table, anchor: bool)
    requires Searchable(t)
    ensures InitList(t, anchor) == StartList(t, anchor) <==> InitList(t, false) == StartList(t, false)
  {
    hide Desc, InitSet, Step;
    StartNotEmpty(t);
    AnchoredLists(t);
    SameWithoutLast(StartList(t, false), InitList(t, false));
  }

  lemma SameWithoutLast(a: List, b: List)
    requires a != [] && b != [] && a[|a| - 1] == b[|b| - 1]
    ensures DropLast(a) == DropLast(b) <==> a == b
  {
    assert a == DropLast(a) + [a[|a| - 1]] && b == DropLast(b) + [b[|b| - 1]];
  }

  lemma MakedfaCalm(t: Table, anchor: bool, f: set<List>)
    requires Searchable(t) && Family(t, anchor, f) && StartList(t, anchor) != []
    ensures Calm(t, anchor, f, Makedfa(t, anchor))
  {
    BlankShape(t);
    MakeinitCorrect(t, Blank(), anchor);
    var k := Makeinit(t, Blank(), anchor);
    MakeinitStates(t, anchor);
    TwoStarts(t, anchor);
    assert k.posns[1] == [];
    InitNotEmpty(t, anchor);
  }

  lemma InitNotEmpty(t: Table, anchor: bool)
    requires Searchable(t) && StartList(t, anchor) != []
    ensures InitList(t, anchor) != []
  {
    FollowInTable(t, t[0].kont);
    StepInTable(t, StartSet(t), HAT);
    StartReachesItself(t);
    var s := if anchor then StartSet(t) - {0} else StartSet(t);
    ElementsOfDesc(s, |t|);
    ElementsOfDesc(InitSet(t, anchor), |t|);
    assert StartList(t, anchor)[0] in Elements(StartList(t, anchor));
    assert StartList(t, anchor)[0] in Elements(InitList(t, anchor));
  }

  lemma MakeinitStates(t: Table, anchor: bool)
    requires Searchable(t)
    ensures Shape(t, Blank())
    ensures Makeinit(t, Blank(), anchor).curstat == if InitList(t, false) == StartList(t, false) then 2 else 3
  {
    BlankShape(t);
    AfterHat(t, Blank());
    HatList(t);
  }
}
