/** Which calls of the matchers of cmd/awk/b.c are wrong, subject by subject.  After a step that harms the
    rest of the subject may *show* it: the search from the new state is wrong on that rest.  A call is right
    if and only if nothing it comes to shows a harm. */
module AwkShown {
  import opened AwkRegex
  import opened AwkPositions
  import opened AwkAutomaton
  import opened AwkCache
  import opened AwkSearch
  import opened AwkFound
  import opened AwkExact

  // --- match ---

  /** A step harms, and after the first that does the rest of the subject is answered wrongly. */
  ghost predicate LoopShows(t: Table, k: Cache, s: int, w: Word)
    requires Shape(t, k) && 1 <= s <= k.curstat && IsSubject(w)
    decreases |w|
  {
    hide *;
    RestIsSubject(w);
    GotoStep(t, k, s, w[0]);
    var (k', s') := Goto(t, k, s, w[0]);
    && |w| > 1 && !k'.out[s']
    && if Harms(t, false, k, s, w[0]) then LoopWrong(t, k', s', w[1..]) else LoopShows(t, k', s', w[1..])
  }

  ghost predicate LoopWrong(t: Table, k: Cache, s: int, w: Word)
    requires Shape(t, k) && 1 <= s <= k.curstat && IsSubject(w)
  {
    RestIsSubject(w);
    MatchLoop(t, k, s, w).1 != Answer(t, Elements(k.posns[s]), w)
  }

  lemma GotoStep(t: Table, k: Cache, s: int, c: Symbol)
    requires Shape(t, k) && 1 <= s <= k.curstat && 0 <= c < HAT
    ensures Sized(k) && 0 <= c < NCHARS
    ensures var (k', s') := Goto(t, k, s, c); Shape(t, k') && Sized(k') && 1 <= s' <= k'.curstat < NSTATES
  {
    GotoShape(t, k, s, c);
  }

  /** One symbol further the loop is as right as it was. */
  lemma LoopOn(t: Table, k: Cache, s: int, w: Word)
    requires Shape(t, k) && RowsAlike(t, false, k) && 1 <= s <= k.curstat && IsSubject(w) && |w| > 1
    ensures 0 <= w[0] < HAT && IsSubject(w[1..])
    ensures var (k', s') := Goto(t, k, s, w[0]);
            && Shape(t, k') && Sized(k') && 1 <= s' <= k'.curstat
            && (!k'.out[s'] ==> (LoopWrong(t, k, s, w) <==> LoopWrong(t, k', s', w[1..])))
  {
    hide Goto, MatchLoop, Answer, Accepts, Elements, Alike, RowsAlike, Shape, IsSubject, Next;
    RestIsSubject(w);
    GotoStep(t, k, s, w[0]);
    GotoAlike(t, false, k, s, w[0]);
    ShapeSized(t, k);
    var (k', s') := Goto(t, k, s, w[0]);
    assert [w[0]] + w[1..] == w;
    LoopNext(t, k, s, w[0], w[1..]);
    AnswerNext(t, k.posns[s], w[0], w[1..]);
    AlikeAnswers(t, w, k'.posns[s'], Next(t, k.posns[s], w[0]));
    StateIs(t, k', s');
    if !k'.out[s'] { AnswerNow(t, Elements(k'.posns[s']), w[1..]); }
  }

  /** At its end the loop is right. */
  lemma LoopEnds(t: Table, k: Cache, s: int, w: Word)
    requires Shape(t, k) && RowsAlike(t, false, k) && 1 <= s <= k.curstat && IsSubject(w) && 0 <= w[0] < HAT
    requires var (k', s') := Goto(t, k, s, w[0]);
             Sized(k') && 1 <= s' <= k'.curstat && (|w| == 1 || k'.out[s'])
    ensures !LoopWrong(t, k, s, w)
  {
    hide Goto, MatchLoop, Elements, RowsAlike, IsSubject, IsList;
    RestIsSubject(w);
    if Harms(t, false, k, s, w[0]) {
      Clobbered(t, k, s, w[0]);
    }
    MatchLoopCorrect(t, k, s, w);
  }

  lemma {:induction false} LoopExact(t: Table, k: Cache, s: int, w: Word)
    requires Shape(t, k) && RowsAlike(t, false, k) && 1 <= s <= k.curstat && IsSubject(w)
    ensures LoopWrong(t, k, s, w) <==> LoopShows(t, k, s, w)
    decreases |w|
  {
    hide Goto, LoopWrong, RowsAlike, Shape, IsSubject, Harms, Alike, Next;
    RestIsSubject(w);
    GotoStep(t, k, s, w[0]);
    var (k', s') := Goto(t, k, s, w[0]);
    if |w| == 1 || k'.out[s'] {
      LoopEnds(t, k, s, w);
    } else {
      LoopOn(t, k, s, w);
      GotoAlike(t, false, k, s, w[0]);
      if !Harms(t, false, k, s, w[0]) { LoopExact(t, k', s', w[1..]); }
    }
  }

  /** The subject shows a harm to match. */
  ghost predicate MatchShows(t: Table, k: Cache, w: Word)
    requires Valid(t, false, k) && IsSubject(w)
  {
    BeginReady(t, false, k);
    var (k1, s) := Begin(t, false, k);
    !k1.out[s] && LoopShows(t, k1, s, w)
  }

  /** On every subject: match is right if and only if the subject does not show a harm. */
  lemma MatchRightIff(t: Table, k: Cache, w: Word)
    requires Valid(t, false, k) && IsSubject(w)
    ensures (Match(t, k, w).1 <==> Answer(t, StartSet(t), [HAT] + w)) <==> !MatchShows(t, k, w)
  {
    hide Initial, Begin, RowsOk, RowsAlike, MatchLoop, LoopShows, Answer, IsSubject, IsList;
    AnswerBegin(t, k, w);
    var (k1, s) := Begin(t, false, k);
    BeginReady(t, false, k);
    RowsOkAlike(t, false, k1);
    LoopExact(t, k1, s, w);
  }

  /** And so it says whether the expression matches. */
  lemma MatchCorrectIff(r: Regex, k: Cache, w: Word)
    requires NoFinal(r) && Valid(Automaton(r), false, k) && IsSubject(w)
    ensures (Match(Automaton(r), k, w).1 <==> HasMatch(r, [HAT] + w)) <==> !MatchShows(Automaton(r), k, w)
  {
    hide Automaton, HasMatch, IsSubject, Match, MatchShows, AcceptsAfter, StartSet;
    MatchRightIff(Automaton(r), k, w);
    PrefixMatches(r, w);
  }

  // --- a scan ---

  ghost predicate ScanShows(t: Table, k: Cache, s: int, u: Word)
    requires Shape(t, k) && 1 <= s <= k.curstat && IsSubject(u)
    decreases |u|
  {
    hide *;
    RestIsSubject(u);
    GotoStep(t, k, s, u[0]);
    var (k', s') := Goto(t, k, s, u[0]);
    && |u| > 1 && s' != 1
    && if Harms(t, true, k, s, u[0]) then !ScanRight(t, k', s', u[1..]) else ScanShows(t, k', s', u[1..])
  }

  lemma LongestFrom(t: Table, s: set<Position>, u: Word, a: int, best: int)
    requires IsLongest(t, s, u, 0, -1, a) && a >= -1
    ensures IsLongest(t, s, u, 1, best, if a >= 0 then a + 1 else best)
  {
  }

  /** If the scan after the step is right, the scan before it is. */
  lemma RightBefore(t: Table, k: Cache, s: int, u: Word)
    requires Shape(t, k) && 1 <= s <= k.curstat && IsSubject(u) && |u| > 1 && 0 <= u[0] < HAT && IsSubject(u[1..])
    requires var (k', s') := Goto(t, k, s, u[0]);
             && Shape(t, k') && Sized(k') && 1 < s' <= k'.curstat
             && Alike(t, true, u[0], k'.posns[s'], Next(t, k.posns[s], u[0])) && ScanRight(t, k', s', u[1..])
    ensures ScanRight(t, k, s, u)
  {
    hide Goto, Scan, IsLongest, Elements, Step, Shape, IsSubject, Alike, Next;
    ShapeSized(t, k);
    RestIsSubject(u);
    assert [u[0]] + u[1..] == u;
    ScanNext(t, k, s, u[0], u[1..]);
    StateIs(t, k, s);
    NextElements(t, k, s, u[0]);
    var (k', s') := Goto(t, k, s, u[0]);
    var a := Scan(t, k', s', u[1..], 0, -1).1;
    AlikeLongest(t, u, k'.posns[s'], Next(t, k.posns[s], u[0]), 0, -1, a);
    LongestFrom(t, Step(t, Elements(k.posns[s]), u[0]), u[1..], a, if k.out[s] then 0 else -1);
    LongestStep(t, Elements(k.posns[s]), u, 0, -1, Scan(t, k, s, u, 0, -1).1);
  }

  /** At its end a scan is right. */
  lemma ScanEnds(t: Table, k: Cache, s: int, u: Word)
    requires Shape(t, k) && RowsAlike(t, true, k) && 1 <= s <= k.curstat && IsSubject(u) && 0 <= u[0] < HAT
    requires |u| == 1 || Goto(t, k, s, u[0]).1 == 1
    ensures ScanRight(t, k, s, u)
  {
    hide Goto, Scan, IsLongest, Elements, RowsAlike, IsSubject, IsList;
    RestIsSubject(u);
    if Harms(t, true, k, s, u[0]) {
      Clobbered(t, k, s, u[0]);
    }
    ScanCorrect(t, k, s, u, 0, -1);
  }

  /** A scan is right if and only if the rest of the subject shows no harm. */
  lemma {:induction false} ScanRightIff(t: Table, k: Cache, s: int, u: Word)
    requires Shape(t, k) && RowsAlike(t, true, k) && 1 <= s <= k.curstat && IsSubject(u)
    ensures ScanRight(t, k, s, u) <==> !ScanShows(t, k, s, u)
    decreases |u|
  {
    hide Goto, ScanRight, RowsAlike, Shape, IsSubject, Harms, Alike, Next;
    RestIsSubject(u);
    GotoStep(t, k, s, u[0]);
    var (k', s') := Goto(t, k, s, u[0]);
    if |u| == 1 || s' == 1 {
      ScanEnds(t, k, s, u);
    } else {
      GotoAlike(t, true, k, s, u[0]);
      if ScanRight(t, k', s', u[1..]) {
        RightBefore(t, k, s, u);
      } else {
        WrongScanBefore(t, k, s, u[0], u[1..]);
        assert [u[0]] + u[1..] == u;
      }
      if !Harms(t, true, k, s, u[0]) { ScanRightIff(t, k', s', u[1..]); }
    }
  }

  // --- pmatch ---

  /** A scan that pmatch comes to shows a harm. */
  ghost predicate PmatchFromShows(t: Table, k: Cache, s: int, w: Word, p: int, best: int)
    requires Valid(t, true, k) && 1 <= s <= k.curstat && IsSubject(w) && 0 <= p <= |w|
    decreases |w| - p
  {
    p < |w| &&
    (hide *;
     StartAfter(t, k, s, w, p, best);
     SuffixIsSubject(w, p);
     var (k1, b) := Scan(t, k, s, w[p..], 0, best);
     ScanShows(t, k, s, w[p..]) || (b < 0 && PmatchFromShows(t, Rewind(k1), 2, w, p + 1, b)))
  }

  /** A scan is right if and only if it finds the longest length at its start. */
  lemma RightIsBest(t: Table, k: Cache, s: int, w: Word, p: int, best: int)
    requires Shape(t, k) && 1 <= s <= k.curstat && IsSubject(w) && 0 <= p < |w|
    requires |t| > 0 && Elements(k.posns[s]) == ScanStart(t, p)
    ensures IsSubject(w[p..]) && AllBytes(w[p..])
    ensures var m := Scan(t, k, s, w[p..], 0, -1).1;
            && m >= -1 && Scan(t, k, s, w[p..], 0, best).1 == (if m >= 0 then m else best)
            && (ScanRight(t, k, s, w[p..]) <==> BestAt(t, w, p, -1, m))
  {
    hide Scan, IsSubject, Shape, ScanStart, AcceptsAfter, Elements;
    SuffixIsSubject(w, p);
    RestIsSubject(w[p..]);
    ScanShift(t, k, s, w[p..], 0, best);
    forall n ensures Accepted(t, w, p, n) <==> AcceptsAfter(t, ScanStart(t, p), w[p..], n) {}
  }

  /** The scan at `p` told right that there is nothing. */
  lemma NothingAt(t: Table, w: Word, p: int, f: Found)
    requires |t| > 0 && 0 <= p < |w| && (f.Some? ==> f.start > p)
    ensures LeftmostLongest(t, w, p, f) <==> BestAt(t, w, p, -1, -1) && LeftmostLongest(t, w, p + 1, f)
  {
    assert !Accepted(t, w, p, -1);
    hide Accepted;
    if LeftmostLongest(t, w, p, f) {
      forall n ensures !Accepted(t, w, p, n) {}
    }
  }

  lemma FoundAt(t: Table, w: Word, p: int, b: int)
    requires |t| > 0 && 0 <= p < |w| && b >= 0
    ensures LeftmostLongest(t, w, p, AwkSearch.Some(p, b)) <==> BestAt(t, w, p, -1, b)
  {
    hide Accepted;
  }

  lemma {:induction false} PmatchFromExact(t: Table, k: Cache, s: int, w: Word, p: int, best: int)
    requires Ready(t, true, k) && 1 <= s <= k.curstat && IsSubject(w) && 0 <= p <= |w| && best == -1
    requires Elements(k.posns[s]) == ScanStart(t, p)
    ensures LeftmostLongest(t, w, p, PmatchFrom(t, k, s, w, p, best).1) <==> !PmatchFromShows(t, k, s, w, p, best)
    decreases |w| - p
  {
    hide Scan, ScanRight, ScanShows, BestAt, Shape, RowsOk, RowsAlike, Initial, Accepted, LeftmostLongest;
    if p == |w| {
      PastTheEnd(t, w);
    } else {
      ShapeSized(t, k);
      RowsOkAlike(t, true, k);
      RightIsBest(t, k, s, w, p, best);
      ScanRightIff(t, k, s, w[p..]);
      StartAfter(t, k, s, w, p, best);
      var scan := Scan(t, k, s, w[p..], 0, best);
      var k1, b := scan.0, scan.1;
      if b >= 0 {
        FoundAt(t, w, p, b);
      } else {
        NextStart(t, k1, p);
        FoundFrom(t, Rewind(k1), 2, w, p + 1, b);
        NothingAt(t, w, p, PmatchFrom(t, Rewind(k1), 2, w, p + 1, b).1);
        PmatchFromExact(t, Rewind(k1), 2, w, p + 1, b);
      }
    }
  }

  lemma PastTheEnd(t: Table, w: Word)
    requires |t| > 0
    ensures LeftmostLongest(t, w, |w|, AwkSearch.None)
  {
  }

  ghost predicate PmatchShows(t: Table, k: Cache, w: Word)
    requires Valid(t, true, k) && IsSubject(w)
  {
    BeginReady(t, true, k);
    var (k1, s) := Begin(t, true, k);
    PmatchFromShows(t, k1, s, w, 0, -1)
  }

  /** On every subject: pmatch is right if and only if no scan it comes to shows a harm. */
  lemma PmatchRightIff(t: Table, k: Cache, w: Word)
    requires Valid(t, true, k) && IsSubject(w)
    ensures LeftmostLongest(t, w, 0, Pmatch(t, k, w).1) <==> !PmatchShows(t, k, w)
  {
    hide PmatchFrom, PmatchFromShows, LeftmostLongest, RowsOk, Initial, IsSubject, IsList;
    BeginReady(t, true, k);
    var (k1, s) := Begin(t, true, k);
    InitElements(t, true);
    PmatchFromExact(t, k1, s, w, 0, -1);
  }

  lemma PmatchCorrectIff(r: Regex, k: Cache, w: Word)
    requires NoFinal(r) && Valid(Automaton(r), true, k) && IsSubject(w)
    ensures IsLeftmostLongest(r, w, Pmatch(Automaton(r), k, w).1) <==> !PmatchShows(Automaton(r), k, w)
  {
    hide Automaton, Pmatch, PmatchShows, Accepted, IsMatch, Valid, IsSubject;
    PmatchRightIff(Automaton(r), k, w);
    forall i, n ensures |Automaton(r)| > 0 && (Accepted(Automaton(r), w, i, n) <==> IsMatch(r, w, i, n)) {
      AcceptedIsMatch(r, w, i, n);
    }
  }

  // --- nematch ---

  ghost predicate NematchFromShows(t: Table, k: Cache, s: int, w: Word, p: int, best: int)
    requires Valid(t, true, k) && 1 <= s <= k.curstat && IsSubject(w) && 0 <= p < |w|
    decreases |w| - p
  {
    w[p] != 0 &&
    (hide *;
     StartAfter(t, k, s, w, p, best);
     SuffixIsSubject(w, p);
     var (k1, b) := Scan(t, k, s, w[p..], 0, best);
     ScanShows(t, k, s, w[p..]) || (b <= 0 && NematchFromShows(t, Rewind(k1), 2, w, p + 1, b)))
  }

  /** A scan that finds no length above 0 finds the length 0 if and only if its first state accepts. */
  lemma LowScan(t: Table, k: Cache, s: int, u: Word)
    requires Shape(t, k) && 1 <= s <= k.curstat && AllBytes(u) && u != []
    ensures Sized(k)
    ensures var m := Scan(t, k, s, u, 0, -1).1; m <= 0 ==> m == if k.out[s] then 0 else -1
  {
    hide Goto, IsList;
    GotoStep(t, k, s, u[0]);
    var (k', s') := Goto(t, k, s, u[0]);
    if s' != 1 && |u| > 1 { ScanShift(t, k', s', u[1..], 1, if k.out[s] then 0 else -1); }
  }

  /** Told that there is no length above 0, rightly or not. */
  lemma LowIsBest(t: Table, k: Cache, s: int, w: Word, p: int)
    requires Shape(t, k) && 1 <= s <= k.curstat && IsSubject(w) && 0 <= p < |w| && AllBytes(w[p..])
    requires |t| > 0 && Elements(k.posns[s]) == ScanStart(t, p)
    ensures var m := Scan(t, k, s, w[p..], 0, -1).1;
            m <= 0 ==> (BestAt(t, w, p, -1, m) <==> forall n :: n > 0 ==> !Accepted(t, w, p, n))
  {
    hide Scan, Shape, ScanStart, IsSubject;
    LowScan(t, k, s, w[p..]);
    StateIs(t, k, s);
    ShapeSized(t, k);
    AcceptedNow(t, w, p);
    var m := Scan(t, k, s, w[p..], 0, -1).1;
    assert !Accepted(t, w, p, -1);
    hide Accepted;
    if m <= 0 && forall n :: n > 0 ==> !Accepted(t, w, p, n) {
      forall n | Accepted(t, w, p, n) ensures n == 0 {}
    }
  }

  lemma AcceptedNow(t: Table, w: Word, p: int)
    requires |t| > 0 && 0 <= p <= |w|
    ensures Accepted(t, w, p, 0) <==> |t| - 1 in ScanStart(t, p)
    ensures forall n :: Accepted(t, w, p, n) ==> n >= 0
  {
    assert w[p..][..0] == [];
  }

  lemma NothingLongAt(t: Table, w: Word, p: int, f: Found)
    requires |t| > 0 && 0 <= p < |w| - 1 && (f.Some? ==> f.start > p)
    ensures LeftmostLongestNonEmpty(t, w, p, f) <==>
            (forall n :: n > 0 ==> !Accepted(t, w, p, n)) && LeftmostLongestNonEmpty(t, w, p + 1, f)
  {
    hide Accepted;
    if LeftmostLongestNonEmpty(t, w, p, f) {
      forall n | n > 0 ensures !Accepted(t, w, p, n) {}
    }
  }

  lemma FoundLongAt(t: Table, w: Word, p: int, b: int)
    requires |t| > 0 && 0 <= p < |w| - 1 && b > 0
    ensures LeftmostLongestNonEmpty(t, w, p, AwkSearch.Some(p, b)) <==> BestAt(t, w, p, -1, b)
  {
    hide Accepted;
  }

  lemma {:induction false} FoundLongFrom(t: Table, k: Cache, s: int, w: Word, p: int, best: int)
    requires Valid(t, true, k) && 1 <= s <= k.curstat && IsSubject(w) && 0 <= p < |w|
    ensures var f := NematchFrom(t, k, s, w, p, best).1; f.Some? ==> f.start >= p
    decreases |w| - p
  {
    hide Scan, RowsOk, Initial, Valid, IsSubject;
    StartAfter(t, k, s, w, p, best);
    if w[p] != 0 {
      var scan := Scan(t, k, s, w[p..], 0, best);
      if scan.1 <= 0 { FoundLongFrom(t, Rewind(scan.0), 2, w, p + 1, scan.1); }
    }
  }

  lemma NulIsLast(t: Table, w: Word, p: int)
    requires |t| > 0 && IsSubject(w) && 0 <= p < |w|
    ensures w[p] != 0 ==> p < |w| - 1
    ensures w[p] == 0 ==> LeftmostLongestNonEmpty(t, w, p, AwkSearch.None)
  {
  }

  lemma {:induction false} NematchFromExact(t: Table, k: Cache, s: int, w: Word, p: int, best: int)
    requires Ready(t, true, k) && 1 <= s <= k.curstat && IsSubject(w) && 0 <= p < |w| && -1 <= best <= 0
    requires Elements(k.posns[s]) == ScanStart(t, p)
    ensures LeftmostLongestNonEmpty(t, w, p, NematchFrom(t, k, s, w, p, best).1) <==>
            !NematchFromShows(t, k, s, w, p, best)
    decreases |w| - p
  {
    hide Scan, ScanRight, ScanShows, BestAt, Shape, RowsOk, RowsAlike, Initial, Accepted, LeftmostLongestNonEmpty,
         IsSubject;
    NulIsLast(t, w, p);
    if w[p] != 0 {
      ShapeSized(t, k);
      RowsOkAlike(t, true, k);
      RightIsBest(t, k, s, w, p, best);
      LowIsBest(t, k, s, w, p);
      ScanRightIff(t, k, s, w[p..]);
      StartAfter(t, k, s, w, p, best);
      var scan := Scan(t, k, s, w[p..], 0, best);
      var k1, b := scan.0, scan.1;
      if b > 0 {
        FoundLongAt(t, w, p, b);
      } else {
        NextStart(t, k1, p);
        FoundLongFrom(t, Rewind(k1), 2, w, p + 1, b);
        NothingLongAt(t, w, p, NematchFrom(t, Rewind(k1), 2, w, p + 1, b).1);
        NematchFromExact(t, Rewind(k1), 2, w, p + 1, b);
      }
    }
  }

  ghost predicate NematchShows(t: Table, k: Cache, w: Word)
    requires Valid(t, true, k) && IsSubject(w)
  {
    BeginReady(t, true, k);
    var (k1, s) := Begin(t, true, k);
    NematchFromShows(t, k1, s, w, 0, -1)
  }

  /** And nematch. */
  lemma NematchRightIff(t: Table, k: Cache, w: Word)
    requires Valid(t, true, k) && IsSubject(w)
    ensures LeftmostLongestNonEmpty(t, w, 0, Nematch(t, k, w).1) <==> !NematchShows(t, k, w)
  {
    hide NematchFrom, NematchFromShows, LeftmostLongestNonEmpty, RowsOk, Initial, IsList;
    BeginReady(t, true, k);
    var (k1, s) := Begin(t, true, k);
    InitElements(t, true);
    NematchFromExact(t, k1, s, w, 0, -1);
  }

  lemma NematchCorrectIff(r: Regex, k: Cache, w: Word)
    requires NoFinal(r) && Valid(Automaton(r), true, k) && IsSubject(w)
    ensures IsLeftmostLongestNonEmpty(r, w, Nematch(Automaton(r), k, w).1) <==> !NematchShows(Automaton(r), k, w)
  {
    hide Automaton, Nematch, NematchShows, Accepted, IsMatch, Valid, IsSubject;
    NematchRightIff(Automaton(r), k, w);
    forall i, n ensures |Automaton(r)| > 0 && (Accepted(Automaton(r), w, i, n) <==> IsMatch(r, w, i, n)) {
      AcceptedIsMatch(r, w, i, n);
    }
  }
}
