/** When the matchers of cmd/awk/b.c are right, exactly.  A step harms if it clobbers the table and the list
    the new state claims to lead to does not do as well as the right one.  If no step harms a search is right
    (AwkSearch); here it is proved that a step that harms makes some subject come out wrong, one that
    begins like the one on which the step was taken. */
module AwkExact {
  import opened AwkRegex
  import opened AwkPositions
  import opened AwkAutomaton
  import opened AwkCache
  import opened AwkSearch
  import opened AwkFound

  // --- the step ---

  /** What a step that clobbers leaves: a state 2 that leads to itself. */
  lemma Clobbered(t: Table, k: Cache, s: int, c: Symbol)
    requires Shape(t, k) && 1 <= s <= k.curstat && 0 <= c < HAT && Clobbers(t, k, s, c)
    ensures var (k', s') := Goto(t, k, s, c);
            && s' == 2 && Shape(t, k') && k'.posns[2] == Next(t, k.posns[s], c) && Goto(t, k', 2, c) == (k', 2)
            && (k'.out[2] <==> |t| - 1 in k'.posns[2])
  {
    CgotoShape(t, k, s, c);
    hide IsList;
  }

  lemma OneMore(c: Symbol, u: Word)
    requires IsSubject(u) && 0 < c < HAT
    ensures IsSubject([c] + u) && ([c] + u)[0] == c && ([c] + u)[1..] == u
  {
  }

  // --- match ---

  /** What match should answer from a state that does not accept yet. */
  ghost predicate Answer(t: Table, s: set<Position>, w: Word) {
    exists n :: n > 0 && AcceptsAfter(t, s, w, n)
  }

  lemma AnswerNext(t: Table, l: List, c: Symbol, u: Word)
    requires Sound(t) && IsSubject(u) && 0 < c < HAT
    ensures Answer(t, Elements(l), [c] + u) <==> Accepts(t, Elements(Next(t, l, c)), u)
  {
    OneMore(c, u);
    NextIsList(t, l, c);
    AcceptsNext(t, Elements(l), [c] + u);
  }

  lemma LoopNext(t: Table, k: Cache, s: int, c: Symbol, u: Word)
    requires Shape(t, k) && 1 <= s <= k.curstat && 0 < c < HAT && IsSubject(u)
    ensures var (k', s') := Goto(t, k, s, c);
            && Shape(t, k') && 1 <= s' <= k'.curstat && IsSubject([c] + u)
            && (!k'.out[s'] ==> MatchLoop(t, k, s, [c] + u) == MatchLoop(t, k', s', u))
  {
    hide Goto, IsList;
    OneMore(c, u);
    GotoShape(t, k, s, c);
  }

  /** After a step that harms some rest of the subject is answered wrongly. */
  lemma HarmShows(t: Table, k: Cache, s: int, c: Symbol) returns (u: Word)
    requires Shape(t, k) && 1 <= s <= k.curstat && 0 <= c < HAT && Harms(t, false, k, s, c)
    ensures var (k', s') := Goto(t, k, s, c);
            && s' == 2 && Shape(t, k') && !k'.out[2] && k'.posns[2] == Next(t, k.posns[s], c) && IsSubject(u)
            && MatchLoop(t, k', 2, u).1 != Answer(t, Elements(k'.posns[2]), u)
  {
    hide Goto, Clobbers, MatchLoop, Answer, AcceptsAfter, Accepts, IsSubject, Shape, Next, Elements;
    ShapeSized(t, k);
    Clobbered(t, k, s, c);
    var (k', s') := Goto(t, k, s, c);
    ShapeSized(t, k');
    var next := Next(t, k.posns[s], c);
    var after := Next(t, next, c);
    u :| IsSubject(u) && !(Accepts(t, Elements(next), u) <==> Accepts(t, Elements(after), u));
    LoopNext(t, k', 2, c, u);
    AnswerNext(t, next, c, u);
    StateIs(t, k', 2);
    AnswerNow(t, Elements(next), u);
    RestIsSubject(u);
    if MatchLoop(t, k', 2, u).1 == Answer(t, Elements(next), u) {
      u := [c] + u;
    }
  }

  lemma AnswerNow(t: Table, s: set<Position>, w: Word)
    requires |t| - 1 !in s
    ensures Answer(t, s, w) <==> Accepts(t, s, w)
  {
    AcceptsNow(t, s, w);
  }

  /** A wrong answer later is a wrong answer with one symbol more in front. */
  lemma WrongBefore(t: Table, k: Cache, s: int, c: Symbol, u: Word)
    requires Shape(t, k) && 1 <= s <= k.curstat && 0 < c < HAT && IsSubject(u)
    requires var (k', s') := Goto(t, k, s, c);
             && Shape(t, k') && 1 <= s' <= k'.curstat && !k'.out[s']
             && Alike(t, false, c, k'.posns[s'], Next(t, k.posns[s], c))
             && MatchLoop(t, k', s', u).1 != Answer(t, Elements(k'.posns[s']), u)
    ensures IsSubject([c] + u) && MatchLoop(t, k, s, [c] + u).1 != Answer(t, Elements(k.posns[s]), [c] + u)
  {
    hide Goto, MatchLoop, Answer, Accepts, IsSubject, Shape, Next, Elements;
    ShapeSized(t, k);
    var (k', s') := Goto(t, k, s, c);
    ShapeSized(t, k');
    LoopNext(t, k, s, c, u);
    AnswerNext(t, k.posns[s], c, u);
    StateIs(t, k', s');
    AnswerNow(t, Elements(k'.posns[s']), u);
  }

  /** If the loop harms on some subject it is wrong on some subject. */
  lemma {:induction false} FindWrong(t: Table, k: Cache, s: int, w: Word) returns (v: Word)
    requires Shape(t, k) && RowsAlike(t, false, k) && 1 <= s <= k.curstat && IsSubject(w)
    requires !MatchHarmless(t, k, s, w)
    ensures IsSubject(v) && MatchLoop(t, k, s, v).1 != Answer(t, Elements(k.posns[s]), v)
    decreases |w|
  {
    hide Goto, MatchLoop, Answer, Accepts, Elements, Alike, RowsAlike, Shape, IsSubject, Harms, Next;
    ShapeSized(t, k);
    RestIsSubject(w);
    var c := w[0];
    GotoAlike(t, false, k, s, c);
    var (k', s') := Goto(t, k, s, c);
    ShapeSized(t, k');
    if Harms(t, false, k, s, c) {
      HarmNotNul(t, k, s, c);
      v := HarmShows(t, k, s, c);
    } else {
      NotOver(t, k', s', w);
      v := FindWrong(t, k', s', w[1..]);
    }
    WrongBefore(t, k, s, c, v);
    v := [c] + v;
  }

  lemma HarmNotNul(t: Table, k: Cache, s: int, c: Symbol)
    requires Sized(k) && 1 <= s <= k.curstat && 0 <= c < NCHARS && Harms(t, false, k, s, c)
    ensures c != 0
  {
  }

  lemma NotOver(t: Table, k: Cache, s: int, w: Word)
    requires Shape(t, k) && 1 <= s <= k.curstat && IsSubject(w) && AllBytes(w[1..])
    requires !k.out[s] && !MatchHarmless(t, k, s, w[1..])
    ensures IsSubject(w[1..]) && w[0] != 0
  {
    RestIsSubject(w);
  }

  /** match answers right on every subject. */
  ghost predicate AlwaysRight(t: Table, k: Cache)
    requires Valid(t, false, k)
  {
    forall w :: IsSubject(w) ==> (Match(t, k, w).1 <==> Answer(t, StartSet(t), [HAT] + w))
  }

  /** On no subject a step of match harms. */
  ghost predicate NeverHarms(t: Table, k: Cache)
    requires Valid(t, false, k)
  {
    forall w :: IsSubject(w) ==> MatchRunHarmless(t, k, w)
  }

  lemma AnswerBegin(t: Table, k: Cache, w: Word)
    requires Valid(t, false, k) && IsSubject(w)
    ensures var (k1, s) := Begin(t, false, k);
            && Ready(t, false, k1) && 1 <= s <= k1.curstat && Sized(k1)
            && (Answer(t, StartSet(t), [HAT] + w) <==> k1.out[s] || Answer(t, Elements(k1.posns[s]), w))
  {
    hide Initial, Begin, Step, RowsOk, IsList;
    BeginReady(t, false, k);
    var (k1, s) := Begin(t, false, k);
    var v := [HAT] + w;
    InitElements(t, false);
    AcceptsNext(t, StartSet(t), v);
    assert v[1..] == w;
    AcceptsNow(t, InitSet(t, false), w);
    StateIs(t, k1, s);
  }

  /** match is right on every subject if and only if on no subject a step of it harms. */
  lemma MatchExact(t: Table, k: Cache)
    requires Valid(t, false, k)
    ensures AlwaysRight(t, k) <==> NeverHarms(t, k)
  {
    if NeverHarms(t, k) {
      forall w | IsSubject(w) ensures Match(t, k, w).1 <==> Answer(t, StartSet(t), [HAT] + w) {
        assert MatchRunHarmless(t, k, w);
        MatchFinds(t, k, w);
      }
    }
    if AlwaysRight(t, k) {
      forall w | IsSubject(w) ensures MatchRunHarmless(t, k, w) { RightHarmless(t, k, w); }
    }
  }

  lemma RightOn(t: Table, k: Cache, w: Word)
    requires Valid(t, false, k) && IsSubject(w) && AlwaysRight(t, k)
    ensures Match(t, k, w).1 <==> Answer(t, StartSet(t), [HAT] + w)
  {
  }

  lemma RightHarmless(t: Table, k: Cache, w: Word)
    requires Valid(t, false, k) && IsSubject(w) && AlwaysRight(t, k)
    ensures MatchRunHarmless(t, k, w)
  {
    hide Initial, Begin, RowsOk, RowsAlike, MatchLoop, MatchHarmless, Answer, IsSubject, IsList;
    RestIsSubject(w);
    AnswerBegin(t, k, w);
    var (k1, s) := Begin(t, false, k);
    BeginReady(t, false, k);
    RowsOkAlike(t, false, k1);
    if !k1.out[s] && !MatchHarmless(t, k1, s, w) {
      var v := FindWrong(t, k1, s, w);
      AnswerBegin(t, k, v);
      RightOn(t, k, v);
    }
  }

  /** The same said of the expression. */
  lemma MatchExactFor(r: Regex, k: Cache)
    requires NoFinal(r) && Valid(Automaton(r), false, k)
    ensures (forall w :: IsSubject(w) ==> (Match(Automaton(r), k, w).1 <==> HasMatch(r, [HAT] + w))) <==>
            forall w :: IsSubject(w) ==> MatchRunHarmless(Automaton(r), k, w)
  {
    var t := Automaton(r);
    hide Automaton, HasMatch, IsSubject, Match, MatchRunHarmless;
    MatchExact(t, k);
    forall w | IsSubject(w) ensures Answer(t, StartSet(t), [HAT] + w) <==> HasMatch(r, [HAT] + w) {
      PrefixMatches(r, w);
    }
  }

  // --- the scan of pmatch and nematch ---

  /** Where a scan is counted from does not matter. */
  lemma {:induction false} ScanShift(t: Table, k: Cache, s: int, u: Word, q: int, best: int)
    requires Shape(t, k) && 1 <= s <= k.curstat && AllBytes(u) && u != []
    ensures var m := Scan(t, k, s, u, 0, -1).1;
            m >= -1 && Scan(t, k, s, u, q, best).1 == if m >= 0 then m + q else best
    decreases |u|
  {
    hide Goto, IsList;
    GotoShape(t, k, s, u[0]);
    var (k', s') := Goto(t, k, s, u[0]);
    if s' != 1 && |u| > 1 {
      ScanShift(t, k', s', u[1..], q + 1, if k.out[s] then q else best);
      ScanShift(t, k', s', u[1..], 1, if k.out[s] then 0 else -1);
    }
  }

  /** The longest length from here tells that from the next set. */
  lemma LongestNext(t: Table, s: set<Position>, c: Symbol, u: Word, m: int, a: int)
    requires IsLongest(t, s, [c] + u, 0, -1, m) && a >= -1
    requires m == if a >= 0 then a + 1 else if |t| - 1 in s then 0 else -1
    ensures IsLongest(t, Step(t, s, c), u, 0, -1, a)
  {
    var v := [c] + u;
    var s1 := Step(t, s, c);
    assert v[0] == c && v[1..] == u;
    forall n ensures AcceptsAfter(t, s1, u, n) <==> AcceptsAfter(t, s, v, n + 1) && 0 <= n {
      AcceptsAfterStep(t, s, v, n);
    }
    assert v[..0] == [];
    assert AcceptsAfter(t, s, v, 0) <==> |t| - 1 in s;
    hide AcceptsAfter, Step;
    if a >= 0 {
      assert AcceptsAfter(t, s, v, m);
      assert AcceptsAfter(t, s1, u, a);
    } else {
      forall n ensures !AcceptsAfter(t, s1, u, n) {
        assert AcceptsAfter(t, s1, u, n) ==> AcceptsAfter(t, s, v, n + 1) && n + 1 <= m;
      }
    }
    forall n | AcceptsAfter(t, s1, u, n) ensures n <= a { assert AcceptsAfter(t, s, v, n + 1); }
  }

  lemma LongestOnce(t: Table, s: set<Position>, u: Word, a: int, b: int)
    requires IsLongest(t, s, u, 0, -1, a) && IsLongest(t, s, u, 0, -1, b)
    ensures a == b
  {
  }

  ghost predicate ScanRight(t: Table, k: Cache, s: int, u: Word)
    requires Shape(t, k) && 1 <= s <= k.curstat && IsSubject(u)
  {
    RestIsSubject(u);
    IsLongest(t, Elements(k.posns[s]), u, 0, -1, Scan(t, k, s, u, 0, -1).1)
  }

  /** What a scan with one symbol more in front returns. */
  lemma ScanNext(t: Table, k: Cache, s: int, c: Symbol, u: Word)
    requires Shape(t, k) && 1 <= s <= k.curstat && 0 < c < HAT && IsSubject(u)
    ensures var (k', s') := Goto(t, k, s, c);
            && Shape(t, k') && 1 <= s' <= k'.curstat && IsSubject([c] + u) && AllBytes([c] + u) && AllBytes(u)
                && u != []
            && (s' != 1 ==>
                  var a := Scan(t, k', s', u, 0, -1).1;
                  a >= -1 && Scan(t, k, s, [c] + u, 0, -1).1 == if a >= 0 then a + 1 else if k.out[s] then 0 else -1)
  {
    hide Goto, IsList;
    OneMore(c, u);
    GotoShape(t, k, s, c);
    var (k', s') := Goto(t, k, s, c);
    if s' != 1 { ScanShift(t, k', s', u, 1, if k.out[s] then 0 else -1); }
  }

  /** If the scan with one symbol more in front is right, the scan after it is right for the next set. */
  lemma RightAfter(t: Table, k: Cache, s: int, c: Symbol, u: Word)
    requires Shape(t, k) && 1 <= s <= k.curstat && 0 < c < HAT && IsSubject(u) && IsSubject([c] + u)
    requires ScanRight(t, k, s, [c] + u)
    ensures var (k', s') := Goto(t, k, s, c);
            && Shape(t, k') && 1 <= s' <= k'.curstat && AllBytes(u) && u != []
            && (s' != 1 ==> IsLongest(t, Elements(Next(t, k.posns[s], c)), u, 0, -1, Scan(t, k', s', u, 0, -1).1))
  {
    hide Goto, Scan, IsLongest, Elements, Step, Shape, IsSubject;
    ShapeSized(t, k);
    ScanNext(t, k, s, c, u);
    NextElements(t, k, s, c);
    StateIs(t, k, s);
    var (k', s') := Goto(t, k, s, c);
    if s' != 1 {
      var a := Scan(t, k', s', u, 0, -1).1;
      LongestNext(t, Elements(k.posns[s]), c, u, Scan(t, k, s, [c] + u, 0, -1).1, a);
    }
  }

  /** After a step that harms the scan of some rest of the subject comes out wrong. */
  lemma ScanHarmShows(t: Table, k: Cache, s: int, c: Symbol) returns (u: Word)
    requires Shape(t, k) && 1 <= s <= k.curstat && 0 <= c < HAT && Harms(t, true, k, s, c)
    ensures var (k', s') := Goto(t, k, s, c);
            && s' == 2 && Shape(t, k') && k'.posns[2] == Next(t, k.posns[s], c) && IsSubject(u)
            && !ScanRight(t, k', 2, u)
  {
    hide Goto, Clobbers, Scan, IsLongest, IsSubject, Shape, Next, Elements;
    ShapeSized(t, k);
    Clobbered(t, k, s, c);
    var (k', s') := Goto(t, k, s, c);
    ShapeSized(t, k');
    var next := Next(t, k.posns[s], c);
    var after := Next(t, next, c);
    var b;
    u, b :| IsSubject(u) && !(IsLongest(t, Elements(next), u, 0, -1, b) <==>
        IsLongest(t, Elements(after), u, 0, -1, b));
    OneMore(c, u);
    if ScanRight(t, k', 2, u) {
      if ScanRight(t, k', 2, [c] + u) {
        RightAfter(t, k', 2, c, u);
        var a := Scan(t, k', 2, u, 0, -1).1;
        if IsLongest(t, Elements(next), u, 0, -1, b) { LongestOnce(t, Elements(next), u, a, b); }
        if IsLongest(t, Elements(after), u, 0, -1, b) { LongestOnce(t, Elements(after), u, a, b); }
        assert false;
      }
      u := [c] + u;
    }
  }

  lemma {:induction false} FindWrongScan(t: Table, k: Cache, s: int, w: Word) returns (v: Word)
    requires Shape(t, k) && RowsAlike(t, true, k) && 1 <= s <= k.curstat && IsSubject(w) && AllBytes(w)
    requires !ScanHarmless(t, k, s, w)
    ensures IsSubject(v) && !ScanRight(t, k, s, v)
    decreases |w|
  {
    hide Goto, Scan, IsLongest, Elements, Alike, RowsAlike, Shape, IsSubject, Harms, ScanRight, Next;
    ShapeSized(t, k);
    RestIsSubject(w);
    var c := w[0];
    GotoAlike(t, true, k, s, c);
    var (k', s') := Goto(t, k, s, c);
    ShapeSized(t, k');
    if Harms(t, true, k, s, c) {
      HarmNotNulScan(t, k, s, c);
      v := ScanHarmShows(t, k, s, c);
    } else {
      v := FindWrongScan(t, k', s', w[1..]);
    }
    WrongScanBefore(t, k, s, c, v);
    v := [c] + v;
  }

  lemma HarmNotNulScan(t: Table, k: Cache, s: int, c: Symbol)
    requires Sized(k) && 1 <= s <= k.curstat && 0 <= c < NCHARS && Harms(t, true, k, s, c)
    ensures c != 0
  {
  }

  lemma WrongScanBefore(t: Table, k: Cache, s: int, c: Symbol, u: Word)
    requires Shape(t, k) && 1 <= s <= k.curstat && 0 < c < HAT && IsSubject(u)
    requires var (k', s') := Goto(t, k, s, c);
             && Shape(t, k') && 1 < s' <= k'.curstat && Alike(t, true, c, k'.posns[s'], Next(t, k.posns[s], c))
             && !ScanRight(t, k', s', u)
    ensures IsSubject([c] + u) && !ScanRight(t, k, s, [c] + u)
  {
    hide Goto, Scan, IsLongest, IsSubject, Shape, Next, Elements;
    ShapeSized(t, k);
    var (k', s') := Goto(t, k, s, c);
    ShapeSized(t, k');
    OneMore(c, u);
    if ScanRight(t, k, s, [c] + u) {
      RightAfter(t, k, s, c, u);
    }
  }

  ghost predicate ScanSafe(t: Table, k: Cache, s: int, u: Word)
    requires Shape(t, k) && 1 <= s <= k.curstat && IsSubject(u)
  {
    RestIsSubject(u);
    ScanHarmless(t, k, s, u)
  }

  /** The scan from a state finds the longest length on every rest of a subject if and only if on none a step
      of it harms. */
  lemma ScanExact(t: Table, k: Cache, s: int)
    requires Shape(t, k) && RowsAlike(t, true, k) && 1 <= s <= k.curstat
    ensures (forall u :: IsSubject(u) ==> ScanRight(t, k, s, u)) <==>
        (forall u :: IsSubject(u) ==> ScanSafe(t, k, s, u))
  {
    hide Scan, IsLongest, Elements, RowsAlike, Shape, IsSubject, ScanHarmless;
    if forall u :: IsSubject(u) ==> ScanSafe(t, k, s, u) {
      forall u | IsSubject(u) ensures ScanRight(t, k, s, u) {
        RestIsSubject(u);
        assert ScanSafe(t, k, s, u);
        ScanCorrect(t, k, s, u, 0, -1);
      }
    }
    if forall u :: IsSubject(u) ==> ScanRight(t, k, s, u) {
      forall u | IsSubject(u) ensures ScanSafe(t, k, s, u) {
        RestIsSubject(u);
        if !ScanHarmless(t, k, s, u) {
          var v := FindWrongScan(t, k, s, u);
        }
      }
    }
  }

  // --- pmatch ---

  lemma {:induction false} FoundFrom(t: Table, k: Cache, s: int, w: Word, p: int, best: int)
    requires Valid(t, true, k) && 1 <= s <= k.curstat && IsSubject(w) && 0 <= p <= |w|
    ensures var f := PmatchFrom(t, k, s, w, p, best).1; f.Some? ==> f.start >= p
    decreases |w| - p
  {
    hide Scan, RowsOk, Initial;
    if p < |w| {
      ScanValid(t, k, s, w[p..], 0, best);
      var (k1, b) := Scan(t, k, s, w[p..], 0, best);
      RewindReady(t, k1);
      if b < 0 { FoundFrom(t, Rewind(k1), 2, w, p + 1, b); }
    }
  }

  lemma FirstScanRight(t: Table, k: Cache, w: Word)
    requires Valid(t, true, k) && IsSubject(w) && LeftmostLongest(t, w, 0, Pmatch(t, k, w).1)
    ensures var (k1, s) := Begin(t, true, k);
            Ready(t, true, k1) && 1 <= s <= k1.curstat && ScanRight(t, k1, s, w)
  {
    hide Scan, RowsOk, Initial, AcceptsAfter, IsList;
    BeginReady(t, true, k);
    var (k1, s) := Begin(t, true, k);
    InitElements(t, true);
    assert w[0..] == w;
    RestIsSubject(w);
    ScanShift(t, k1, s, w, 0, -1);
    ScanValid(t, k1, s, w, 0, -1);
    var (k2, b) := Scan(t, k1, s, w, 0, -1);
    forall n ensures Accepted(t, w, 0, n) <==> AcceptsAfter(t, Elements(k1.posns[s]), w, n) {}
    if b < 0 {
      RewindReady(t, k2);
      FoundFrom(t, Rewind(k2), 2, w, 1, b);
    }
  }

  /** If pmatch is right on every subject, then on none the scan from its beginning harms. */
  lemma PmatchNeeds(t: Table, k: Cache)
    requires Valid(t, true, k)
    requires forall w :: IsSubject(w) ==> LeftmostLongest(t, w, 0, Pmatch(t, k, w).1)
    ensures var (k1, s) := Begin(t, true, k);
            && Ready(t, true, k1) && 1 <= s <= k1.curstat
            && forall w :: IsSubject(w) ==> ScanSafe(t, k1, s, w)
  {
    hide Pmatch, LeftmostLongest, Begin, Initial, RowsOk, RowsAlike, ScanRight, ScanSafe, IsSubject, IsList;
    BeginReady(t, true, k);
    var (k1, s) := Begin(t, true, k);
    RowsOkAlike(t, true, k1);
    forall w | IsSubject(w) ensures ScanRight(t, k1, s, w) { FirstScanRight(t, k, w); }
    ScanExact(t, k1, s);
  }
}
