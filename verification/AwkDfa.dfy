/** The `fa` of cmd/awk/b.c with its arrays, and the functions that work on it in place: cgoto,
    makeinit, match, pmatch, nematch and makedfa.  Each is proved to do to the arrays what its
    function in AwkCache or AwkSearch does to the cache they hold. */
module AwkDfa {
  import opened AwkRegex
  import opened AwkPositions
  import opened AwkAutomaton
  import opened AwkCache
  import Search = AwkSearch
  import Found = AwkFound
  import Shown = AwkShown
  import Tree = AwkTree

  /** What pmatch and nematch return, with `patbeg` and `patlen`. */
  function Result(b: bool, patbeg: int, patlen: int): Search.Found {
    if b then Search.Some(patbeg, patlen) else Search.None
  }

  /** One step of the inner loop of pmatch and nematch, `n` symbols into the match. */
  lemma ScanStep(t: Table, k: Cache, s: int, w: Word, q: int, n: int, best: int)
    requires Shape(t, k) && 1 <= s <= k.curstat && Search.IsSubject(w) && 0 <= q < |w|
    ensures Sized(k) && 0 <= w[q] < HAT && (w[q] == 0 <==> q == |w| - 1)
    ensures var b, (k', s') := if k.out[s] then n else best, AwkCache.Goto(t, k, s, w[q]);
            && Shape(t, k') && 1 <= s' <= k'.curstat && Sized(k')
            && Search.Scan(t, k, s, w[q..], n, best)
               == if s' == 1 then (k', b)
                  else if q == |w| - 1 then (k', if k'.out[s'] then n + 1 else b)
                  else Search.Scan(t, k', s', w[q + 1..], n + 1, b)
  {
    hide AwkCache.Goto, IsList;
    Search.GotoShape(t, k, s, w[q]);
    assert w[q..][1..] == w[q + 1..];
  }

  class Fa {
    const gototab: array2<int>
    const posns: array<List>
    const out: array<bool>
    const re: array<Tree.RRow>
    const setvec: array<int>
    const accept: Position
    var initstat: int
    var curstat: int
    var reset: bool
    ghost const expr: Regex
    ghost const t: Table

    /** The automaton is that of the expression. */
    ghost predicate Built() {
      t == Automaton(expr) && NoFinal(expr)
    }

    /** The arrays have their sizes, and the rows are those of the automaton. */
    ghost predicate Wired()
      reads re
    {
      && gototab.Length0 == NSTATES && gototab.Length1 == NCHARS
      && posns.Length == out.Length == NSTATES
      && re.Length == setvec.Length == |t| == accept + 1
      && re[..] == Tree.Finished(t, |t|)
    }

    /** makedfa: the rows of the parse tree `p`, an empty table, and the first start. */
    constructor (p: Tree.Node, anchor: bool, ghost nodes: set<Tree.Node>)
      requires Tree.Shaped(p) && Tree.Proper(p) && NoFinal(p.tree) && nodes == Tree.Nodes(p)
      modifies nodes
      ensures Built() && expr == p.tree && Search.Searchable(t) && Wired()
      ensures fresh(gototab) && fresh(posns) && fresh(out) && fresh(re) && fresh(setvec)
      ensures Search.Valid(t, anchor, Abs()) && Abs() == Search.Makedfa(t, anchor)
    {
      var builder := new Tree.Builder();
      builder.BuildRows(p, nodes);
      re, accept, expr, t := builder.re, builder.re.Length - 1, p.tree, Automaton(p.tree);
      gototab := new int[NSTATES, NCHARS]((_, _) => 0);
      posns := new List[NSTATES](_ => []);
      out := new bool[NSTATES](_ => false);
      setvec := new int[builder.re.Length](_ => 0);
      curstat, initstat, reset := 2, 0, false;
      new;
      hide Automaton;
      Found.AutomatonSearchable(p.tree);
      FirstStart(anchor);
    }

    /** The end of makedfa, on arrays that are still blank. */
    method FirstStart(anchor: bool)
      requires Wired() && Search.Searchable(t) && curstat == 2 && initstat == 0 && !reset
      requires forall s, c :: 0 <= s < NSTATES && 0 <= c < NCHARS ==> gototab[s, c] == 0
      requires forall s :: 0 <= s < NSTATES ==> posns[s] == [] && !out[s]
      modifies this, gototab, posns, out, setvec
      ensures Wired() && Abs() == Search.Makedfa(t, anchor)
    {
      hide Search.Makeinit, Search.Blank, Sound, Shape, Tab;
      Search.BlankShape(t);
      BlankAbs();
      initstat := Makeinit(anchor);
      reset := false;
    }

    lemma BlankAbs()
      requires Wired() && curstat == 2 && initstat == 0 && !reset
      requires forall s, c :: 0 <= s < NSTATES && 0 <= c < NCHARS ==> gototab[s, c] == 0
      requires forall s :: 0 <= s < NSTATES ==> posns[s] == [] && !out[s]
      ensures Abs() == Search.Blank()
    {
      forall s | 0 <= s < NSTATES ensures Tab()[s] == ZeroRow() {
        assert forall c :: 0 <= c < NCHARS ==> Tab()[s][c] == 0;
      }
      assert Tab() == Search.Blank().tab;
      assert posns[..] == Search.Blank().posns;
      assert out[..] == Search.Blank().out;
    }

    ghost function Tab(): (tab: seq<seq<int>>)
      requires gototab.Length0 == NSTATES && gototab.Length1 == NCHARS
      reads gototab
    {
      seq(NSTATES, s requires 0 <= s < NSTATES reads gototab =>
        seq(NCHARS, c requires 0 <= c < NCHARS reads gototab => gototab[s, c]))
    }

    /** The cache the arrays hold. */
    ghost function Abs(): Cache
      requires Wired()
      reads this, gototab, posns, out, re
    {
      Cache(Tab(), posns[..], out[..], curstat, initstat, reset)
    }

    method SetGoto(s: int, c: int, v: int)
      requires gototab.Length0 == NSTATES && gototab.Length1 == NCHARS && 0 <= s < NSTATES && 0 <= c < NCHARS
      modifies gototab
      ensures Tab() == old(Tab())[s := old(Tab())[s][c := v]]
    {
      gototab[s, c] := v;
      assert forall q :: 0 <= q < NSTATES ==> Tab()[q] == old(Tab())[s := old(Tab())[s][c := v]][q];
    }

    method ClearRow(s: int)
      requires gototab.Length0 == NSTATES && gototab.Length1 == NCHARS && 0 <= s < NSTATES
      modifies gototab
      ensures Tab() == old(Tab())[s := ZeroRow()]
    {
      for i := 0 to NCHARS
        invariant forall c :: 0 <= c < i ==> gototab[s, c] == 0
        invariant forall q, c :: 0 <= q < NSTATES && q != s && 0 <= c < NCHARS ==> gototab[q, c] == old(gototab[q, c])
      {
        gototab[s, i] := 0;
      }
      assert forall q :: 0 <= q < NSTATES ==> Tab()[q] == old(Tab())[s := ZeroRow()][q];
    }

    /** `member`: is the symbol, as an unsigned char, in the class? */
    static method Member(c: int, bytes: seq<ClassByte>) returns (b: bool)
      ensures b <==> InClass(c, bytes)
    {
      var s := 0;
      while s < |bytes|
        invariant 0 <= s <= |bytes| && forall i :: 0 <= i < s ==> bytes[i] != c % 256
      {
        if c % 256 == bytes[s] {
          return true;
        }
        s := s + 1;
      }
      return false;
    }

    /** The test of cgoto on one position. */
    static method Fires(k: Leaf, c: int) returns (b: bool)
      ensures b <==> Consumes(k, c)
    {
      match k {
        case Chr(code) => b := c == code;
        case Dot => b := c != 0 && c != HAT;
        case All => b := c != 0;
        case Ccl(bytes) => b := Member(c, bytes);
        case Nccl(bytes) =>
          b := Member(c, bytes);
          b := !b && c != 0 && c != HAT;
        case Final => b := false;
      }
    }

    ghost predicate Marks(m: set<Position>)
      reads setvec
    {
      && (forall i :: i in m ==> 0 <= i < setvec.Length)
      && (forall i :: 0 <= i < setvec.Length ==> setvec[i] == if i in m then 1 else 0)
    }

    /** Marks the positions that follow on `c` from the positions `p`. */
    method MarkNext(p: List, c: Symbol)
      requires Wired() && Sound(t) && forall i :: 0 <= i < |p| ==> 0 <= p[i] < |t|
      modifies setvec
      ensures Marks(Step(t, Elements(p), c))
    {
      for i := 0 to setvec.Length
        invariant forall j :: 0 <= j < i ==> setvec[j] == 0
      {
        setvec[i] := 0;
      }
      ghost var m: set<Position> := {};
      StepNone(t, p, c);
      for i := 0 to |p|
        invariant Marks(m) && m == Step(t, Elements(p[..i]), c)
      {
        FinishedAt(t, p[i], |t|);
        var fires := Fires(re[p[i]].leaf, c);
        StepMore(t, p, i, c);
        if fires {
          FollowListed(t, p[i]);
          MarkFollow(re[p[i]].lfollow, m);
          m := m + Follow(t[p[i]].kont);
        }
      }
      assert p[..|p|] == p;
    }

    method MarkFollow(q: List, ghost m: set<Position>)
      requires forall j :: 0 <= j < |q| ==> 0 <= q[j] < setvec.Length
      requires Marks(m)
      modifies setvec
      ensures Marks(m + Elements(q))
    {
      ghost var d := m;
      for j := 0 to |q|
        invariant Marks(d) && d == m + Elements(q[..j])
      {
        if setvec[q[j]] == 0 {
          setvec[q[j]] := 1;
        }
        assert Elements(q[..j + 1]) == Elements(q[..j]) + {q[j]};
        d := d + {q[j]};
      }
      assert q[..|q|] == q;
    }

    method ListMarked(ghost m: set<Position>) returns (tmpset: List)
      requires Marks(m)
      ensures tmpset == Desc(m, setvec.Length)
    {
      tmpset := [];
      var i := setvec.Length;
      while i > 0
        invariant 0 <= i <= setvec.Length
        invariant tmpset + Desc(m, i) == Desc(m, setvec.Length)
      {
        i := i - 1;
        if setvec[i] != 0 {
          tmpset := tmpset + [i];
        }
      }
    }

    /** Compares two lists: their lengths, then element by element. */
    static method SameList(x: List, y: List) returns (b: bool)
      ensures b <==> x == y
    {
      if |x| != |y| {
        return false;
      }
      for j := 0 to |x|
        invariant x[..j] == y[..j]
      {
        if x[j] != y[j] {
          return false;
        }
      }
      return true;
    }

    method FindState(tmpset: List) returns (i: int)
      requires posns.Length == NSTATES && 1 <= curstat < NSTATES
      ensures i == Find(posns[..], tmpset, 1, curstat)
    {
      i := 1;
      while i <= curstat
        invariant 1 <= i <= curstat + 1
        invariant Find(posns[..], tmpset, i, curstat) == Find(posns[..], tmpset, 1, curstat)
      {
        var same := SameList(tmpset, posns[i]);
        if same {
          return;
        }
        i := i + 1;
      }
      i := 0;
    }

    method Cgoto(s: int, c: Symbol) returns (ns: int)
      requires Wired() && Shape(t, Abs()) && 1 <= s <= curstat && 0 <= c < NCHARS
      modifies gototab, posns, out, setvec, this`curstat, this`reset
      ensures (Abs(), ns) == AwkCache.Cgoto(t, old(Abs()), s, c)
    {
      ListInTable(t, posns[s]);
      MarkNext(posns[s], c);
      ghost var m := Step(t, Elements(posns[s]), c);
      var tmpset := ListMarked(m);
      var i := FindState(tmpset);
      if i != 0 {
        SetGoto(s, c, i);
        return i;
      }
      if curstat >= NSTATES - 1 {
        curstat := 2;
        reset := true;
      } else {
        curstat := curstat + 1;
      }
      ClearRow(curstat);
      posns[curstat] := tmpset;
      SetGoto(s, c, curstat);
      DescMembers(m, |t|);
      out[curstat] := setvec[accept] != 0;
      return curstat;
    }

    /** makeinit: state 2 is made from the first row, and HAT is read. */
    method Makeinit(anchor: bool) returns (s: int)
      requires Wired() && Search.Searchable(t) && Shape(t, Abs())
      modifies gototab, posns, out, setvec, this`curstat, this`reset
      ensures Abs() == Search.Makeinit(t, old(Abs()), anchor) && s == curstat
    {
      ghost var k := Abs();
      Search.AfterHat(t, k);
      Search.RestartedShape(t, k);
      hide Shape, IsList, AwkCache.Cgoto;
      EnterStart();
      curstat := Cgoto(2, HAT);
      if anchor {
        DropSearch();
      }
      return curstat;
    }

    method EnterStart()
      requires Wired() && |t| > 0 && Sized(Abs())
      modifies gototab, posns, out, this`curstat
      ensures Abs() == Search.Restarted(t, old(Abs()))
    {
      FinishedAt(t, 0, |t|);
      curstat := 2;
      out[2] := false;
      posns[2] := re[0].lfollow;
      if |posns[2]| > 0 && posns[2][0] == accept {
        out[2] := true;
      }
      ClearRow(2);
    }

    /** Leaves out position 0, the last one of each list. */
    method DropSearch()
      requires Wired() && Sized(Abs()) && posns[2] != [] && posns[curstat] != []
      modifies posns, out
      ensures Abs() == Search.Anchored(old(Abs()))
    {
      posns[2] := posns[2][..|posns[2]| - 1];
      posns[0] := posns[2];
      out[0] := out[2];
      if curstat != 2 {
        posns[curstat] := posns[curstat][..|posns[curstat]| - 1];
      }
    }

    /** A transition as the matchers take it. */
    method Goto(s: int, c: Symbol) returns (ns: int)
      requires Wired() && Shape(t, Abs()) && 1 <= s <= curstat && 0 <= c < NCHARS
      modifies gototab, posns, out, setvec, this`curstat, this`reset
      ensures (Abs(), ns) == AwkCache.Goto(t, old(Abs()), s, c)
    {
      ns := gototab[s, c];
      if ns == 0 {
        ns := Cgoto(s, c);
      }
    }

    method Begin(anchor: bool) returns (s: int)
      requires Wired() && Search.Valid(t, anchor, Abs())
      modifies gototab, posns, out, setvec, this`curstat, this`reset
      ensures (Abs(), s) == Search.Begin(t, anchor, old(Abs()))
    {
      if reset {
        s := Makeinit(anchor);
      } else {
        s := initstat;
      }
    }

    /** match: does the expression match anywhere in the subject `w`? */
    method Match(w: Word) returns (b: bool)
      requires Wired() && Built() && Search.Valid(t, false, Abs()) && Search.IsSubject(w)
      modifies gototab, posns, out, setvec, this`curstat, this`reset
      ensures Wired() && Search.Valid(t, false, Abs()) && (Abs(), b) == Search.Match(t, old(Abs()), w)
      ensures Search.MatchRunHarmless(t, old(Abs()), w) ==> (b <==> Found.HasMatch(expr, [HAT] + w))
      ensures (b <==> Found.HasMatch(expr, [HAT] + w)) <==> !Shown.MatchShows(t, old(Abs()), w)
    {
      hide Automaton, Found.HasMatch, Search.MatchRunHarmless, Shown.MatchShows, Search.Initial, RowsOk, IsList;
      Shown.MatchCorrectIff(expr, Abs(), w);
      Search.MatchValid(t, Abs(), w);
      if Search.MatchRunHarmless(t, Abs(), w) { Found.MatchCorrect(expr, Abs(), w); }
      Search.BeginReady(t, false, Abs());
      var s := Begin(false);
      if out[s] {
        return true;
      }
      b := MatchLoop(s, w);
    }

    method MatchLoop(s0: int, w: Word) returns (b: bool)
      requires Wired() && Shape(t, Abs()) && 1 <= s0 <= curstat && Search.IsSubject(w)
      modifies gototab, posns, out, setvec, this`curstat, this`reset
      ensures (Abs(), b) == Search.MatchLoop(t, old(Abs()), s0, w)
    {
      hide AwkCache.Goto, AwkCache.Cgoto, IsList;
      var s, p := s0, 0;
      assert w[0..] == w;
      while true
        invariant 0 <= p < |w| && Shape(t, Abs()) && 1 <= s <= curstat
        invariant Search.MatchLoop(t, Abs(), s, w[p..]) == Search.MatchLoop(t, old(Abs()), s0, w)
        decreases |w| - p
      {
        Search.GotoShape(t, Abs(), s, w[p]);
        assert w[p..][1..] == w[p + 1..];
        s := Goto(s, w[p]);
        if out[s] {
          return true;
        }
        p := p + 1;
        if w[p - 1] == 0 {
          return false;
        }
      }
    }

    /** The inner loop of pmatch and nematch: the longest match at `p`, or `patlen` as it was. */
    method Scan(s0: int, w: Word, p: int, best: int) returns (patlen: int)
      requires Wired() && Shape(t, Abs()) && 1 <= s0 <= curstat && Search.IsSubject(w) && 0 <= p < |w|
      modifies gototab, posns, out, setvec, this`curstat, this`reset
      ensures (Abs(), patlen) == Search.Scan(t, old(Abs()), s0, w[p..], 0, best)
    {
      hide AwkCache.Goto, AwkCache.Cgoto, IsList, Shape, Search.Scan;
      var s, q := s0, p;
      patlen := best;
      while true
        invariant p <= q < |w| && Shape(t, Abs()) && 1 <= s <= curstat
        invariant Search.Scan(t, Abs(), s, w[q..], q - p, patlen) == Search.Scan(t, old(Abs()), s0, w[p..], 0, best)
        decreases |w| - q
      {
        ScanStep(t, Abs(), s, w, q, q - p, patlen);
        if out[s] {
          patlen := q - p;
        }
        s := Goto(s, w[q]);
        if s == 1 {
          return;
        }
        q := q + 1;
        if w[q - 1] == 0 {
          break;
        }
      }
      if out[s] {
        patlen := q - p;
      }
    }

    /** What pmatch and nematch do between starts. */
    method Rewind()
      requires Wired() && 2 <= curstat < NSTATES
      modifies gototab, posns, out, this`curstat, this`initstat
      ensures Abs() == Search.Rewind(old(Abs()))
    {
      if reset {
        posns[2] := posns[0];
        initstat, curstat := 2, 2;
        out[2] := out[0];
        ClearRow(2);
      }
    }

    /** pmatch: where the leftmost longest match is. */
    method Pmatch(w: Word) returns (b: bool, patbeg: int, patlen: int)
      requires Wired() && Built() && Search.Valid(t, true, Abs()) && Search.IsSubject(w)
      modifies gototab, posns, out, setvec, this`curstat, this`initstat, this`reset
      ensures Wired() && Search.Valid(t, true, Abs()) && (Abs(), Result(b, patbeg, patlen))
          == Search.Pmatch(t, old(Abs()), w)
      ensures Search.PmatchRunHarmless(t, old(Abs()), w) ==> Found.IsLeftmostLongest(expr, w, Result(b, patbeg, patlen))
      ensures Found.IsLeftmostLongest(expr, w, Result(b, patbeg, patlen)) <==> !Shown.PmatchShows(t, old(Abs()), w)
    {
      hide Automaton, Found.IsLeftmostLongest, Search.PmatchRunHarmless, Shown.PmatchShows, Search.Initial, RowsOk,
           IsList;
      Shown.PmatchCorrectIff(expr, Abs(), w);
      Search.PmatchValid(t, Abs(), w);
      if Search.PmatchRunHarmless(t, Abs(), w) { Found.PmatchCorrect(expr, Abs(), w); }
      Search.BeginReady(t, true, Abs());
      var s := Begin(true);
      b, patbeg, patlen := PmatchLoop(s, w);
    }

    method PmatchLoop(s0: int, w: Word) returns (b: bool, patbeg: int, patlen: int)
      requires Wired() && Search.Valid(t, true, Abs()) && 1 <= s0 <= curstat && Search.IsSubject(w)
      modifies gototab, posns, out, setvec, this`curstat, this`initstat, this`reset
      ensures (Abs(), Result(b, patbeg, patlen)) == Search.PmatchFrom(t, old(Abs()), s0, w, 0, -1)
    {
      hide Search.Scan, Search.Rewind, RowsOk, IsList, Search.Initial;
      var s, p := s0, 0;
      patbeg, patlen := 0, -1;
      while true
        invariant 0 <= p < |w| && Search.Valid(t, true, Abs()) && 1 <= s <= curstat
        invariant Search.PmatchFrom(t, Abs(), s, w, p, patlen) == Search.PmatchFrom(t, old(Abs()), s0, w, 0, -1)
        decreases |w| - p
      {
        Search.ScanValid(t, Abs(), s, w[p..], 0, patlen);
        patlen := Scan(s, w, p, patlen);
        if patlen >= 0 {
          patbeg := p;
          return true, patbeg, patlen;
        }
        Search.RewindReady(t, Abs());
        Rewind();
        s := 2;
        p := p + 1;
        if w[p - 1] == 0 {
          return false, patbeg, patlen;
        }
      }
    }

    /** nematch: where the leftmost longest match that is not empty is. */
    method Nematch(w: Word) returns (b: bool, patbeg: int, patlen: int)
      requires Wired() && Built() && Search.Valid(t, true, Abs()) && Search.IsSubject(w)
      modifies gototab, posns, out, setvec, this`curstat, this`initstat, this`reset
      ensures Wired() && Search.Valid(t, true, Abs()) && (Abs(), Result(b, patbeg, patlen))
          == Search.Nematch(t, old(Abs()), w)
      ensures Search.NematchRunHarmless(t, old(Abs()), w) ==> Found.IsLeftmostLongestNonEmpty(expr, w,
          Result(b, patbeg, patlen))
      ensures Found.IsLeftmostLongestNonEmpty(expr, w, Result(b, patbeg, patlen)) <==>
              !Shown.NematchShows(t, old(Abs()), w)
    {
      hide Automaton, Found.IsLeftmostLongestNonEmpty, Search.NematchRunHarmless, Shown.NematchShows, Search.Initial,
           RowsOk, IsList;
      Shown.NematchCorrectIff(expr, Abs(), w);
      Search.NematchValid(t, Abs(), w);
      if Search.NematchRunHarmless(t, Abs(), w) { Found.NematchCorrect(expr, Abs(), w); }
      Search.BeginReady(t, true, Abs());
      var s := Begin(true);
      b, patbeg, patlen := NematchLoop(s, w);
    }

    method NematchLoop(s0: int, w: Word) returns (b: bool, patbeg: int, patlen: int)
      requires Wired() && Search.Valid(t, true, Abs()) && 1 <= s0 <= curstat && Search.IsSubject(w)
      modifies gototab, posns, out, setvec, this`curstat, this`initstat, this`reset
      ensures (Abs(), Result(b, patbeg, patlen)) == Search.NematchFrom(t, old(Abs()), s0, w, 0, -1)
    {
      hide Search.Scan, Search.Rewind, RowsOk, IsList, Search.Initial;
      var s, p := s0, 0;
      patbeg, patlen := 0, -1;
      while w[p] != 0
        invariant 0 <= p < |w| && Search.Valid(t, true, Abs()) && 1 <= s <= curstat
        invariant Search.NematchFrom(t, Abs(), s, w, p, patlen) == Search.NematchFrom(t, old(Abs()), s0, w, 0, -1)
        decreases |w| - p
      {
        Search.ScanValid(t, Abs(), s, w[p..], 0, patlen);
        patlen := Scan(s, w, p, patlen);
        if patlen > 0 {
          patbeg := p;
          return true, patbeg, patlen;
        }
        Search.RewindReady(t, Abs());
        Rewind();
        s := 2;
        p := p + 1;
      }
      return false, patbeg, patlen;
    }
  }

  // --- lists ---

  lemma ListInTable(t: Table, l: List)
    requires IsList(t, l)
    ensures forall i :: 0 <= i < |l| ==> 0 <= l[i] < |t|
  {
    DescMembers(Elements(l), |t|);
    forall i | 0 <= i < |l| ensures 0 <= l[i] < |t| { assert l[i] in l; }
  }

  lemma StepNone(t: Table, p: List, c: Symbol)
    ensures Step(t, Elements(p[..0]), c) == {}
  {
  }

  lemma StepMore(t: Table, p: List, i: nat, c: Symbol)
    requires i < |p| && 0 <= p[i] < |t|
    ensures Step(t, Elements(p[..i + 1]), c) ==
            Step(t, Elements(p[..i]), c) + if Consumes(t[p[i]].leaf, c) then Follow(t[p[i]].kont) else {}
  {
    assert Elements(p[..i + 1]) == Elements(p[..i]) + {p[i]};
    StepUnion(t, Elements(p[..i]), p[i], c);
  }

  lemma StepUnion(t: Table, s: set<Position>, p: Position, c: Symbol)
    requires 0 <= p < |t|
    ensures Step(t, s + {p}, c) == Step(t, s, c) + if Consumes(t[p].leaf, c) then Follow(t[p].kont) else {}
  {
    var more := if Consumes(t[p].leaf, c) then Follow(t[p].kont) else {};
    forall q | q in Step(t, s + {p}, c) ensures q in Step(t, s, c) + more {
      var o :| o in s + {p} && 0 <= o < |t| && Consumes(t[o].leaf, c) && q in Follow(t[o].kont);
    }
    forall q | q in Step(t, s, c) + more ensures q in Step(t, s + {p}, c) {
    }
  }

  lemma {:induction false} FinishedAt(t: Table, i: int, n: nat)
    requires 0 <= i < |t|
    ensures Tree.Finished(t, n)[i] == Tree.RRow(t[i].leaf, Desc(Follow(t[i].kont), n))
    decreases i
  {
    if i > 0 { FinishedAt(t[1..], i - 1, n); }
  }

  lemma FollowListed(t: Table, p: Position)
    requires Sound(t) && 0 <= p < |t| && !t[p].leaf.Final?
    ensures var q := Desc(Follow(t[p].kont), |t|);
            Elements(q) == Follow(t[p].kont) && forall j :: 0 <= j < |q| ==> 0 <= q[j] < |t|
  {
    FollowInTable(t, t[p].kont);
    ElementsOfDesc(Follow(t[p].kont), |t|);
  }
}
