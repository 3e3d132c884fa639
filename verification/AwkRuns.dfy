/** Whole runs of cmd/awk/b.c: makedfa once, and then any number of calls of the matchers. */
module AwkRuns {
  import opened AwkRegex
  import opened AwkPositions
  import opened AwkAutomaton
  import opened AwkCache
  import opened AwkSearch
  import opened AwkFound
  import opened AwkFlush
  import opened AwkExact
  import Shown = AwkShown
  import Tree = AwkTree
  import Dfa = AwkDfa

  /** match needs a table made for a search that is not anchored, the other two an anchored one. */
  datatype Call = Match(w: Word) | Pmatch(w: Word) | Nematch(w: Word)

  ghost predicate Fits(anchor: bool, c: Call) {
    IsSubject(c.w) && (c.Match? <==> !anchor)
  }

  ghost predicate AllFit(anchor: bool, calls: seq<Call>) {
    forall i :: 0 <= i < |calls| ==> Fits(anchor, calls[i])
  }

  /** The cache after a call. */
  ghost function Leaves(t: Table, anchor: bool, k: Cache, c: Call): (k': Cache)
    requires Valid(t, anchor, k) && Fits(anchor, c)
    ensures Valid(t, anchor, k')
  {
    match c
    case Match(w) => MatchValid(t, k, w); AwkSearch.Match(t, k, w).0
    case Pmatch(w) => PmatchValid(t, k, w); AwkSearch.Pmatch(t, k, w).0
    case Nematch(w) => NematchValid(t, k, w); AwkSearch.Nematch(t, k, w).0
  }

  /** No step of the call harms. */
  ghost predicate Harmless(t: Table, anchor: bool, k: Cache, c: Call)
    requires Valid(t, anchor, k) && Fits(anchor, c)
  {
    match c
    case Match(w) => MatchRunHarmless(t, k, w)
    case Pmatch(w) => PmatchRunHarmless(t, k, w)
    case Nematch(w) => NematchRunHarmless(t, k, w)
  }

  /** The call returns what the expression says. */
  ghost predicate Right(r: Regex, anchor: bool, k: Cache, c: Call)
    requires Valid(Automaton(r), anchor, k) && Fits(anchor, c)
  {
    match c
    case Match(w) => AwkSearch.Match(Automaton(r), k, w).1 <==> HasMatch(r, [HAT] + w)
    case Pmatch(w) => IsLeftmostLongest(r, w, AwkSearch.Pmatch(Automaton(r), k, w).1)
    case Nematch(w) => IsLeftmostLongestNonEmpty(r, w, AwkSearch.Nematch(Automaton(r), k, w).1)
  }

  lemma HarmlessIsRight(r: Regex, anchor: bool, k: Cache, c: Call)
    requires NoFinal(r) && Valid(Automaton(r), anchor, k) && Fits(anchor, c)
    requires Harmless(Automaton(r), anchor, k, c)
    ensures Right(r, anchor, k, c)
  {
    hide Automaton, HasMatch, IsLeftmostLongest, IsLeftmostLongestNonEmpty;
    match c
    case Match(w) => MatchCorrect(r, k, w);
    case Pmatch(w) => PmatchCorrect(r, k, w);
    case Nematch(w) => NematchCorrect(r, k, w);
  }

  /** All calls of a run, one after the other on the cache that is left, return what they should. */
  ghost predicate AllRight(r: Regex, anchor: bool, k: Cache, calls: seq<Call>)
    requires Valid(Automaton(r), anchor, k) && AllFit(anchor, calls)
    decreases |calls|
  {
    calls == [] ||
    (Right(r, anchor, k, calls[0]) && AllRight(r, anchor, Leaves(Automaton(r), anchor, k, calls[0]), calls[1..]))
  }

  ghost predicate AllHarmless(t: Table, anchor: bool, k: Cache, calls: seq<Call>)
    requires Valid(t, anchor, k) && AllFit(anchor, calls)
    decreases |calls|
  {
    calls == [] ||
    (Harmless(t, anchor, k, calls[0]) && AllHarmless(t, anchor, Leaves(t, anchor, k, calls[0]), calls[1..]))
  }

  /** A run in which no step harms is right from beginning to end. */
  lemma {:induction false} HarmlessRunIsRight(r: Regex, anchor: bool, k: Cache, calls: seq<Call>)
    requires NoFinal(r) && Valid(Automaton(r), anchor, k) && AllFit(anchor, calls)
    requires AllHarmless(Automaton(r), anchor, k, calls)
    ensures AllRight(r, anchor, k, calls)
    decreases |calls|
  {
    hide Automaton, Valid, Right, Harmless;
    if calls != [] {
      HarmlessIsRight(r, anchor, k, calls[0]);
      HarmlessRunIsRight(r, anchor, Leaves(Automaton(r), anchor, k, calls[0]), calls[1..]);
    }
  }

  /** The call comes to a harm that its subject shows. */
  ghost predicate Shows(t: Table, anchor: bool, k: Cache, c: Call)
    requires Valid(t, anchor, k) && Fits(anchor, c)
  {
    match c
    case Match(w) => Shown.MatchShows(t, k, w)
    case Pmatch(w) => Shown.PmatchShows(t, k, w)
    case Nematch(w) => Shown.NematchShows(t, k, w)
  }

  lemma RightIff(r: Regex, anchor: bool, k: Cache, c: Call)
    requires NoFinal(r) && Valid(Automaton(r), anchor, k) && Fits(anchor, c)
    ensures Right(r, anchor, k, c) <==> !Shows(Automaton(r), anchor, k, c)
  {
    hide Automaton, HasMatch, IsLeftmostLongest, IsLeftmostLongestNonEmpty, Shown.MatchShows, Shown.PmatchShows,
         Shown.NematchShows;
    match c
    case Match(w) => Shown.MatchCorrectIff(r, k, w);
    case Pmatch(w) => Shown.PmatchCorrectIff(r, k, w);
    case Nematch(w) => Shown.NematchCorrectIff(r, k, w);
  }

  ghost predicate NoneShows(t: Table, anchor: bool, k: Cache, calls: seq<Call>)
    requires Valid(t, anchor, k) && AllFit(anchor, calls)
    decreases |calls|
  {
    calls == [] ||
    (!Shows(t, anchor, k, calls[0]) && NoneShows(t, anchor, Leaves(t, anchor, k, calls[0]), calls[1..]))
  }

  /** Any run of any of the three is right if and only if none of its calls comes to a harm that shows. */
  lemma {:induction false} RunRightIff(r: Regex, anchor: bool, k: Cache, calls: seq<Call>)
    requires NoFinal(r) && Valid(Automaton(r), anchor, k) && AllFit(anchor, calls)
    ensures AllRight(r, anchor, k, calls) <==> NoneShows(Automaton(r), anchor, k, calls)
    decreases |calls|
  {
    hide Automaton, Valid, Right, Shows;
    if calls != [] {
      RightIff(r, anchor, k, calls[0]);
      RunRightIff(r, anchor, Leaves(Automaton(r), anchor, k, calls[0]), calls[1..]);
    }
  }

  /** Every run of match from this cache is right. */
  ghost predicate RunsRight(r: Regex, k: Cache)
    requires Valid(Automaton(r), false, k)
  {
    forall calls :: AllFit(false, calls) ==> AllRight(r, false, k, calls)
  }

  /** And in none a step harms. */
  ghost predicate RunsHarmless(t: Table, k: Cache)
    requires Valid(t, false, k)
  {
    forall calls :: AllFit(false, calls) ==> AllHarmless(t, false, k, calls)
  }

  lemma FirstRight(r: Regex, k: Cache, w: Word)
    requires Valid(Automaton(r), false, k) && RunsRight(r, k) && IsSubject(w)
    ensures AwkSearch.Match(Automaton(r), k, w).1 <==> HasMatch(r, [HAT] + w)
  {
    hide Automaton, HasMatch;
    var calls := [Match(w)];
    assert AllFit(false, calls) && AllRight(r, false, k, calls);
  }

  lemma RestRight(r: Regex, k: Cache, c: Call)
    requires Valid(Automaton(r), false, k) && RunsRight(r, k) && Fits(false, c)
    ensures RunsRight(r, Leaves(Automaton(r), false, k, c))
  {
    hide Automaton, Right, Leaves;
    var k1 := Leaves(Automaton(r), false, k, c);
    forall calls | AllFit(false, calls) ensures AllRight(r, false, k1, calls) {
      var more := [c] + calls;
      assert more[0] == c && more[1..] == calls;
      assert AllFit(false, more);
      assert AllRight(r, false, k, more);
    }
  }

  lemma {:induction false} RightRunIsHarmless(r: Regex, k: Cache, calls: seq<Call>)
    requires NoFinal(r) && Valid(Automaton(r), false, k) && RunsRight(r, k) && AllFit(false, calls)
    ensures AllHarmless(Automaton(r), false, k, calls)
    decreases |calls|
  {
    hide Automaton, Valid, RunsRight, HasMatch, MatchRunHarmless, IsSubject, Leaves;
    if calls != [] {
      forall w | IsSubject(w) ensures AwkSearch.Match(Automaton(r), k, w).1 <==> HasMatch(r, [HAT] + w) {
        FirstRight(r, k, w);
      }
      MatchExactFor(r, k);
      assert Fits(false, calls[0]);
      RestRight(r, k, calls[0]);
      RightRunIsHarmless(r, Leaves(Automaton(r), false, k, calls[0]), calls[1..]);
    }
  }

  /** Every answer in every run of match after makedfa is right if and only if in no run a step harms. */
  lemma MatchRunsExact(r: Regex)
    requires NoFinal(r)
    ensures Searchable(Automaton(r))
    ensures var k := Makedfa(Automaton(r), false); RunsRight(r, k) <==> RunsHarmless(Automaton(r), k)
  {
    hide Automaton, Valid, Makedfa, AllRight, AllHarmless, AllFit;
    AutomatonSearchable(r);
    var k := Makedfa(Automaton(r), false);
    if RunsRight(r, k) {
      forall calls | AllFit(false, calls) ensures AllHarmless(Automaton(r), false, k, calls) {
        RightRunIsHarmless(r, k, calls);
      }
    }
    if RunsHarmless(Automaton(r), k) {
      forall calls | AllFit(false, calls) ensures AllRight(r, false, k, calls) {
        HarmlessRunIsRight(r, false, k, calls);
      }
    }
  }

  lemma CalmCall(t: Table, anchor: bool, f: set<List>, k: Cache, c: Call)
    requires |t| > 0 && Family(t, anchor, f) && |f| < NSTATES && Calm(t, anchor, f, k) && Fits(anchor, c)
    ensures Harmless(t, anchor, k, c) && Calm(t, anchor, f, Leaves(t, anchor, k, c))
  {
    hide Family, Valid, RowsOk, Initial;
    CalmIsReady(t, anchor, f, k);
    match c
    case Match(w) => FewListsMatch(t, f, k, w);
    case _ => FewListsPmatch(t, f, k, c.w);
  }

  lemma {:induction false} CalmRun(t: Table, anchor: bool, f: set<List>, k: Cache, calls: seq<Call>)
    requires |t| > 0 && Family(t, anchor, f) && |f| < NSTATES && Calm(t, anchor, f, k) && AllFit(anchor, calls)
    ensures Valid(t, anchor, k) && AllHarmless(t, anchor, k, calls)
    decreases |calls|
  {
    hide Family, Calm, Valid, RowsOk, Initial, Harmless;
    CalmIsReady(t, anchor, f, k);
    if calls != [] {
      CalmCall(t, anchor, f, k, calls[0]);
      CalmRun(t, anchor, f, Leaves(t, anchor, k, calls[0]), calls[1..]);
    }
  }

  lemma {:induction false} FirstLeaf(r: Regex, b: Position)
    ensures b in First(r, b)
  {
    match r
    case Atom(_) =>
    case Star(body) => FirstLeaf(body, b);
    case Plus(body) => FirstLeaf(body, b);
    case Quest(body) => FirstLeaf(body, b);
    case Cat(left, _) => FirstLeaf(left, b);
    case Or(left, _) => FirstLeaf(left, b);
  }

  /** A search starts somewhere. */
  lemma StartIsSome(r: Regex, anchor: bool)
    requires NoFinal(r)
    ensures Searchable(Automaton(r)) && StartList(Automaton(r), anchor) != []
  {
    hide Automaton, Desc;
    AutomatonSearchable(r);
    StartInTable(r);
    FirstLeaf(r, 1);
    var t := Automaton(r);
    var s := if anchor then StartSet(t) - {0} else StartSet(t);
    assert 1 in AnchoredStart(r);
    DescMembers(s, |t|);
    assert 1 in Desc(s, |t|);
  }

  /** From makedfa on every call of every run is right, if at most NSTATES - 1 lists can be reached. */
  lemma FewListsRight(r: Regex, anchor: bool, f: set<List>, calls: seq<Call>)
    requires NoFinal(r) && AllFit(anchor, calls)
    requires |Automaton(r)| > 0 && Family(Automaton(r), anchor, f) && |f| < NSTATES
    ensures Searchable(Automaton(r)) && AllRight(r, anchor, Makedfa(Automaton(r), anchor), calls)
  {
    hide Automaton, Family, Calm, Right, Harmless, Makedfa, StartList;
    var t := Automaton(r);
    StartIsSome(r, anchor);
    MakedfaCalm(t, anchor, f);
    CalmRun(t, anchor, f, Makedfa(t, anchor), calls);
    HarmlessRunIsRight(r, anchor, Makedfa(t, anchor), calls);
  }

  /** All lists of three positions. */
  ghost function Subsets(n: nat): set<List> {
    {Desc({}, n), Desc({0}, n), Desc({1}, n), Desc({2}, n), Desc({0, 1}, n), Desc({0, 2}, n), Desc({1, 2}, n),
     Desc({0, 1, 2}, n)}
  }

  lemma SubsetIn(s: set<Position>, n: nat)
    requires forall p :: p in s ==> 0 <= p < 3
    ensures Desc(s, n) in Subsets(n)
  {
    hide Desc;
    assert forall p :: p in s ==> p == 0 || p == 1 || p == 2;
    if 0 in s {
      if 1 in s {
        if 2 in s { assert s == {0, 1, 2}; } else { assert s == {0, 1}; }
      } else {
        if 2 in s { assert s == {0, 2}; } else { assert s == {0}; }
      }
    } else if 1 in s {
      if 2 in s { assert s == {1, 2}; } else { assert s == {1}; }
    } else {
      if 2 in s { assert s == {2}; } else { assert s == {}; }
    }
  }

  lemma SubsetsFew(n: nat)
    ensures |Subsets(n)| <= 8
  {
    hide Desc;
    var a, b, c, d := {Desc({}, n), Desc({0}, n)}, {Desc({1}, n), Desc({2}, n)}, {Desc({0, 1}, n), Desc({0, 2}, n)},
        {Desc({1, 2}, n), Desc({0, 1, 2}, n)};
    assert Subsets(n) == (a + b) + (c + d);
    assert |a + b| <= 4 && |c + d| <= 4;
  }

  /** The condition is met by every expression with one leaf, repeated or optional as it may be. */
  lemma OneLeafFamily(r: Regex, anchor: bool)
    requires NoFinal(r) && Size(r) == 1
    ensures var t := Automaton(r);
            |t| == 3 && Family(t, anchor, Subsets(|t|)) && |Subsets(|t|)| < NSTATES
  {
    hide Automaton, Desc, Subsets, Elements;
    AutomatonSearchable(r);
    var t := Automaton(r);
    FollowInTable(t, t[0].kont);
    StepInTable(t, StartSet(t), HAT);
    SubsetsFew(|t|);
    SubsetIn({}, |t|);
    DescOfNone(|t|);
    SubsetIn(if anchor then StartSet(t) - {0} else StartSet(t), |t|);
    SubsetIn(InitSet(t, anchor), |t|);
    forall l, c | l in Subsets(|t|) && 0 <= c < HAT ensures Next(t, l, c) in Subsets(|t|) {
      StepInTable(t, Elements(l), c);
      SubsetIn(Step(t, Elements(l), c), |t|);
    }
  }

  /** So for these the matchers are right with no condition at all. */
  lemma OneLeafRight(r: Regex, anchor: bool, calls: seq<Call>)
    requires NoFinal(r) && Size(r) == 1 && AllFit(anchor, calls)
    ensures Searchable(Automaton(r)) && AllRight(r, anchor, Makedfa(Automaton(r), anchor), calls)
  {
    hide Automaton, Family, Right, Makedfa, Subsets;
    OneLeafFamily(r, anchor);
    FewListsRight(r, anchor, Subsets(|Automaton(r)|), calls);
  }

  ghost predicate AllHits(r: Regex, records: seq<Word>, hits: seq<bool>) {
    |hits| == |records| && forall i :: 0 <= i < |records| ==> (hits[i] <==> HasMatch(r, [HAT] + records[i]))
  }

  lemma NoHits(r: Regex)
    ensures AllHits(r, [], [])
  {
  }

  lemma HitsSnoc(r: Regex, records: seq<Word>, hits: seq<bool>, w: Word, b: bool)
    requires AllHits(r, records, hits) && (b <==> HasMatch(r, [HAT] + w))
    ensures AllHits(r, records + [w], hits + [b])
  {
    hide HasMatch;
  }

  /** match on one record after the other. */
  method MatchEach(fa: Dfa.Fa, records: seq<Word>, ghost f: set<List>) returns (hits: seq<bool>)
    requires fa.Wired() && fa.Built() && Valid(fa.t, false, fa.Abs())
    requires forall i :: 0 <= i < |records| ==> IsSubject(records[i])
    modifies fa, fa.gototab, fa.posns, fa.out, fa.setvec
    ensures fa.Wired() && Valid(fa.t, false, fa.Abs()) && |hits| == |records|
    ensures |fa.t| > 0 && Family(fa.t, false, f) && |f| < NSTATES && Calm(fa.t, false, f, old(fa.Abs())) ==>
              AllHits(fa.expr, records, hits)
  {
    hide Family, Calm, HasMatch, Valid, AllHits;
    NoHits(fa.expr);
    ghost var few := |fa.t| > 0 && Family(fa.t, false, f) && |f| < NSTATES && Calm(fa.t, false, f, fa.Abs());
    hits := [];
    for i := 0 to |records|
      invariant |hits| == i && fa.Wired() && Valid(fa.t, false, fa.Abs())
      invariant few ==> Calm(fa.t, false, f, fa.Abs()) && AllHits(fa.expr, records[..i], hits)
    {
      if few { FewListsMatch(fa.t, f, fa.Abs(), records[i]); }
      var b := fa.Match(records[i]);
      assert records[..i + 1] == records[..i] + [records[i]];
      if few { HitsSnoc(fa.expr, records[..i], hits, records[i], b); }
      hits := hits + [b];
    }
    assert records[..|records|] == records;
  }

  /** A pattern and all records: makedfa, and then match on each record.  Every answer is right, if at
      most NSTATES - 1 lists can be reached. */
  method MatchRecords(p: Tree.Node, ghost nodes: set<Tree.Node>, records: seq<Word>, ghost f: set<List>)
    returns (hits: seq<bool>)
    requires Tree.Shaped(p) && Tree.Proper(p) && NoFinal(p.tree) && nodes == Tree.Nodes(p)
    requires forall i :: 0 <= i < |records| ==> IsSubject(records[i])
    modifies nodes
    ensures |hits| == |records| && Searchable(Automaton(p.tree))
    ensures Family(Automaton(p.tree), false, f) && |f| < NSTATES ==> AllHits(p.tree, records, hits)
  {
    hide Automaton, Family, Calm, AllHits, Initial, RowsOk, Makedfa, StartList;
    AutomatonSearchable(p.tree);
    HatList(Automaton(p.tree));
    var fa := new Dfa.Fa(p, false, nodes);
    if Family(fa.t, false, f) { MakedfaCalm(fa.t, false, f); }
    hits := MatchEach(fa, records, f);
  }
}
