/** What the matchers of cmd/awk/b.c find, said of the regular expression itself. */
module AwkFound {
  import opened AwkRegex
  import opened AwkPositions
  import opened AwkAutomaton
  import opened AwkCache
  import opened AwkSearch

  lemma AutomatonSearchable(r: Regex)
    requires NoFinal(r)
    ensures Searchable(Automaton(r)) && |Automaton(r)| == Size(r) + 2
    ensures StartSet(Automaton(r)) == Start(r) && InitSet(Automaton(r), true) == AnchoredInit(r)
  {
    FullHolds(r);
    AutomatonSound(r);
    StartInTable(r);
  }

  /** Some contiguous piece of `w` is in the language. */
  ghost predicate HasMatch(r: Regex, w: Word) {
    exists i, j :: 0 <= i <= j <= |w| && In(r, w[i..j])
  }

  lemma PieceIsPrefixMatch(r: Regex, v: Word, n: int)
    requires NoFinal(r) && 0 <= n <= |v|
    ensures AcceptsAfter(Automaton(r), StartSet(Automaton(r)), v, n) <==> exists i :: MatchesFrom(r, v[..n], i)
  {
    AutomatonSearchable(r);
    StartAccepts(r, v[..n]);
  }

  lemma PrefixMatches(r: Regex, w: Word)
    requires NoFinal(r) && IsSubject(w)
    ensures var v := [HAT] + w;
            (exists n :: n > 0 && AcceptsAfter(Automaton(r), StartSet(Automaton(r)), v, n)) <==> HasMatch(r, v)
  {
    var v := [HAT] + w;
    var t := Automaton(r);
    var s := StartSet(t);
    hide Automaton, In;
    if n :| n > 0 && AcceptsAfter(t, s, v, n) {
      PieceIsPrefixMatch(r, v, n);
      var i :| MatchesFrom(r, v[..n], i);
      assert v[..n][i..] == v[i..n];
    }
    if i, j :| 0 <= i <= j <= |v| && In(r, v[i..j]) {
      var m := if i == |v| then 1 else if j == 0 then 1 else i;
      var n := if i == |v| then 1 else if j == 0 then 1 else j;
      assert v[..n][m..] == v[i..j];
      assert v[..n][..m] == v[..m];
      assert MatchesFrom(r, v[..n], m);
      PieceIsPrefixMatch(r, v, n);
    }
  }

  /** match returns 1 exactly when the expression matches some piece of HAT, the subject and NUL,
      whatever the cache holds, if no step of the run harms. */
  lemma MatchCorrect(r: Regex, k: Cache, w: Word)
    requires NoFinal(r) && Valid(Automaton(r), false, k) && IsSubject(w)
    requires MatchRunHarmless(Automaton(r), k, w)
    ensures Match(Automaton(r), k, w).1 <==> HasMatch(r, [HAT] + w)
  {
    MatchFinds(Automaton(r), k, w);
    PrefixMatches(r, w);
  }

  /** `w[p..p + n]` matches; at the start of the subject HAT may be part of the match. */
  ghost predicate IsMatch(r: Regex, w: Word, p: int, n: int) {
    0 <= p && 0 <= n && p + n <= |w| && (In(r, w[p..p + n]) || (p == 0 && In(r, [HAT] + w[..n])))
  }

  lemma AcceptedIsMatch(r: Regex, w: Word, p: int, n: int)
    requires NoFinal(r)
    ensures |Automaton(r)| > 0
    ensures Accepted(Automaton(r), w, p, n) <==> IsMatch(r, w, p, n)
  {
    hide Automaton, In;
    AutomatonSearchable(r);
    if 0 <= p && 0 <= n && p + n <= |w| {
      assert w[p..][..n] == w[p..p + n];
      if p == 0 {
        assert w[p..p + n] == w[..n];
        AnchoredInitAccepts(r, w[..n]);
      } else {
        AnchoredStartAccepts(r, w[p..p + n]);
      }
    }
  }

  /** The leftmost start that has a match, then the longest match there. */
  ghost predicate IsLeftmostLongest(r: Regex, w: Word, f: Found) {
    match f
    case None => forall i, n :: 0 <= i < |w| ==> !IsMatch(r, w, i, n)
    case Some(start, length) =>
      && 0 <= start < |w| && IsMatch(r, w, start, length)
      && (forall n :: IsMatch(r, w, start, n) ==> n <= length)
      && (forall i, n :: 0 <= i < start ==> !IsMatch(r, w, i, n))
  }

  /** pmatch returns the leftmost match and, there, the longest one, and 0 only when there is none;
      whatever the cache holds, and across flushes, if no step of the run harms. */
  lemma PmatchCorrect(r: Regex, k: Cache, w: Word)
    requires NoFinal(r) && Valid(Automaton(r), true, k) && IsSubject(w)
    requires PmatchRunHarmless(Automaton(r), k, w)
    ensures IsLeftmostLongest(r, w, Pmatch(Automaton(r), k, w).1)
  {
    PmatchFinds(Automaton(r), k, w);
    forall i, n ensures |Automaton(r)| > 0 && (Accepted(Automaton(r), w, i, n) <==> IsMatch(r, w, i, n)) {
      AcceptedIsMatch(r, w, i, n);
    }
  }

  /** The leftmost start in the subject that has a match of one symbol or more, then the longest there. */
  ghost predicate IsLeftmostLongestNonEmpty(r: Regex, w: Word, f: Found) {
    match f
    case None => forall i, n :: 0 <= i < |w| - 1 && n > 0 ==> !IsMatch(r, w, i, n)
    case Some(start, length) =>
      && 0 <= start < |w| - 1 && length > 0 && IsMatch(r, w, start, length)
      && (forall n :: IsMatch(r, w, start, n) ==> n <= length)
      && (forall i, n :: 0 <= i < start && n > 0 ==> !IsMatch(r, w, i, n))
  }

  lemma NematchCorrect(r: Regex, k: Cache, w: Word)
    requires NoFinal(r) && Valid(Automaton(r), true, k) && IsSubject(w)
    requires NematchRunHarmless(Automaton(r), k, w)
    ensures IsLeftmostLongestNonEmpty(r, w, Nematch(Automaton(r), k, w).1)
  {
    NematchFinds(Automaton(r), k, w);
    forall i, n ensures |Automaton(r)| > 0 && (Accepted(Automaton(r), w, i, n) <==> IsMatch(r, w, i, n)) {
      AcceptedIsMatch(r, w, i, n);
    }
  }
}
