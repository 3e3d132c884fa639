/** What the expressions of awk (cmd/awk/b.c) mean, in terms of characters and words only: each leaf, each
    operator, `^` and `$`; and what that makes of the answers of match and pmatch. */
module AwkMeaning {
  import opened AwkRegex
  import opened AwkPositions
  import opened AwkAutomaton
  import opened AwkCache
  import opened AwkSearch
  import opened AwkFound
  import opened AwkFlush
  import opened AwkRuns
  import Shown = AwkShown
  import Tree = AwkTree
  import Dfa = AwkDfa

  // --- leaves ---

  /** A leaf is a word of one symbol; of the bytes a class takes those it lists and a negated one the others,
      a dot takes all, a character takes itself. */
  lemma LeafTakes(leaf: Leaf, b: seq<ClassByte>, d: int, c: int)
    requires 1 <= c <= 255
    ensures leaf == Ccl(b) && b != [] ==> (In(Atom(leaf), [c]) <==> exists i :: 0 <= i < |b| && b[i] == c)
    ensures leaf == Nccl(b) ==> (In(Atom(leaf), [c]) <==> forall i :: 0 <= i < |b| ==> b[i] != c)
    ensures leaf == Dot || leaf == All ==> In(Atom(leaf), [c])
    ensures leaf == Chr(d) ==> (In(Atom(leaf), [c]) <==> c == d)
    ensures leaf == Final ==> !In(Atom(leaf), [c])
  {
    assert c % 256 == c;
  }

  /** The end of the subject, 0, is taken by its character only, and so is the start, 256, but that the leaf
      which makedfa adds takes it too. */
  lemma LeafEnds(leaf: Leaf, c: int)
    requires c == 0 || c == 256
    ensures In(Atom(leaf), [c]) <==> leaf == Chr(c) || (leaf == All && c == 256)
  {
  }

  lemma LeafOnce(leaf: Leaf, w: Word)
    ensures In(Atom(leaf), w) ==> |w| == 1 || (leaf == Ccl([]) && w == [])
    ensures leaf == Ccl([]) ==> (In(Atom(leaf), w) <==> w == [])
  {
  }

  // --- operators ---

  function Joined(ws: seq<Word>): Word {
    if ws == [] then [] else ws[0] + Joined(ws[1..])
  }

  /** Words one after the other, each of the expression. */
  ghost predicate Chain(r: Regex, ws: seq<Word>, w: Word) {
    Joined(ws) == w && forall i :: 0 <= i < |ws| ==> In(r, ws[i])
  }

  lemma ChainCons(r: Regex, ws: seq<Word>, w: Word)
    requires ws != []
    ensures Chain(r, ws, w) <==> exists v :: w == ws[0] + v && In(r, ws[0]) && Chain(r, ws[1..], v)
  {
    hide In;
    if Chain(r, ws, w) {
      assert w == ws[0] + Joined(ws[1..]);
      assert Chain(r, ws[1..], Joined(ws[1..]));
    }
    if v :| w == ws[0] + v && In(r, ws[0]) && Chain(r, ws[1..], v) {
      forall i | 0 <= i < |ws| ensures In(r, ws[i]) { assert i > 0 ==> ws[i] == ws[1..][i - 1]; }
    }
  }

  lemma {:induction false} StarChain(r: Regex, w: Word) returns (ws: seq<Word>)
    requires InStar(r, w)
    ensures Chain(r, ws, w)
    decreases |w|
  {
    if w == [] {
      ws := [];
    } else {
      var x, y := SplitStar(r, w);
      var vs := StarChain(r, y);
      ws := [x] + vs;
      assert ws[1..] == vs;
      ChainCons(r, ws, w);
    }
  }

  lemma {:induction false} ChainStar(r: Regex, ws: seq<Word>, w: Word)
    requires Chain(r, ws, w)
    ensures InStar(r, w)
    decreases |ws|
  {
    if ws != [] {
      ChainCons(r, ws, w);
      var v :| w == ws[0] + v && In(r, ws[0]) && Chain(r, ws[1..], v);
      ChainStar(r, ws[1..], v);
      StarPrepend(r, ws[0], v);
    }
  }

  /** `*` is any number of words one after the other, `+` one or more. */
  lemma Repeated(r: Regex, w: Word)
    ensures In(Star(r), w) <==> exists ws :: Chain(r, ws, w)
    ensures In(Plus(r), w) <==> exists ws :: ws != [] && Chain(r, ws, w)
  {
    if In(Star(r), w) {
      var ws := StarChain(r, w);
    }
    if ws :| Chain(r, ws, w) { ChainStar(r, ws, w); }
    if In(Plus(r), w) {
      var x, y := SplitPlus(r, w);
      var vs := StarChain(r, y);
      assert ([x] + vs)[1..] == vs;
      ChainCons(r, [x] + vs, w);
    }
    if ws :| ws != [] && Chain(r, ws, w) {
      ChainCons(r, ws, w);
      var v :| w == ws[0] + v && In(r, ws[0]) && Chain(r, ws[1..], v);
      ChainStar(r, ws[1..], v);
      PlusIntro(r, ws[0], v);
    }
  }

  lemma Combined(r: Regex, q: Regex, w: Word)
    ensures In(Quest(r), w) <==> w == [] || In(r, w)
    ensures In(Or(r, q), w) <==> In(r, w) || In(q, w)
    ensures In(Cat(r, q), w) <==> exists x, y :: w == x + y && In(r, x) && In(q, y)
  {
    hide InStar;
    if In(Cat(r, q), w) {
      var x, y := SplitCat(r, q, w);
    }
    if x, y :| w == x + y && In(r, x) && In(q, y) { CatIntro(r, q, x, y); }
  }

  // --- symbols an expression cannot match ---

  /** No leaf of the expression takes the symbol. */
  predicate Without(r: Regex, c: int) {
    match r
    case Atom(leaf) => leaf != Chr(c) && !(leaf == All && c == 256)
    case Star(body) => Without(body, c)
    case Plus(body) => Without(body, c)
    case Quest(body) => Without(body, c)
    case Cat(left, right) => Without(left, c) && Without(right, c)
    case Or(left, right) => Without(left, c) && Without(right, c)
  }

  ghost predicate Avoids(w: Word, c: int) { forall i :: 0 <= i < |w| ==> w[i] != c }

  lemma {:induction false} JoinedAvoids(ws: seq<Word>, c: int)
    requires forall i :: 0 <= i < |ws| ==> Avoids(ws[i], c)
    ensures Avoids(Joined(ws), c)
  {
    if ws != [] { JoinedAvoids(ws[1..], c); }
  }

  lemma {:induction false} ChainAvoids(r: Regex, ws: seq<Word>, w: Word, c: int)
    requires (c == 0 || c == 256) && Without(r, c) && Chain(r, ws, w)
    ensures Avoids(w, c)
    decreases r, 1
  {
    hide In;
    forall i | 0 <= i < |ws| ensures Avoids(ws[i], c) { WordAvoids(r, ws[i], c); }
    JoinedAvoids(ws, c);
  }

  /** An expression that does not ask for the start (256) or the end (0) matches no word with it. */
  lemma {:induction false} WordAvoids(r: Regex, w: Word, c: int)
    requires (c == 0 || c == 256) && Without(r, c) && In(r, w)
    ensures Avoids(w, c)
    decreases r, 0
  {
    hide In, Chain;
    match r
    case Atom(leaf) =>
      LeafOnce(leaf, w);
      LeafEnds(leaf, c);
      assert |w| == 1 ==> w == [w[0]];
    case Star(body) =>
      Repeated(body, w);
      var ws :| Chain(body, ws, w);
      ChainAvoids(body, ws, w, c);
    case Plus(body) =>
      Repeated(body, w);
      var ws :| ws != [] && Chain(body, ws, w);
      ChainAvoids(body, ws, w, c);
    case Quest(body) =>
      Combined(body, body, w);
      if w != [] { WordAvoids(body, w, c); }
    case Cat(left, right) =>
      Combined(left, right, w);
      var x, y :| w == x + y && In(left, x) && In(right, y);
      WordAvoids(left, x, c);
      WordAvoids(right, y, c);
    case Or(left, right) =>
      Combined(left, right, w);
      if In(left, w) { WordAvoids(left, w, c); } else { WordAvoids(right, w, c); }
  }

  // --- what is found in a subject ---

  /** Between its start and its end the expression matches in the text of the subject: no more than its bytes
      are ever part of the match. */
  lemma PlainMatch(r: Regex, w: Word)
    requires Without(r, 0) && Without(r, 256) && IsSubject(w)
    ensures HasMatch(r, [256] + w) <==> exists i, j :: 0 <= i <= j < |w| && In(r, w[i..j])
  {
    hide In;
    var v := [256] + w;
    if i, j :| 0 <= i <= j <= |v| && In(r, v[i..j]) {
      WordAvoids(r, v[i..j], 256);
      WordAvoids(r, v[i..j], 0);
      if i == j {
        assert v[i..j] == w[0..0];
      } else {
        assert v[i..j][0] == v[i] && v[i..j][j - i - 1] == v[j - 1];
        assert v[i..j] == w[i - 1..j - 1];
      }
    }
    if i, j :| 0 <= i <= j < |w| && In(r, w[i..j]) {
      assert v[i + 1..j + 1] == w[i..j];
    }
  }

  // pieces of a word with one symbol in front

  lemma PieceAfter(c: int, w: Word, i: int, j: int)
    requires 1 <= i <= j <= |w| + 1
    ensures ([c] + w)[i..j] == w[i - 1..j - 1]
  {
  }

  lemma PieceWith(c: int, w: Word, j: int)
    requires 1 <= j <= |w| + 1
    ensures ([c] + w)[0..j] == [c] + w[..j - 1]
  {
  }

  /** A piece that begins, or ends, with a symbol. */
  lemma FirstOfPiece(v: Word, i: int, j: int, c: int, y: Word)
    requires 0 <= i <= j <= |v| && v[i..j] == [c] + y
    ensures i < j && v[i] == c && y == v[i + 1..j]
  {
    assert v[i..j][0] == c;
    assert v[i..j][1..] == y;
  }

  lemma LastOfPiece(v: Word, i: int, j: int, x: Word, c: int)
    requires 0 <= i <= j <= |v| && v[i..j] == x + [c]
    ensures i < j && v[j - 1] == c && x == v[i..j - 1]
  {
    assert v[i..j][|x|] == c;
    assert v[i..j][..|x|] == x;
  }

  /** What starts with the subject matches. */
  ghost predicate MatchesFromStart(r: Regex, w: Word, j: int) {
    0 <= j <= |w| && In(r, w[..j])
  }

  /** `^` in front: the match starts where the subject starts. */
  lemma StartMatch(r: Regex, w: Word)
    requires Without(r, 256) && IsSubject(w)
    ensures HasMatch(Cat(Atom(Chr(256)), r), [256] + w) <==> exists j :: MatchesFromStart(r, w, j)
  {
    hide In, IsSubject;
    var v, q := [256] + w, Cat(Atom(Chr(256)), r);
    if i, j :| 0 <= i <= j <= |v| && In(q, v[i..j]) {
      var h := StartOf(r, w, i, j);
    }
    if j :| MatchesFromStart(r, w, j) {
      StartOnly(256);
      PieceWith(256, w, j + 1);
      CatIntro(Atom(Chr(256)), r, [256], w[..j]);
    }
  }

  lemma StartOf(r: Regex, w: Word, i: int, j: int) returns (h: int)
    requires IsSubject(w) && 0 <= i <= j <= |w| + 1
    requires In(Cat(Atom(Chr(256)), r), ([256] + w)[i..j])
    ensures MatchesFromStart(r, w, h)
  {
    hide In, IsSubject;
    var v := [256] + w;
    var x, y := SplitCat(Atom(Chr(256)), r, v[i..j]);
    LeafOnce(Chr(256), x);
    assert x == [x[0]];
    StartOnly(x[0]);
    FirstOfPiece(v, i, j, 256, y);
    if i > 0 { NotStart(w, i - 1); }
    h := j - 1;
    PieceAfter(256, w, 1, j);
    assert w[0..h] == w[..h];
  }

  lemma NotStart(w: Word, k: int)
    requires IsSubject(w) && 0 <= k < |w|
    ensures w[k] != 256
  {
  }

  lemma StartOnly(c: int)
    ensures In(Atom(Chr(256)), [c]) <==> c == 256
    ensures In(Atom(Chr(0)), [c]) <==> c == 0
  {
  }

  /** The text of the subject from `i` to its end matches. */
  ghost predicate MatchesToEnd(r: Regex, w: Word, i: int) {
    0 <= i < |w| && In(r, w[i..|w| - 1])
  }

  /** `$` behind: it ends where the subject ends. */
  lemma EndMatch(r: Regex, w: Word)
    requires Without(r, 0) && Without(r, 256) && IsSubject(w)
    ensures HasMatch(Cat(r, Atom(Chr(0))), [256] + w) <==> exists i :: MatchesToEnd(r, w, i)
  {
    var v, q := [256] + w, Cat(r, Atom(Chr(0)));
    hide In, IsSubject;
    if i, j :| 0 <= i <= j <= |v| && In(q, v[i..j]) {
      var h := EndOf(r, w, i, j);
    }
    if i :| MatchesToEnd(r, w, i) {
      StartOnly(0);
      LastNul(w, |w| - 1);
      assert v[i + 1..|v|] == w[i..|w| - 1] + [0];
      CatIntro(r, Atom(Chr(0)), w[i..|w| - 1], [0]);
    }
  }

  lemma LastNul(w: Word, k: int)
    requires IsSubject(w) && 0 <= k < |w|
    ensures w[k] == 0 <==> k == |w| - 1
  {
  }

  lemma EndOf(r: Regex, w: Word, i: int, j: int) returns (h: int)
    requires Without(r, 256) && IsSubject(w) && 0 <= i <= j <= |w| + 1
    requires In(Cat(r, Atom(Chr(0))), ([256] + w)[i..j])
    ensures MatchesToEnd(r, w, h)
  {
    hide In, IsSubject;
    var v := [256] + w;
    var x, y := SplitCat(r, Atom(Chr(0)), v[i..j]);
    LeafOnce(Chr(0), y);
    assert y == [y[0]];
    StartOnly(y[0]);
    LastOfPiece(v, i, j, x, 0);
    assert j > 1;
    LastNul(w, j - 2);
    if x == [] {
      h := |w| - 1;
      assert x == w[h..h];
    } else {
      WordAvoids(r, x, 256);
      assert x[0] == v[i];
      h := i - 1;
      PieceAfter(256, w, i, j - 1);
    }
  }

  lemma PlainPiece(r: Regex, w: Word, p: int, n: int)
    requires Without(r, 0) && Without(r, 256) && IsSubject(w) && p < |w|
    ensures IsMatch(r, w, p, n) <==> 0 <= p <= p + n < |w| && In(r, w[p..p + n])
  {
    hide In;
    if 0 <= p && 0 <= n && p + n <= |w| {
      if In(r, w[p..p + n]) && n > 0 {
        WordAvoids(r, w[p..p + n], 0);
        assert w[p..p + n][n - 1] == w[p + n - 1];
      }
      if In(r, [HAT] + w[..n]) {
        WordAvoids(r, [HAT] + w[..n], 256);
        assert ([HAT] + w[..n])[0] == 256;
      }
    }
  }

  /** What pmatch finds when it is right: no piece of the subject before `start` matches, none at `start` that
      is longer, and `w[start..start + length]` does. */
  ghost predicate FirstLongest(r: Regex, w: Word, f: Found)
    requires w != []
  {
    match f
    case None => forall i, j :: 0 <= i <= j < |w| ==> !In(r, w[i..j])
    case Some(start, length) =>
      && 0 <= start <= start + length < |w| && In(r, w[start..start + length])
      && (forall j :: start <= j < |w| && In(r, w[start..j]) ==> j <= start + length)
      && (forall i, j :: 0 <= i < start && i <= j < |w| ==> !In(r, w[i..j]))
  }

  lemma PmatchFinds(r: Regex, k: Cache, w: Word)
    requires NoFinal(r) && Valid(Automaton(r), true, k) && IsSubject(w) && Without(r, 0) && Without(r, 256)
    ensures FirstLongest(r, w, AwkSearch.Pmatch(Automaton(r), k, w).1) <==> !Shown.PmatchShows(Automaton(r), k, w)
  {
    var f := AwkSearch.Pmatch(Automaton(r), k, w).1;
    hide Automaton, AwkSearch.Pmatch, Shown.PmatchShows, In, IsMatch, Valid;
    Shown.PmatchCorrectIff(r, k, w);
    forall p, n | p < |w| ensures IsMatch(r, w, p, n) <==> 0 <= p <= p + n < |w| && In(r, w[p..p + n]) {
      PlainPiece(r, w, p, n);
    }
    PiecesTell(r, w, f);
  }

  lemma PiecesTell(r: Regex, w: Word, f: Found)
    requires w != []
    requires forall p, n :: p < |w| ==> (IsMatch(r, w, p, n) <==> 0 <= p <= p + n < |w| && In(r, w[p..p + n]))
    ensures IsLeftmostLongest(r, w, f) <==> FirstLongest(r, w, f)
  {
    hide In, IsMatch;
    if IsLeftmostLongest(r, w, f) {
      forall i, j | 0 <= i <= j < |w| && In(r, w[i..j]) ensures IsMatch(r, w, i, j - i) { assert i + (j - i) == j; }
    }
    if FirstLongest(r, w, f) {
      forall i, n | 0 <= i < |w| && IsMatch(r, w, i, n) ensures i + n < |w| && In(r, w[i..i + n]) {}
    }
  }

  /** And of nematch, which looks for pieces that are not empty. */
  ghost predicate FirstLongestSome(r: Regex, w: Word, f: Found)
    requires w != []
  {
    match f
    case None => forall i, j :: 0 <= i < j < |w| ==> !In(r, w[i..j])
    case Some(start, length) =>
      && 0 <= start < start + length < |w| && In(r, w[start..start + length])
      && (forall j :: start <= j < |w| && In(r, w[start..j]) ==> j <= start + length)
      && (forall i, j :: 0 <= i < start && i < j < |w| ==> !In(r, w[i..j]))
  }

  lemma NematchFinds(r: Regex, k: Cache, w: Word)
    requires NoFinal(r) && Valid(Automaton(r), true, k) && IsSubject(w) && Without(r, 0) && Without(r, 256)
    ensures FirstLongestSome(r, w, AwkSearch.Nematch(Automaton(r), k, w).1) <==>
              !Shown.NematchShows(Automaton(r), k, w)
  {
    var f := AwkSearch.Nematch(Automaton(r), k, w).1;
    hide Automaton, AwkSearch.Nematch, Shown.NematchShows, In, IsMatch, Valid;
    Shown.NematchCorrectIff(r, k, w);
    forall p, n | p < |w| ensures IsMatch(r, w, p, n) <==> 0 <= p <= p + n < |w| && In(r, w[p..p + n]) {
      PlainPiece(r, w, p, n);
    }
    SomePiecesTell(r, w, f);
  }

  lemma SomePiecesTell(r: Regex, w: Word, f: Found)
    requires w != []
    requires forall p, n :: p < |w| ==> (IsMatch(r, w, p, n) <==> 0 <= p <= p + n < |w| && In(r, w[p..p + n]))
    ensures IsLeftmostLongestNonEmpty(r, w, f) <==> FirstLongestSome(r, w, f)
  {
    hide In, IsMatch;
    if IsLeftmostLongestNonEmpty(r, w, f) {
      forall i, j | 0 <= i <= j < |w| && In(r, w[i..j]) ensures IsMatch(r, w, i, j - i) { assert i + (j - i) == j; }
    }
    if FirstLongestSome(r, w, f) {
      forall i, n | 0 <= i < |w| && IsMatch(r, w, i, n) ensures i + n < |w| && In(r, w[i..i + n]) {}
    }
  }

  // --- a class on its own ---

  /** Which bytes a leaf is to match: `[...]`, `[^...]`, a dot, or a character. */
  predicate Wanted(leaf: Leaf, c: int) {
    match leaf
    case Ccl(b) => exists i :: 0 <= i < |b| && b[i] == c
    case Nccl(b) => forall i :: 0 <= i < |b| ==> b[i] != c
    case Chr(d) => c == d
    case Dot => true
    case All => true
    case Final => false
  }

  lemma LeafMatch(leaf: Leaf, w: Word)
    requires leaf != Chr(0) && leaf != Chr(256) && leaf != All && leaf != Ccl([]) && IsSubject(w)
    ensures HasMatch(Atom(leaf), [256] + w) <==> exists i :: 0 <= i < |w| - 1 && Wanted(leaf, w[i])
  {
    PlainMatch(Atom(leaf), w);
    if i, j :| 0 <= i <= j < |w| && In(Atom(leaf), w[i..j]) {
      LeafOnce(leaf, w[i..j]);
      LeafWanted(leaf, w[i]);
      assert w[i..j] == [w[i]];
      assert Wanted(leaf, w[i]);
    }
    if i :| 0 <= i < |w| - 1 && Wanted(leaf, w[i]) {
      LeafWanted(leaf, w[i]);
      assert w[i..i + 1] == [w[i]];
    }
  }

  lemma LeafWanted(leaf: Leaf, c: int)
    requires 1 <= c <= 255 && leaf != Ccl([])
    ensures In(Atom(leaf), [c]) <==> Wanted(leaf, c)
  {
    match leaf
    case Ccl(b) => LeafTakes(leaf, b, 0, c);
    case Nccl(b) => LeafTakes(leaf, b, 0, c);
    case Chr(d) => LeafTakes(leaf, [], d, c);
    case _ => LeafTakes(leaf, [], 0, c);
  }

  /** makedfa and then match on each record, for an expression of one leaf: each answer is whether the record
      has a byte that is wanted. */
  method MatchLeaf(leaf: Leaf, records: seq<Word>) returns (hits: seq<bool>)
    requires leaf != Chr(0) && leaf != Chr(256) && leaf != All && leaf != Ccl([]) && leaf != Final
    requires forall i :: 0 <= i < |records| ==> IsSubject(records[i])
    ensures |hits| == |records|
    ensures forall k :: 0 <= k < |hits| ==>
              (hits[k] <==> exists i :: 0 <= i < |records[k]| - 1 && Wanted(leaf, records[k][i]))
  {
    hide Automaton, Family, Subsets, HasMatch, Wanted;
    ghost var r := Atom(leaf);
    OneLeafFamily(r, false);
    var p := new Tree.Node.Atom(leaf);
    hits := MatchRecords(p, {p}, records, Subsets(|Automaton(r)|));
    forall k | 0 <= k < |hits|
      ensures hits[k] <==> exists i :: 0 <= i < |records[k]| - 1 && Wanted(leaf, records[k][i])
    {
      LeafMatch(leaf, records[k]);
    }
  }
}
