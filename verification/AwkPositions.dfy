/** The position automaton of cmd/awk/b.c: leaves are numbered left to right, `first` gives the
    leaves a tree can start with, `follow` the leaves that can come after a leaf, and a set of
    leaves is a state.

    What can come after a leaf is captured by a continuation, so that the meaning of a position
    ("the words that may be read from here") can be stated and the sets proved against it. */
module AwkPositions {
  import opened Sequences
  import opened AwkRegex

  type Position = int

  /** What may follow a subtree.  `Loop(r, b, up)`: any number of further rounds of `r`, whose
      leaves are numbered from `b`, then `up`.  `Before(r, b, up)`: one `r`, then `up`. */
  datatype Kont = Done | Loop(body: Regex, base: Position, up: Kont) | Before(next: Regex, base: Position, up: Kont)

  datatype Row = Row(leaf: Leaf, kont: Kont)
  type Table = seq<Row>

  function Size(r: Regex): (n: nat)
    ensures n > 0
  {
    match r
    case Atom(_) => 1
    case Star(body) => Size(body)
    case Plus(body) => Size(body)
    case Quest(body) => Size(body)
    case Cat(left, right) => Size(left) + Size(right)
    case Or(left, right) => Size(left) + Size(right)
  }

  /** True when `first` returns 0. */
  predicate Nullable(r: Regex) {
    match r
    case Atom(leaf) => IsEmptyClass(leaf)
    case Star(_) => true
    case Plus(body) => Nullable(body)
    case Quest(_) => true
    case Cat(left, right) => Nullable(left) && Nullable(right)
    case Or(left, right) => Nullable(left) || Nullable(right)
  }

  function First(r: Regex, b: Position): set<Position> {
    match r
    case Atom(_) => {b}
    case Star(body) => First(body, b)
    case Plus(body) => First(body, b)
    case Quest(body) => First(body, b)
    case Cat(left, right) => First(left, b) + if Nullable(left) then First(right, b + Size(left)) else {}
    case Or(left, right) => First(left, b) + First(right, b + Size(left))
  }

  function Follow(k: Kont): set<Position> {
    match k
    case Done => {}
    case Loop(body, b, up) => First(body, b) + Follow(up)
    case Before(next, b, up) => First(next, b) + if Nullable(next) then Follow(up) else {}
  }

  /** The rows of a subtree whose leaves are numbered from `b` and after which `k` comes. */
  function Rows(r: Regex, b: Position, k: Kont): (t: Table)
    ensures |t| == Size(r)
  {
    match r
    case Atom(leaf) => [Row(leaf, k)]
    case Star(body) => Rows(body, b, Loop(body, b, k))
    case Plus(body) => Rows(body, b, Loop(body, b, k))
    case Quest(body) => Rows(body, b, k)
    case Cat(left, right) => Rows(left, b, Before(right, b + Size(left), k)) + Rows(right, b + Size(left), k)
    case Or(left, right) => Rows(left, b, k) + Rows(right, b + Size(left), k)
  }

  const FINAL: Regex := Atom(Final)

  /** The tree makedfa builds: ALL* r FINAL. */
  function Full(r: Regex): Regex {
    Cat(Cat(Star(Atom(All)), r), FINAL)
  }

  function Automaton(r: Regex): (t: Table)
    ensures |t| == Size(r) + 2
  {
    assert Size(Star(Atom(All))) == 1 && Size(Cat(Star(Atom(All)), r)) == 1 + Size(r);
    Rows(Full(r), 0, Done)
  }

  /** The words that may come after a subtree with continuation `k`. */
  ghost predicate After(k: Kont, w: Word) {
    match k
    case Done => w == []
    case Loop(body, _, up) => exists i :: 0 <= i <= |w| && InStar(body, w[..i]) && After(up, w[i..])
    case Before(next, _, up) =>
      if next == FINAL then w == []
      else exists i :: 0 <= i <= |w| && In(next, w[..i]) && After(up, w[i..])
  }

  /** The words that may be read from position `p` on, the symbol of `p` included. */
  ghost predicate From(t: Table, p: Position, w: Word)
    requires 0 <= p < |t|
  {
    if t[p].leaf.Final? then w == []
    else w != [] && Consumes(t[p].leaf, w[0]) && After(t[p].kont, w[1..])
  }

  ghost predicate FromSome(t: Table, s: set<Position>, w: Word) {
    exists p :: p in s && 0 <= p < |t| && From(t, p, w)
  }

  ghost predicate InStates(t: Table, s: set<Position>) {
    forall p :: p in s ==> 0 <= p < |t|
  }

  /** The leaves of `r`, numbered from `b`, have the rows that `k` calls for. */
  ghost predicate Holds(t: Table, r: Regex, b: Position, k: Kont) {
    match r
    case Atom(leaf) => 0 <= b < |t| && t[b] == Row(leaf, k)
    case Star(body) => Holds(t, body, b, Loop(body, b, k))
    case Plus(body) => Holds(t, body, b, Loop(body, b, k))
    case Quest(body) => Holds(t, body, b, k)
    case Cat(left, right) => Holds(t, left, b, Before(right, b + Size(left), k)) && Holds(t, right, b + Size(left), k)
    case Or(left, right) => Holds(t, left, b, k) && Holds(t, right, b + Size(left), k)
  }

  /** Every tree named in `k` has its rows in `t`, and `k` cannot run out without passing FINAL,
      which is the last row. */
  ghost predicate Placed(t: Table, k: Kont) {
    match k
    case Done => false
    case Loop(body, b, up) => Holds(t, body, b, k) && NoFinal(body) && Placed(t, up)
    case Before(next, b, up) =>
      Holds(t, next, b, up) &&
      if next == FINAL then b == |t| - 1 else NoFinal(next) && Placed(t, up)
  }

  // --- first and nullable against the language ---

  lemma {:induction false} NullableIffEmptyWord(r: Regex)
    requires NoFinal(r)
    ensures Nullable(r) <==> In(r, [])
  {
    match r
    case Atom(_) =>
    case Star(_) =>
    case Plus(body) =>
      NullableIffEmptyWord(body);
      if Nullable(r) {
        var e: Word := [];
        assert e[..0] == e && e[0..] == e;
      }
    case Quest(_) =>
    case Cat(left, right) =>
      NullableIffEmptyWord(left);
      NullableIffEmptyWord(right);
      if Nullable(r) {
        var e: Word := [];
        assert e[..0] == e && e[0..] == e;
      }
    case Or(left, right) =>
      NullableIffEmptyWord(left);
      NullableIffEmptyWord(right);
  }

  lemma {:induction false} FirstInRange(r: Regex, b: Position)
    ensures forall p :: p in First(r, b) ==> b <= p < b + Size(r)
  {
    match r
    case Atom(_) =>
    case Star(body) => FirstInRange(body, b);
    case Plus(body) => FirstInRange(body, b);
    case Quest(body) => FirstInRange(body, b);
    case Cat(left, right) => FirstInRange(left, b); FirstInRange(right, b + Size(left));
    case Or(left, right) => FirstInRange(left, b); FirstInRange(right, b + Size(left));
  }

  lemma {:induction false} HoldsInTable(t: Table, r: Regex, b: Position, k: Kont)
    requires Holds(t, r, b, k)
    ensures 0 <= b && b + Size(r) <= |t|
  {
    match r
    case Atom(_) =>
    case Star(body) => HoldsInTable(t, body, b, Loop(body, b, k));
    case Plus(body) => HoldsInTable(t, body, b, Loop(body, b, k));
    case Quest(body) => HoldsInTable(t, body, b, k);
    case Cat(left, right) => HoldsInTable(t, left, b, Before(right, b + Size(left), k));
        HoldsInTable(t, right, b + Size(left), k);
    case Or(left, right) => HoldsInTable(t, left, b, k); HoldsInTable(t, right, b + Size(left), k);
  }

  lemma {:induction false} FollowInTable(t: Table, k: Kont)
    requires Placed(t, k)
    ensures InStates(t, Follow(k))
  {
    match k
    case Loop(body, b, up) => FirstInRange(body, b); HoldsInTable(t, body, b, k); FollowInTable(t, up);
    case Before(next, b, up) => FirstInRange(next, b); HoldsInTable(t, next, b, up);
        if next != FINAL { FollowInTable(t, up); }
  }

  lemma {:induction false} RowsHold(pre: Table, r: Regex, k: Kont, post: Table)
    ensures Holds(pre + Rows(r, |pre|, k) + post, r, |pre|, k)
    decreases r, 1
  {
    var t := pre + Rows(r, |pre|, k) + post;
    match r
    case Atom(_) =>
    case Star(body) => RowsHold(pre, body, Loop(body, |pre|, k), post);
    case Plus(body) => RowsHold(pre, body, Loop(body, |pre|, k), post);
    case Quest(body) => RowsHold(pre, body, k, post);
    case Cat(left, right) => RowsHoldPair(r, pre, left, right, Before(right, |pre| + Size(left), k), k, post);
    case Or(left, right) => RowsHoldPair(r, pre, left, right, k, k, post);
  }

  lemma {:induction false} RowsHoldPair(whole: Regex, pre: Table, l: Regex, r: Regex, kl: Kont, kr: Kont, post: Table)
    requires whole == Cat(l, r) || whole == Or(l, r)
    ensures var t := pre + (Rows(l, |pre|, kl) + Rows(r, |pre| + Size(l), kr)) + post;
            Holds(t, l, |pre|, kl) && Holds(t, r, |pre| + Size(l), kr)
    decreases whole, 0
  {
    var x, y := Rows(l, |pre|, kl), Rows(r, |pre| + Size(l), kr);
    RowsHold(pre, l, kl, y + post);
    assert pre + x + (y + post) == pre + (x + y) + post;
    RowsHold(pre + x, r, kr, post);
    assert pre + x + y + post == pre + (x + y) + post;
  }

  lemma AfterLoop(body: Regex, b: Position, up: Kont, x: Word, y: Word)
    requires InStar(body, x) && After(up, y)
    ensures After(Loop(body, b, up), x + y)
  {
    var w := x + y;
    assert w[..|x|] == x && w[|x|..] == y;
  }

  lemma AfterBefore(next: Regex, b: Position, up: Kont, x: Word, y: Word)
    requires next != FINAL && In(next, x) && After(up, y)
    ensures After(Before(next, b, up), x + y)
  {
    var w := x + y;
    assert w[..|x|] == x && w[|x|..] == y;
  }

  /** A non-empty word of `r` starts at one of its first positions. */
  lemma {:induction false} FirstComplete(t: Table, r: Regex, b: Position, k: Kont, a: Word, z: Word)
    requires NoFinal(r) && Holds(t, r, b, k)
    requires a != [] && In(r, a) && After(k, z)
    ensures FromSome(t, First(r, b), a + z)
    decreases r, 1
  {
    match r
    case Atom(leaf) =>
      assert (a + z)[1..] == z;
      assert From(t, b, a + z);
    case Star(body) =>
      var x, y := SplitStar(body, a);
      FirstRound(t, body, b, k, x, y, z);
      Assoc(x, y, z);
    case Plus(body) =>
      var x, y := SplitPlus(body, a);
      FirstRound(t, body, b, k, x, y, z);
      Assoc(x, y, z);
    case Quest(body) => FirstComplete(t, body, b, k, a, z);
    case Cat(left, right) =>
      var x, y := SplitCat(left, right, a);
      FirstCompleteCat(t, left, right, b, k, x, y, z);
      Assoc(x, y, z);
    case Or(left, right) =>
      if In(left, a) {
        FirstComplete(t, left, b, k, a, z);
      } else {
        FirstComplete(t, right, b + Size(left), k, a, z);
      }
  }

  lemma {:induction false} FirstCompleteCat(t: Table, left: Regex, right: Regex, b: Position, k: Kont, x: Word,
      y: Word, z: Word)
    requires NoFinal(left) && NoFinal(right)
    requires Holds(t, left, b, Before(right, b + Size(left), k)) && Holds(t, right, b + Size(left), k)
    requires x + y != [] && In(left, x) && In(right, y) && After(k, z)
    ensures FromSome(t, First(Cat(left, right), b), x + (y + z))
    decreases Cat(left, right), 0
  {
    if x == [] {
      NullableIffEmptyWord(left);
      FirstComplete(t, right, b + Size(left), k, y, z);
      assert x + (y + z) == y + z;
    } else {
      AfterBefore(right, b + Size(left), k, y, z);
      FirstComplete(t, left, b, Before(right, b + Size(left), k), x, y + z);
    }
  }

  /** The same for a closure, after a first piece `x` that may be empty. */
  lemma {:induction false} FirstRound(t: Table, body: Regex, b: Position, k: Kont, x: Word, y: Word, z: Word)
    requires NoFinal(body) && Holds(t, body, b, Loop(body, b, k))
    requires x + y != [] && In(body, x) && InStar(body, y) && After(k, z)
    ensures FromSome(t, First(body, b), x + (y + z))
    decreases body, 2, |y|
  {
    hide NoFinal, Holds, First, FromSome, After, In, InStar;
    if x == [] {
      var y1, y2 := SplitStar(body, y);
      FirstRound(t, body, b, k, y1, y2, z);
      assert y1 + (y2 + z) == x + (y + z);
    } else {
      AfterLoop(body, b, k, y, z);
      FirstComplete(t, body, b, Loop(body, b, k), x, y + z);
    }
  }

  lemma SliceJoin(w: Word, j: nat, n: nat)
    requires j + n <= |w|
    ensures w[..j] + w[j..][..n] == w[..j + n] && w[j..][n..] == w[j + n..]
    ensures w[..j + n][..j] == w[..j] && w[..j + n][j..] == w[j..][..n]
  {
  }

  lemma AfterNext(left: Regex, right: Regex, b: Position, k: Kont, w: Word, j: nat) returns (n: nat)
    requires j <= |w| && NoFinal(right) && In(left, w[..j]) && After(Before(right, b, k), w[j..])
    ensures j + n <= |w| && In(Cat(left, right), w[..j + n]) && After(k, w[j + n..])
  {
    hide After, In;
    FinalIsFinal();
    n := BeforeSplits(right, b, k, w[j..]);
    SliceJoin(w, j, n);
    CatIntro(left, right, w[..j], w[j..][..n]);
  }

  /** A word that starts at a first position of `r` is a word of `r` and then a word of `k`. */
  lemma {:induction false} FirstSound(t: Table, r: Regex, b: Position, k: Kont, p: Position, w: Word) returns (i: nat)
    requires NoFinal(r) && Holds(t, r, b, k)
    requires p in First(r, b) && 0 <= p < |t| && From(t, p, w)
    ensures i <= |w| && In(r, w[..i]) && After(k, w[i..])
    decreases r, 0
  {
    hide From, After, In, InStar;
    match r
    case Atom(leaf) =>
      i := 1;
      AtomSound(t, leaf, k, p, w);
    case Star(body) =>
      i := RoundsSound(t, body, b, k, p, w);
      var x, y := SplitPlus(body, w[..i]);
      StarPrepend(body, x, y);
      InStarIs(body, w[..i]);
    case Plus(body) => i := RoundsSound(t, body, b, k, p, w);
    case Quest(body) =>
      i := FirstSound(t, body, b, k, p, w);
      InChoice(body, body, w[..i]);
    case Cat(left, right) =>
      if p in First(left, b) {
        var j := FirstSound(t, left, b, Before(right, b + Size(left), k), p, w);
        var n := AfterNext(left, right, b + Size(left), k, w, j);
        i := j + n;
      } else {
        i := FirstSound(t, right, b + Size(left), k, p, w);
        NullableIffEmptyWord(left);
        CatIntro(left, right, [], w[..i]);
        assert [] + w[..i] == w[..i];
      }
    case Or(left, right) =>
      if p in First(left, b) {
        i := FirstSound(t, left, b, k, p, w);
      } else {
        i := FirstSound(t, right, b + Size(left), k, p, w);
      }
      InChoice(left, right, w[..i]);
  }

  lemma AtomSound(t: Table, leaf: Leaf, k: Kont, p: Position, w: Word)
    requires !leaf.Final? && 0 <= p < |t| && t[p] == Row(leaf, k) && From(t, p, w)
    ensures w != [] && In(Atom(leaf), w[..1]) && After(k, w[1..])
  {
    hide After;
  }

  lemma InStarIs(body: Regex, w: Word)
    ensures In(Star(body), w) <==> InStar(body, w)
  {
    hide InStar;
  }

  lemma InChoice(left: Regex, right: Regex, w: Word)
    ensures In(left, w) ==> In(Quest(left), w)
    ensures In(Or(left, right), w) <==> In(left, w) || In(right, w)
  {
    hide InStar;
  }

  lemma FinalIsFinal()
    ensures !NoFinal(FINAL)
  {
  }

  lemma {:induction false} RoundsSound(t: Table, body: Regex, b: Position, k: Kont, p: Position, w: Word)
      returns (i: nat)
    requires NoFinal(body) && Holds(t, body, b, Loop(body, b, k))
    requires p in First(body, b) && 0 <= p < |t| && From(t, p, w)
    ensures i <= |w| && In(Plus(body), w[..i]) && After(k, w[i..])
    decreases body, 1
  {
    hide NoFinal, Holds, First, From, After, In, InStar;
    var j := FirstSound(t, body, b, Loop(body, b, k), p, w);
    i := RoundsFrom(body, b, k, w, j);
  }

  /** A word of the body and then more of them, and then what may come after. */
  lemma RoundsFrom(body: Regex, b: Position, k: Kont, w: Word, j: nat) returns (i: nat)
    requires j <= |w| && In(body, w[..j]) && After(Loop(body, b, k), w[j..])
    ensures i <= |w| && In(Plus(body), w[..i]) && After(k, w[i..])
  {
    hide After, In, InStar;
    var n := LoopSplits(body, b, k, w[j..]);
    PlusIntro(body, w[..j], w[j..][..n]);
    SliceJoin(w, j, n);
    i := j + n;
  }

  lemma LoopSplits(body: Regex, b: Position, up: Kont, w: Word) returns (n: nat)
    requires After(Loop(body, b, up), w)
    ensures n <= |w| && InStar(body, w[..n]) && After(up, w[n..])
  {
    n :| 0 <= n <= |w| && InStar(body, w[..n]) && After(up, w[n..]);
  }

  lemma PlusIntro(body: Regex, x: Word, y: Word)
    requires In(body, x) && InStar(body, y)
    ensures In(Plus(body), x + y)
  {
    hide InStar;
    var w := x + y;
    assert w[..|x|] == x && w[|x|..] == y;
  }

  /** The follow set of a continuation starts exactly the words of the continuation. */
  lemma {:induction false} FollowCorrect(t: Table, k: Kont, w: Word)
    requires Placed(t, k)
    ensures After(k, w) <==> FromSome(t, Follow(k), w)
    decreases k
  {
    FollowInTable(t, k);
    if After(k, w) { FollowComplete(t, k, w); }
    if FromSome(t, Follow(k), w) { FollowSound(t, k, w); }
  }

  lemma {:induction false} FollowComplete(t: Table, k: Kont, w: Word)
    requires Placed(t, k) && After(k, w)
    ensures FromSome(t, Follow(k), w)
    decreases k, 0
  {
    hide NoFinal, Holds, First, From, FromSome, After, In, InStar;
    match k
    case Done => NothingPlaced(t);
    case Loop(body, b, up) =>
      var i := LoopSplits(body, b, up, w);
      assert w[..i] + w[i..] == w;
      if i == 0 {
        FollowComplete(t, up, w);
        FromMore(t, Follow(up), Follow(k), w);
      } else {
        var x, y := SplitStar(body, w[..i]);
        FirstRound(t, body, b, up, x, y, w[i..]);
        Assoc(x, y, w[i..]);
        FromMore(t, First(body, b), Follow(k), w);
      }
    case Before(next, b, up) =>
      if next == FINAL {
        FromFinal(t, b, up, w);
      } else {
        var i := BeforeSplits(next, b, up, w);
        assert w[..i] + w[i..] == w;
        if i == 0 {
          NullableIffEmptyWord(next);
          FollowComplete(t, up, w);
          FromMore(t, Follow(up), Follow(k), w);
        } else {
          FirstComplete(t, next, b, up, w[..i], w[i..]);
          FromMore(t, First(next, b), Follow(k), w);
        }
      }
  }

  lemma NothingPlaced(t: Table)
    ensures !Placed(t, Done)
  {
  }

  lemma BeforeSplits(next: Regex, b: Position, up: Kont, w: Word) returns (n: nat)
    requires next != FINAL && After(Before(next, b, up), w)
    ensures n <= |w| && In(next, w[..n]) && After(up, w[n..])
  {
    n :| 0 <= n <= |w| && In(next, w[..n]) && After(up, w[n..]);
  }

  lemma FromMore(t: Table, s: set<Position>, more: set<Position>, w: Word)
    requires FromSome(t, s, w) && s <= more
    ensures FromSome(t, more, w)
  {
    hide From;
  }

  lemma FromFinal(t: Table, b: Position, up: Kont, w: Word)
    requires Placed(t, Before(FINAL, b, up)) && After(Before(FINAL, b, up), w)
    ensures FromSome(t, Follow(Before(FINAL, b, up)), w)
  {
    assert From(t, b, w);
  }

  lemma {:induction false} FollowSound(t: Table, k: Kont, w: Word)
    requires Placed(t, k) && FromSome(t, Follow(k), w)
    ensures After(k, w)
    decreases k, 0
  {
    var p :| p in Follow(k) && 0 <= p < |t| && From(t, p, w);
    match k
    case Loop(body, b, up) =>
      if p in First(body, b) {
        var i := RoundsSound(t, body, b, up, p, w);
        var x, y := SplitPlus(body, w[..i]);
        StarPrepend(body, x, y);
      } else {
        FollowSound(t, up, w);
        assert w[..0] == [] && w[0..] == w;
      }
    case Before(next, b, up) =>
      if next == FINAL {
      } else if p in First(next, b) {
        var i := FirstSound(t, next, b, up, p, w);
      } else {
        FollowSound(t, up, w);
        NullableIffEmptyWord(next);
        assert w[..0] == [] && w[0..] == w;
      }
  }
}
