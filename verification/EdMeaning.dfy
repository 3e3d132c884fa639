/** What the patterns of head_m88k/regexp.h denote, in terms of characters and places only: each atom, each
    count, one after the other, a group and its text once more; and what a search for a plain word finds. */
module EdMeaning {
  import opened EdProgram
  import opened EdParse
  import opened EdCompile
  import opened EdMatcher
  import opened EdPattern
  import opened EdWriting
  import opened EdGreedy
  import opened EdGroups
  import opened EdSearch

  // --- what an atom takes, and how often ---

  /** One atom denotes one character: itself; any; one that is listed or lies in a range, or one that does
      not; never the NUL that ends the text. */
  lemma AtomTakes(a: Atom, t: seq<int>, x: Place, y: Place)
    requires GoodAtom(a) && IsText(t)
    ensures Denotes([Rep(a, Just)], false, t, x, y) <==>
            && 0 <= x.at < |t| && y.at == x.at + 1 && y.groups == x.groups && t[x.at] != 0
            && (a.Char? ==> t[x.at] == a.c)
            && (a.Set? ==> a.neg != Listed(a.members, t[x.at]))
  {
    hide IsText;
    var rest := [Rep(a, Just)][1..];
    assert rest == [];
    OneTime(a, t, x, y);
    if 0 <= x.at < |t| {
      AtomMeans(a, 0);
      if a.Set? { ListedMembers(a.members, t[x.at]); }
    }
  }

  ghost predicate Listed(ms: seq<Member>, c: int) {
    || (exists k :: 0 <= k < |ms| && ms[k] == One(c))
    || (exists k :: 0 <= k < |ms| && ms[k].Span? && ms[k].a <= c <= ms[k].b)
  }

  lemma ListedMembers(ms: seq<Member>, c: int)
    ensures InMembers(ms, c) <==> Listed(ms, c)
  {
    if k :| 0 <= k < |ms| && ms[k] == One(c) { assert InMember(ms[k], c); }
    if k :| 0 <= k < |ms| && ms[k].Span? && ms[k].a <= c <= ms[k].b { assert InMember(ms[k], c); }
  }

  lemma OneTime(a: Atom, t: seq<int>, x: Place, y: Place)
    ensures Denotes([Rep(a, Just)], false, t, x, y) <==>
              0 <= x.at < |t| && AtomFits(a, t[x.at]) && y == Place(x.at + 1, x.groups)
  {
    hide AtomFits;
    var rest := [Rep(a, Just)][1..];
    assert rest == [];
    assert x.Ahead(1) == Place(x.at + 1, x.groups);
    if 0 <= x.at < |t| && AtomFits(a, t[x.at]) {
      assert Allows(Just, 1) && AllAtoms(a, t, x.at, 1);
    }
  }

  /** A counted atom denotes the atom as many times in a row as the count says: without an upper bound, or
      with 255 as one, no more than 20000 times above the lower bound. */
  lemma CountTakes(a: Atom, n: Count, t: seq<int>, x: Place, y: Place)
    requires GoodAtom(a) && GoodCount(n) && IsText(t) && 0 <= x.at <= |t|
    ensures Denotes([Rep(a, n)], false, t, x, y) <==>
            && y.groups == x.groups && x.at <= y.at <= |t|
            && (forall i :: x.at <= i < y.at ==> AtomAt(a, t, i, x.groups))
            && match n
               case Just => y.at - x.at == 1
               case Star => true
               case Exactly(m) => if m < 255 then y.at - x.at == m else 255 <= y.at - x.at <= 20255
               case AtLeast(m) => m <= y.at - x.at <= m + 20000
               case UpTo(m, k) => m <= y.at - x.at <= if k < 255 then k else m + 20000
  {
    hide AtomFits, IsText, GoodAtom;
    var rest := [Rep(a, n)][1..];
    assert rest == [];
    var k := y.at - x.at;
    forall i | 0 <= i < |t| ensures AtomAt(a, t, i, x.groups) <==> AtomFits(a, t[i]) {
      OneTime(a, t, Place(i, x.groups), Place(i + 1, x.groups));
    }
    if Denotes([Rep(a, n)], false, t, x, y) {
      var m :| Allows(n, m) && AllAtoms(a, t, x.at, m) && Denotes(rest, false, t, x.Ahead(m), y);
      assert m == k;
    }
    if y.groups == x.groups { assert x.Ahead(k) == y; }
  }

  /** The atom denotes the character at `i`. */
  ghost predicate AtomAt(a: Atom, t: seq<int>, i: int, g: Groups) {
    Denotes([Rep(a, Just)], false, t, Place(i, g), Place(i + 1, g))
  }

  // --- one after the other ---

  ghost predicate Splits(a: seq<Elem>, b: seq<Elem>, dollar: bool, t: seq<int>, x: Place, z: Place) {
    exists y :: Denotes(a, false, t, x, y) && Denotes(b, dollar, t, y, z)
  }

  /** Elements and more elements denote a piece of the first and then a piece of the others. */
  lemma {:induction false} ThenDenotes(a: seq<Elem>, b: seq<Elem>, dollar: bool, t: seq<int>, x: Place, z: Place)
    ensures Denotes(a + b, dollar, t, x, z) <==> Splits(a, b, dollar, t, x, z)
    decreases |a|
  {
    hide Allows, AllAtoms, Repeats, GroupLength;
    if a == [] {
      assert a + b == b;
      assert forall y :: Denotes(a, false, t, x, y) <==> y == x;
    } else {
      var rest := a[1..];
      assert (a + b)[1..] == rest + b;
      match a[0]
      case Rep(atom, n) =>
        forall k
          ensures Denotes(rest + b, dollar, t, x.Ahead(k), z) <==>
                  Splits(rest, b, dollar, t, x.Ahead(k), z)
        {
          ThenDenotes(rest, b, dollar, t, x.Ahead(k), z);
        }
        RepThen(a, b, dollar, t, x, z);
      case Open(n) => ThenDenotes(rest, b, dollar, t, x.Entered(n), z);
      case Close(n) => ThenDenotes(rest, b, dollar, t, x.Left(n), z);
      case Ref(n) => ThenDenotes(rest, b, dollar, t, x.Ahead(GroupLength(x.groups, n)), z);
    }
  }

  lemma RepThen(a: seq<Elem>, b: seq<Elem>, dollar: bool, t: seq<int>, x: Place, z: Place)
    requires a != [] && a[0].Rep? && (a + b)[1..] == a[1..] + b
    requires forall k :: Denotes(a[1..] + b, dollar, t, x.Ahead(k), z) <==>
               Splits(a[1..], b, dollar, t, x.Ahead(k), z)
    ensures Denotes(a + b, dollar, t, x, z) <==> Splits(a, b, dollar, t, x, z)
  {
    hide Allows, AllAtoms, Repeats, GroupLength;
    var rest := a[1..];
    if Denotes(a + b, dollar, t, x, z) {
      var k :| Allows(a[0].count, k) && AllAtoms(a[0].atom, t, x.at, k)
          && Denotes((a + b)[1..], dollar, t, x.Ahead(k), z);
      var y :| Denotes(rest, false, t, x.Ahead(k), y) && Denotes(b, dollar, t, y, z);
      assert Denotes(a, false, t, x, y);
    }
    if y :| Denotes(a, false, t, x, y) && Denotes(b, dollar, t, y, z) {
      var k :| Allows(a[0].count, k) && AllAtoms(a[0].atom, t, x.at, k) && Denotes(rest, false, t, x.Ahead(k), y);
      assert Denotes((a + b)[1..], dollar, t, x.Ahead(k), z);
    }
  }

  /** `$` denotes the place of the NUL. */
  lemma DollarTakes(dollar: bool, t: seq<int>, x: Place, y: Place)
    requires IsText(t)
    ensures Denotes([], dollar, t, x, y) <==> y == x && (dollar ==> x.at == |t| - 1)
  {
  }

  /** Of all the pieces that the first of the elements denotes here and that leave the others a match, it takes
      the longest. */
  lemma FirstPrefers(e: Elem, rest: seq<Elem>, dollar: bool, t: seq<int>, x: Place, y: Place)
    requires e.Rep?
    ensures Preferred([e] + rest, dollar, t, x, y) <==> exists v :: Foremost(e, rest, dollar, t, x, v, y)
  {
    hide Denotes, Allows, AllAtoms;
    var elems := [e] + rest;
    assert elems[0] == e && elems[1..] == rest;
    forall z
      ensures Denotes([e], false, t, x, z) <==>
                exists k :: z == x.Ahead(k) && Allows(e.count, k) && AllAtoms(e.atom, t, x.at, k)
    {
      OneElem(e, t, x, z);
    }
    if Preferred(elems, dollar, t, x, y) {
      var k :| Takes(elems, dollar, t, x, k) && Preferred(elems[1..], dollar, t, x.Ahead(k), y);
      assert Foremost(e, rest, dollar, t, x, x.Ahead(k), y);
    }
    if v :| Foremost(e, rest, dollar, t, x, v, y) {
      var k :| v == x.Ahead(k) && Allows(e.count, k) && AllAtoms(e.atom, t, x.at, k);
      forall m | m > k && Allows(e.count, m) && AllAtoms(e.atom, t, x.at, m)
        ensures Nothing(rest, dollar, t, x.Ahead(m))
      {
        assert Denotes([e], false, t, x, x.Ahead(m));
      }
      assert Takes(elems, dollar, t, x, k);
    }
  }

  ghost predicate Foremost(e: Elem, rest: seq<Elem>, dollar: bool, t: seq<int>, x: Place, v: Place, y: Place) {
    && Denotes([e], false, t, x, v) && Preferred(rest, dollar, t, v, y)
    && forall z :: Denotes([e], false, t, x, z) && (exists w :: Denotes(rest, dollar, t, z, w)) ==> z.at <= v.at
  }

  lemma OneElem(e: Elem, t: seq<int>, x: Place, z: Place)
    requires e.Rep?
    ensures Denotes([e], false, t, x, z) <==>
              exists k :: z == x.Ahead(k) && Allows(e.count, k) && AllAtoms(e.atom, t, x.at, k)
  {
    hide Allows, AllAtoms;
    var rest := [e][1..];
    assert rest == [];
    forall k ensures Denotes(rest, false, t, x.Ahead(k), z) <==> z == x.Ahead(k) {}
    if k :| z == x.Ahead(k) && Allows(e.count, k) && AllAtoms(e.atom, t, x.at, k) {
      assert Denotes(rest, false, t, x.Ahead(k), z);
    }
  }

  // --- a group and its text once more ---

  /** No element begins or ends the group. */
  predicate Leaves(elems: seq<Elem>, n: int) {
    forall k :: 0 <= k < |elems| ==> elems[k] != Open(n) && elems[k] != Close(n)
  }

  /** Elements go forward, and keep the groups they do not have. */
  lemma {:induction false} DenotesKeeps(elems: seq<Elem>, dollar: bool, t: seq<int>, x: Place, y: Place, n: int)
    requires Denotes(elems, dollar, t, x, y) && Leaves(elems, n) && 0 <= n < |x.groups.starts|
    ensures x.at <= y.at && |y.groups.starts| == |x.groups.starts| && |y.groups.ends| == |x.groups.ends|
    ensures y.groups.starts[n] == x.groups.starts[n]
    ensures x.at <= |t| ==> y.at <= |t|
    decreases |elems|
  {
    hide Allows;
    if elems != [] {
      var rest := elems[1..];
      assert Leaves(rest, n) by { forall k | 0 <= k < |rest| ensures rest[k] == elems[k + 1] {} }
      match elems[0]
      case Rep(a, c) =>
        var k :| Allows(c, k) && AllAtoms(a, t, x.at, k) && Denotes(rest, dollar, t, x.Ahead(k), y);
        DenotesKeeps(rest, dollar, t, x.Ahead(k), y, n);
      case Open(g) => DenotesKeeps(rest, dollar, t, x.Entered(g), y, n);
      case Close(g) => DenotesKeeps(rest, dollar, t, x.Left(g), y, n);
      case Ref(g) => DenotesKeeps(rest, dollar, t, x.Ahead(GroupLength(x.groups, g)), y, n);
    }
  }

  /** A group and a back-reference to it denote exactly a piece of the group's elements, and the same
      characters once more. */
  lemma CopyDenotes(body: seq<Elem>, n: int, t: seq<int>, x: Place, y: Place)
    requires Leaves(body, n) && 0 <= n < |x.groups.starts| && n < |x.groups.ends| && 0 <= x.at <= |t|
    ensures Denotes([Open(n)] + body + [Close(n), Ref(n)], false, t, x, y) <==>
              exists z :: Copied(body, n, t, x, z, y)
  {
    hide Denotes;
    var e := Place(x.at, x.groups.(starts := x.groups.starts[n := x.at]));
    var tail := [Close(n), Ref(n)];
    OpenThen(body, n, tail, t, x, y);
    ThenDenotes(body, tail, false, t, e, y);
    forall z ensures Denotes(body, false, t, e, z) && Denotes(tail, false, t, z, y) <==> Copied(body, n, t, x, z, y) {
      if Denotes(body, false, t, e, z) {
        DenotesKeeps(body, false, t, e, z, n);
        CloseAndCopy(n, t, z, y);
      }
    }
    if z :| Copied(body, n, t, x, z, y) {
      assert Denotes(body, false, t, e, z) && Denotes(tail, false, t, z, y);
    }
  }

  /** From `x` to `z` stands a piece of the elements, and from there to `y` its characters once more. */
  ghost predicate Copied(body: seq<Elem>, n: int, t: seq<int>, x: Place, z: Place, y: Place)
    requires 0 <= n < |x.groups.starts|
  {
    && Denotes(body, false, t, Place(x.at, x.groups.(starts := x.groups.starts[n := x.at])), z)
    && 0 <= x.at <= z.at <= y.at <= |t| && y.at - z.at == z.at - x.at && t[z.at..y.at] == t[x.at..z.at]
    && n < |z.groups.ends| && y.groups == z.groups.(ends := z.groups.ends[n := z.at])
  }

  lemma OpenThen(body: seq<Elem>, n: int, tail: seq<Elem>, t: seq<int>, x: Place, y: Place)
    requires 0 <= n < |x.groups.starts|
    ensures Denotes([Open(n)] + body + tail, false, t, x, y) <==>
              Denotes(body + tail, false, t, Place(x.at, x.groups.(starts := x.groups.starts[n := x.at])), y)
  {
    assert ([Open(n)] + body + tail)[1..] == body + tail;
  }

  lemma CloseAndCopy(n: int, t: seq<int>, z: Place, y: Place)
    requires 0 <= n < |z.groups.starts| && n < |z.groups.ends| && 0 <= z.groups.starts[n] <= z.at <= |t|
    ensures var b := z.groups.starts[n];
            Denotes([Close(n), Ref(n)], false, t, z, y) <==>
            && y.at == z.at + (z.at - b) <= |t| && t[z.at..y.at] == t[b..z.at]
            && y.groups == z.groups.(ends := z.groups.ends[n := z.at])
  {
    var tail := [Close(n), Ref(n)];
    assert tail[1..] == [Ref(n)] && [Ref(n)][1..] == [];
    var w := z.Left(n);
    assert w == Place(z.at, z.groups.(ends := z.groups.ends[n := z.at]));
    var b := z.groups.starts[n];
    assert GroupLength(w.groups, n) == z.at - b;
    assert Denotes(tail, false, t, z, y) <==> Denotes([Ref(n)], false, t, w, y);
    assert Denotes([Ref(n)], false, t, w, y) <==> Repeats(t, w, n) && y == w.Ahead(z.at - b);
  }

  // --- plain words ---

  function WordElems(w: seq<int>): seq<Elem> {
    if w == [] then [] else [Rep(Char(w[0]), Just)] + WordElems(w[1..])
  }

  function WordPattern(anchored: bool, w: seq<int>, dollar: bool): Pattern { Pattern(anchored, WordElems(w), dollar) }

  ghost predicate Stands(w: seq<int>, t: seq<int>, i: int) {
    0 <= i && i + |w| <= |t| && t[i..i + |w|] == w
  }

  lemma {:induction false} WordDenotes(w: seq<int>, t: seq<int>, x: Place, y: Place)
    requires 0 <= x.at <= |t|
    ensures Denotes(WordElems(w), false, t, x, y) <==> Stands(w, t, x.at) && y == Place(x.at + |w|, x.groups)
    decreases |w|
  {
    if w == [] {
    } else {
      var elems, rest := WordElems(w), WordElems(w[1..]);
      assert elems == [Rep(Char(w[0]), Just)] + rest;
      ThenDenotes([Rep(Char(w[0]), Just)], rest, false, t, x, y);
      forall z
        ensures Denotes([Rep(Char(w[0]), Just)], false, t, x, z) <==>
                  x.at < |t| && t[x.at] == w[0] && z == Place(x.at + 1, x.groups)
      {
        OneTime(Char(w[0]), t, x, z);
      }
      if x.at < |t| {
        WordDenotes(w[1..], t, Place(x.at + 1, x.groups), y);
        StandsCons(w, t, x.at);
      }
    }
  }

  lemma StandsCons(w: seq<int>, t: seq<int>, i: int)
    requires w != [] && 0 <= i < |t|
    ensures Stands(w, t, i) <==> t[i] == w[0] && Stands(w[1..], t, i + 1)
  {
    if Stands(w, t, i) {
      assert t[i..i + |w|][0] == t[i];
      assert t[i..i + |w|][1..] == t[i + 1..i + |w|];
    }
    if t[i] == w[0] && Stands(w[1..], t, i + 1) {
      assert t[i..i + |w|] == [t[i]] + t[i + 1..i + |w|];
      assert w == [w[0]] + w[1..];
    }
  }

  lemma {:induction false} WordGood(w: seq<int>, dollar: bool)
    requires forall k :: 0 <= k < |w| ==> 0 < w[k] < 256
    ensures Good(WordElems(w), [], 0) && RefsClosed(WordElems(w), [])
    ensures |Flatten(Code(WordElems(w), dollar))| == 2 * |w| + if dollar then 1 else 0
    decreases |w|
  {
    if w != [] {
      WordGood(w[1..], dollar);
      assert WordElems(w)[1..] == WordElems(w[1..]);
      FlattenCons(Item(CCHR, [w[0]], []), Code(WordElems(w[1..]), dollar));
    } else if dollar {
      FlattenCons(Item(CDOL, [], []), []);
      assert Code(WordElems(w), dollar) == [Item(CDOL, [], [])] + [];
    }
  }

  /** The word stands at `i`; with a `$` after it nothing but the NUL follows, and with a `^` before it `i` is
      the beginning. */
  ghost predicate Fitting(anchored: bool, w: seq<int>, dollar: bool, t: seq<int>, i: int) {
    Stands(w, t, i) && (dollar ==> i + |w| == |t| - 1) && (anchored ==> i == 0)
  }

  lemma WordAndDollar(w: seq<int>, dollar: bool, t: seq<int>, x: Place, y: Place)
    requires 0 <= x.at <= |t| && IsText(t)
    ensures Denotes(WordElems(w), dollar, t, x, y) <==>
              Stands(w, t, x.at) && y == Place(x.at + |w|, x.groups) && (dollar ==> x.at + |w| == |t| - 1)
  {
    hide IsText, Stands;
    ThenDenotes(WordElems(w), [], dollar, t, x, y);
    assert WordElems(w) + [] == WordElems(w);
    forall z
      ensures Denotes(WordElems(w), false, t, x, z) <==> Stands(w, t, x.at) && z == Place(x.at + |w|, x.groups)
      ensures Denotes([], dollar, t, z, y) <==> y == z && (dollar ==> z.at == |t| - 1)
    {
      WordDenotes(w, t, x, z);
      DollarTakes(dollar, t, z, y);
    }
  }

  /** A search for a word, in whatever way it is written, finds the first place where the word stands; with `^`
      before it only the beginning of the text, and with `$` after it only its end. */
  method SearchWord(instring: seq<int>, eof: int, sed: bool, buf: array<int>, endbuf: int, text: seq<int>,
      ghost anchored: bool, ghost w: seq<int>, ghost dollar: bool, ghost ways: seq<bool>, ghost newline: bool)
    returns (found: bool, loc1: int, loc2: int)
    requires (w != [] || anchored || dollar) && (forall k :: 0 <= k < |w| ==> 0 < w[k] < 256) && GoodEof(eof)
    requires IsWriting(WordPattern(anchored, w, dollar), ways, eof) && (newline ==> !sed)
    requires IsPattern(instring) && Writing(WordPattern(anchored, w, dollar), ways, newline, eof) <= instring
    requires 2 * |w| + 34 < endbuf < buf.Length && IsText(text)
    modifies buf
    ensures found <==> exists i :: Fitting(anchored, w, dollar, text, i)
    ensures found ==> Fitting(anchored, w, dollar, text, loc1) && loc2 == loc1 + |w|
    ensures found ==> forall i :: 0 <= i < loc1 ==> !Fitting(anchored, w, dollar, text, i)
  {
    hide IsWriting, Writing, GoodEof, IsText, Denotes, Good, RefsClosed, Preferred, Code, Flatten, Fitting;
    ghost var p := WordPattern(anchored, w, dollar);
    WordGood(w, dollar);
    var groups;
    found, loc1, loc2, groups := CompileAndStep(instring, eof, sed, buf, endbuf, text, p, ways, newline);
    WordFound(anchored, w, dollar, text, found, loc1, loc2, BLANK, groups);
  }

  lemma WordFound(anchored: bool, w: seq<int>, dollar: bool, t: seq<int>, found: bool, loc1: int, loc2: int,
      before: Groups, after: Groups)
    requires (w != [] || anchored || dollar) && IsText(t)
    requires Finds(WordPattern(anchored, w, dollar), t, found, loc1, loc2, before, after)
    ensures found <==> exists i :: Fitting(anchored, w, dollar, t, i)
    ensures found ==> Fitting(anchored, w, dollar, t, loc1) && loc2 == loc1 + |w|
    ensures found ==> forall i :: 0 <= i < loc1 ==> !Fitting(anchored, w, dollar, t, i)
  {
    hide Denotes, Preferred, IsText, Stands, WordElems;
    NotEmpty(t);
    forall i | Fitting(anchored, w, dollar, t, i) ensures found && loc1 <= i {
      InText(w, t, i, anchored, dollar);
      WordAndDollar(w, dollar, t, Place(i, before), Place(i + |w|, before));
      assert !Nothing(WordElems(w), dollar, t, Place(i, before));
    }
    if found {
      WordAndDollar(w, dollar, t, Place(loc1, before), Place(loc2, after));
      assert Fitting(anchored, w, dollar, t, loc1);
    }
  }

  lemma NotEmpty(t: seq<int>)
    requires IsText(t)
    ensures |t| > 0
  {
  }

  lemma InText(w: seq<int>, t: seq<int>, i: int, anchored: bool, dollar: bool)
    requires (w != [] || anchored || dollar) && IsText(t) && Fitting(anchored, w, dollar, t, i)
    ensures 0 <= i < |t|
  {
  }

  function Plainly(w: seq<int>): seq<bool> {
    if w == [] then [] else [false] + Plainly(w[1..])
  }

  /** The character needs no backslash at this place of a word. */
  predicate Ordinary(anchored: bool, w: seq<int>, dollar: bool, k: int, eof: int)
    requires 0 <= k < |w|
  {
    && w[k] != eof && w[k] != Ord('.') && w[k] != Ord('\n') && w[k] != Ord('[') && w[k] != Ord('\\')
    && (w[k] == Ord('*') ==> k == 0) && (w[k] == Ord('^') ==> k > 0 || anchored)
    && (w[k] == Ord('$') ==> k < |w| - 1 || dollar)
  }

  /** A word is found without any backslash in it if it has neither the delimiter nor a dot, a newline, a `[`
      or a backslash in it, a `*` only as its first character, no `^` there but after a `^` that means the
      beginning, and no `$` as its last one but before a `$` that means the end. */
  lemma PlainWord(anchored: bool, w: seq<int>, dollar: bool, newline: bool, eof: int)
    requires forall k :: 0 <= k < |w| ==> Ordinary(anchored, w, dollar, k, eof)
    ensures IsWriting(WordPattern(anchored, w, dollar), Plainly(w), eof)
    ensures Writing(WordPattern(anchored, w, dollar), Plainly(w), newline, eof)
            == (if anchored then [Ord('^')] else [])
               + (w + (if dollar then [Ord('$')] else []) + [if newline then Ord('\n') else eof])
  {
    hide Ways, WriteElems, WordElems, Plainly, Ordinary, Ord;
    WordPlain(anchored, w, dollar, 0, newline, eof);
    assert w[0..] == w;
  }

  lemma {:induction false} WordPlain(anchored: bool, w: seq<int>, dollar: bool, k: nat, newline: bool, eof: int)
    requires k <= |w| && forall i :: 0 <= i < |w| ==> Ordinary(anchored, w, dollar, i, eof)
    ensures Ways(WordElems(w[k..]), Plainly(w[k..]), if k == 0 then First(anchored) else Other, dollar, eof)
    ensures WriteElems(WordElems(w[k..]), Plainly(w[k..]), dollar, newline, eof)
            == w[k..] + (if dollar then [Ord('$')] else []) + [if newline then Ord('\n') else eof]
    decreases |w| - k
  {
    hide Ordinary, Ways, WriteElems;
    if k < |w| {
      var v, rest := w[k..], w[k + 1..];
      WordPlain(anchored, w, dollar, k + 1, newline, eof);
      assert v[1..] == rest && v[0] == w[k] && v == [w[k]] + rest;
      PlainHere(anchored, w, dollar, k, eof);
      OneMorePlain(w[k], rest, if k == 0 then First(anchored) else Other, dollar, newline, eof);
      assert v + (if dollar then [Ord('$')] else []) == [w[k]] + (rest + (if dollar then [Ord('$')] else []));
    } else {
      NoneLeft(if k == 0 then First(anchored) else Other, dollar, newline, eof);
      assert w[k..] == [];
    }
  }

  lemma NoneLeft(before: Before, dollar: bool, newline: bool, eof: int)
    ensures Ways([], [], before, dollar, eof)
    ensures WriteElems([], [], dollar, newline, eof)
            == (if dollar then [Ord('$')] else []) + [if newline then Ord('\n') else eof]
  {
  }

  lemma PlainHere(anchored: bool, w: seq<int>, dollar: bool, k: nat, eof: int)
    requires k < |w| && Ordinary(anchored, w, dollar, k, eof)
    ensures Plain(w[k], if k == 0 then First(anchored) else Other, k + 1 == |w| && !dollar, eof)
  {
  }

  lemma OneMorePlain(c: int, rest: seq<int>, before: Before, dollar: bool, newline: bool, eof: int)
    requires Plain(c, before, rest == [] && !dollar, eof)
    requires Ways(WordElems(rest), Plainly(rest), Other, dollar, eof)
    ensures Ways(WordElems([c] + rest), Plainly([c] + rest), before, dollar, eof)
    ensures WriteElems(WordElems([c] + rest), Plainly([c] + rest), dollar, newline, eof)
            == [c] + WriteElems(WordElems(rest), Plainly(rest), dollar, newline, eof)
  {
    hide Plain;
    var v := [c] + rest;
    assert v[1..] == rest;
    var elems, ways := WordElems(v), Plainly(v);
    assert elems[1..] == WordElems(rest) && ways[1..] == Plainly(rest);
    assert |elems| == 1 <==> rest == [];
    assert Write(elems[0], false, eof) == [c];
  }
}
