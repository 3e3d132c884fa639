/** The merge loop of cmd/join.c, which seeks back in the second file for every line of the first file in
    a group of equal keys, and the nested-loop join it has to agree with. */
module Join {
  import opened Strings

  /** A line is its fields; a key is a C string, compared by strcmp. */
  datatype Line = Line(fields: seq<seq<int>>)

  datatype Event = Pair(l1: Line, l2: Line) | Left(l1: Line) | Right(l2: Line)

  // --- the nested-loop join ---

  /** What to join: the key fields and the -a bits. */
  datatype Options = Options(j1: nat, j2: nat, left: bool, right: bool)

  predicate HasKey(l: Line, j: nat) { j < |l.fields| }

  ghost predicate Keyed(f: seq<Line>, j: nat) { forall i :: 0 <= i < |f| ==> HasKey(f[i], j) }

  function Key(l: Line, j: nat): seq<int> { if j < |l.fields| then l.fields[j] else [] }

  predicate Same(l1: Line, l2: Line, o: Options) { Strcmp(Key(l1, o.j1), Key(l2, o.j2)) == 0 }

  ghost predicate Sorted(f: seq<Line>, j: nat) {
    forall a, b :: 0 <= a <= b < |f| ==> Strcmp(Key(f[a], j), Key(f[b], j)) <= 0
  }

  /** The lines of the second file that pair with `l`, in their order. */
  function Pairs(l: Line, f2: seq<Line>, o: Options): seq<Event> {
    if f2 == [] then []
    else Pairs(l, f2[..|f2| - 1], o) + (if Same(l, f2[|f2| - 1], o) then [Pair(l, f2[|f2| - 1])] else [])
  }

  function Row(l: Line, f2: seq<Line>, o: Options): seq<Event> {
    var p := Pairs(l, f2, o);
    if p == [] && o.left then [Left(l)] else p
  }

  /** For each line of the first file the lines of the second that have its key, or the line alone. */
  function NestedLoop(f1: seq<Line>, f2: seq<Line>, o: Options): seq<Event> {
    if f1 == [] then [] else NestedLoop(f1[..|f1| - 1], f2, o) + Row(f1[|f1| - 1], f2, o)
  }

  ghost predicate Partner(l2: Line, f1: seq<Line>, o: Options) {
    exists i :: 0 <= i < |f1| && Same(f1[i], l2, o)
  }

  /** The lines of the second file without a partner, if they are wanted. */
  ghost function Unmatched(f2: seq<Line>, f1: seq<Line>, o: Options): seq<Event> {
    if f2 == [] then []
    else
      var l := f2[|f2| - 1];
      Unmatched(f2[..|f2| - 1], f1, o) + (if o.right && !Partner(l, f1, o) then [Right(l)] else [])
  }

  // --- what an output is made of ---

  function FirstSide(out: seq<Event>): seq<Event> {
    if out == [] then []
    else FirstSide(out[..|out| - 1]) + (if out[|out| - 1].Right? then [] else [out[|out| - 1]])
  }

  function SecondSide(out: seq<Event>): seq<Event> {
    if out == [] then []
    else SecondSide(out[..|out| - 1]) + (if out[|out| - 1].Right? then [out[|out| - 1]] else [])
  }

  function EventKey(e: Event, o: Options): seq<int> {
    if e.Right? then Key(e.l2, o.j2) else Key(e.l1, o.j1)
  }

  ghost predicate InOrder(out: seq<Event>, o: Options) {
    forall a, b :: 0 <= a <= b < |out| ==> Strcmp(EventKey(out[a], o), EventKey(out[b], o)) <= 0
  }

  /** The join of the two files: the pairs and lone first lines of the nested loop, the lone second lines,
      and both kinds together in key order. */
  ghost predicate IsJoin(out: seq<Event>, f1: seq<Line>, f2: seq<Line>, o: Options) {
    FirstSide(out) == NestedLoop(f1, f2, o) && SecondSide(out) == Unmatched(f2, f1, o) && InOrder(out, o)
  }

  lemma Emitted(out: seq<Event>, e: Event)
    ensures FirstSide(out + [e]) == FirstSide(out) + (if e.Right? then [] else [e])
    ensures SecondSide(out + [e]) == SecondSide(out) + (if e.Right? then [e] else [])
  {
    assert (out + [e])[..|out|] == out;
  }

  lemma NestedSnoc(f1: seq<Line>, i: nat, f2: seq<Line>, o: Options)
    requires i < |f1|
    ensures NestedLoop(f1[..i + 1], f2, o) == NestedLoop(f1[..i], f2, o) + Row(f1[i], f2, o)
  {
    assert f1[..i + 1][..i] == f1[..i];
  }

  lemma UnmatchedSnoc(f2: seq<Line>, j: nat, f1: seq<Line>, o: Options)
    requires j < |f2|
    ensures Unmatched(f2[..j + 1], f1, o)
            == Unmatched(f2[..j], f1, o) + (if o.right && !Partner(f2[j], f1, o) then [Right(f2[j])] else [])
  {
    assert f2[..j + 1][..j] == f2[..j];
  }

  lemma PairsSnoc(l: Line, f2: seq<Line>, j: nat, o: Options)
    requires j < |f2|
    ensures Pairs(l, f2[..j + 1], o) == Pairs(l, f2[..j], o) + (if Same(l, f2[j], o) then [Pair(l, f2[j])] else [])
  {
    assert f2[..j + 1][..j] == f2[..j];
  }

  /** Lines without the key add nothing. */
  lemma {:induction false} PairsNone(l: Line, f2: seq<Line>, lo: nat, hi: nat, o: Options)
    requires lo <= hi <= |f2| && forall b :: lo <= b < hi ==> !Same(l, f2[b], o)
    ensures Pairs(l, f2[..hi], o) == Pairs(l, f2[..lo], o)
    decreases hi
  {
    if lo < hi {
      PairsNone(l, f2, lo, hi - 1, o);
      PairsSnoc(l, f2, hi - 1, o);
    }
  }

  // --- the cut between what is done and what is left ---

  predicate Before(a: seq<int>, b: seq<int>) { Strcmp(a, b) < 0 }

  /** Everything done has smaller keys than everything left of the other file. */
  ghost predicate Cut(f1: seq<Line>, f2: seq<Line>, i: int, j: int, o: Options) {
    && 0 <= i <= |f1| && 0 <= j <= |f2|
    && (forall a, b :: 0 <= a < i && j <= b < |f2| ==> Before(Key(f1[a], o.j1), Key(f2[b], o.j2)))
    && (forall a, b :: i <= a < |f1| && 0 <= b < j ==> Before(Key(f2[b], o.j2), Key(f1[a], o.j1)))
  }

  /** No key in the output is larger than a key left. */
  ghost predicate Below(out: seq<Event>, f1: seq<Line>, f2: seq<Line>, i: int, j: int, o: Options) {
    && 0 <= i <= |f1| && 0 <= j <= |f2|
    && (forall k, a :: 0 <= k < |out| && i <= a < |f1| ==> Strcmp(EventKey(out[k], o), Key(f1[a], o.j1)) <= 0)
    && (forall k, b :: 0 <= k < |out| && j <= b < |f2| ==> Strcmp(EventKey(out[k], o), Key(f2[b], o.j2)) <= 0)
  }

  /** The output so far, up to line `i` of the first file and line `j` of the second. */
  ghost predicate Done(out: seq<Event>, f1: seq<Line>, f2: seq<Line>, i: int, j: int, o: Options) {
    && Cut(f1, f2, i, j, o) && Below(out, f1, f2, i, j, o) && InOrder(out, o)
    && FirstSide(out) == NestedLoop(f1[..i], f2, o) && SecondSide(out) == Unmatched(f2[..j], f1, o)
  }

  lemma Begin(f1: seq<Line>, f2: seq<Line>, o: Options)
    ensures Done([], f1, f2, 0, 0, o)
  {
  }

  /** An event whose key is at least every key before it keeps the order. */
  lemma InOrderSnoc(out: seq<Event>, e: Event, o: Options)
    requires InOrder(out, o) && forall k :: 0 <= k < |out| ==> Strcmp(EventKey(out[k], o), EventKey(e, o)) <= 0
    ensures InOrder(out + [e], o)
  {
    hide Strcmp, EventKey;
    StrcmpLaws(EventKey(e, o), EventKey(e, o));
  }

  lemma NoPartner(f1: seq<Line>, f2: seq<Line>, i: int, j: int, o: Options)
    requires Sorted(f1, o.j1) && Cut(f1, f2, i, j, o) && j < |f2|
    requires i == |f1| || Before(Key(f2[j], o.j2), Key(f1[i], o.j1))
    ensures !Partner(f2[j], f1, o)
    ensures forall a :: i <= a < |f1| ==> Before(Key(f2[j], o.j2), Key(f1[a], o.j1))
  {
    hide Strcmp, Key;
    forall a | 0 <= a < |f1| ensures !Same(f1[a], f2[j], o) && (i <= a ==> Before(Key(f2[j], o.j2), Key(f1[a], o.j1))) {
      if a >= i {
        assert Strcmp(Key(f1[i], o.j1), Key(f1[a], o.j1)) <= 0;
        Order(Key(f2[j], o.j2), Key(f1[i], o.j1), Key(f1[a], o.j1));
      }
    }
  }

  /** A line of the second file with a smaller key is alone. */
  lemma StepRight(out: seq<Event>, f1: seq<Line>, f2: seq<Line>, i: int, j: int, o: Options)
    requires Sorted(f1, o.j1) && Sorted(f2, o.j2) && Done(out, f1, f2, i, j, o) && j < |f2|
    requires i == |f1| || Before(Key(f2[j], o.j2), Key(f1[i], o.j1))
    ensures Done(if o.right then out + [Right(f2[j])] else out, f1, f2, i, j + 1, o)
  {
    hide Strcmp, Key, NestedLoop, Unmatched, FirstSide, SecondSide, Partner;
    NoPartner(f1, f2, i, j, o);
    UnmatchedSnoc(f2, j, f1, o);
    if o.right {
      var e := Right(f2[j]);
      Emitted(out, e);
      forall k | 0 <= k < |out| ensures Strcmp(EventKey(out[k], o), EventKey(e, o)) <= 0 {
        assert Strcmp(EventKey(out[k], o), Key(f2[j], o.j2)) <= 0;
      }
      InOrderSnoc(out, e, o);
    }
  }

  lemma NoPairs(f1: seq<Line>, f2: seq<Line>, i: int, j: int, o: Options)
    requires Sorted(f2, o.j2) && Cut(f1, f2, i, j, o) && i < |f1|
    requires j == |f2| || Before(Key(f1[i], o.j1), Key(f2[j], o.j2))
    ensures Pairs(f1[i], f2, o) == []
    ensures forall b :: j <= b < |f2| ==> Before(Key(f1[i], o.j1), Key(f2[b], o.j2))
  {
    hide Strcmp, Key;
    forall b | 0 <= b < |f2| ensures !Same(f1[i], f2[b], o) && (j <= b ==> Before(Key(f1[i], o.j1), Key(f2[b], o.j2))) {
      if b >= j {
        assert Strcmp(Key(f2[j], o.j2), Key(f2[b], o.j2)) <= 0;
        Order(Key(f1[i], o.j1), Key(f2[j], o.j2), Key(f2[b], o.j2));
      } else {
        Order(Key(f2[b], o.j2), Key(f1[i], o.j1), Key(f1[i], o.j1));
      }
    }
    PairsNone(f1[i], f2, 0, |f2|, o);
    assert f2[..|f2|] == f2;
  }

  /** A line of the first file with a smaller key is alone. */
  lemma StepLeft(out: seq<Event>, f1: seq<Line>, f2: seq<Line>, i: int, j: int, o: Options)
    requires Sorted(f1, o.j1) && Sorted(f2, o.j2) && Done(out, f1, f2, i, j, o) && i < |f1|
    requires j == |f2| || Before(Key(f1[i], o.j1), Key(f2[j], o.j2))
    ensures Done(if o.left then out + [Left(f1[i])] else out, f1, f2, i + 1, j, o)
  {
    hide Strcmp, Key, NestedLoop, Unmatched, FirstSide, SecondSide, Partner, Pairs;
    NoPairs(f1, f2, i, j, o);
    NestedSnoc(f1, i, f2, o);
    if o.left {
      var e := Left(f1[i]);
      Emitted(out, e);
      forall k | 0 <= k < |out| ensures Strcmp(EventKey(out[k], o), EventKey(e, o)) <= 0 {
        assert Strcmp(EventKey(out[k], o), Key(f1[i], o.j1)) <= 0;
      }
      InOrderSnoc(out, e, o);
    }
  }

  // --- a group of equal keys, read again for every line of the first file ---

  /** Rows of the group at `lo`, which has the key of `f1[i0]`: complete before line `i` of the first file,
      and for line `i` complete up to line `j` of the second. */
  ghost predicate Rows(out: seq<Event>, f1: seq<Line>, f2: seq<Line>, i0: int, i: int, lo: int, j: int, o: Options) {
    && Cut(f1, f2, i0, lo, o) && i0 < |f1| && lo < |f2| && i0 <= i <= |f1| && lo <= j <= |f2|
    && Key(f1[i0], o.j1) == Key(f2[lo], o.j2)
    && (forall b :: lo <= b < j ==> Key(f2[b], o.j2) == Key(f2[lo], o.j2))
    && (forall a :: i0 <= a < i ==> Key(f1[a], o.j1) == Key(f2[lo], o.j2))
    && (j > lo ==> i < |f1| && Key(f1[i], o.j1) == Key(f2[lo], o.j2))
    && FirstSide(out) == NestedLoop(f1[..i], f2, o) + (if i < |f1| then Pairs(f1[i], f2[..j], o) else [])
    && SecondSide(out) == Unmatched(f2[..lo], f1, o)
    && InOrder(out, o) && forall k :: 0 <= k < |out| ==> Strcmp(EventKey(out[k], o), Key(f2[lo], o.j2)) <= 0
  }

  lemma PairsBefore(f1: seq<Line>, f2: seq<Line>, i0: int, i: int, lo: int, o: Options)
    requires Cut(f1, f2, i0, lo, o) && i0 <= i < |f1|
    ensures Pairs(f1[i], f2[..lo], o) == []
  {
    hide Strcmp, Key;
    forall b | 0 <= b < lo ensures !Same(f1[i], f2[b], o) {
      Order(Key(f2[b], o.j2), Key(f1[i], o.j1), Key(f1[i], o.j1));
    }
    PairsNone(f1[i], f2, 0, lo, o);
  }

  lemma EnterGroup(out: seq<Event>, f1: seq<Line>, f2: seq<Line>, i: int, j: int, o: Options)
    requires Done(out, f1, f2, i, j, o) && i < |f1| && j < |f2| && Same(f1[i], f2[j], o)
    ensures Rows(out, f1, f2, i, i, j, j, o)
  {
    hide Strcmp, Key, NestedLoop, Unmatched, FirstSide, SecondSide;
    PairsBefore(f1, f2, i, i, j, o);
    StrcmpLaws(Key(f1[i], o.j1), Key(f2[j], o.j2));
  }

  lemma StepPair(out: seq<Event>, f1: seq<Line>, f2: seq<Line>, i0: int, i: int, lo: int, j: int, o: Options)
    requires Rows(out, f1, f2, i0, i, lo, j, o) && i < |f1| && j < |f2| && Same(f1[i], f2[j], o)
    ensures Rows(out + [Pair(f1[i], f2[j])], f1, f2, i0, i, lo, j + 1, o)
  {
    hide Strcmp, Key, NestedLoop, Unmatched, FirstSide, SecondSide, Pairs;
    var e := Pair(f1[i], f2[j]);
    StrcmpLaws(Key(f1[i], o.j1), Key(f2[j], o.j2));
    assert EventKey(e, o) == Key(f2[lo], o.j2);
    PairsSnoc(f1[i], f2, j, o);
    Emitted(out, e);
    InOrderSnoc(out, e, o);
    StrcmpLaws(Key(f2[lo], o.j2), Key(f2[lo], o.j2));
  }

  lemma RowEnds(l: Line, f2: seq<Line>, j: int, o: Options)
    requires Sorted(f2, o.j2) && 0 < j <= |f2| && Same(l, f2[j - 1], o)
    requires j == |f2| || Before(Key(l, o.j1), Key(f2[j], o.j2))
    ensures Row(l, f2, o) == Pairs(l, f2[..j], o)
  {
    hide Strcmp, Key;
    forall b | j <= b < |f2| ensures !Same(l, f2[b], o) {
      assert Strcmp(Key(f2[j], o.j2), Key(f2[b], o.j2)) <= 0;
      Order(Key(l, o.j1), Key(f2[j], o.j2), Key(f2[b], o.j2));
    }
    PairsNone(l, f2, j, |f2|, o);
    assert f2[..|f2|] == f2;
    PairsSnoc(l, f2, j - 1, o);
  }

  lemma StepRow(out: seq<Event>, f1: seq<Line>, f2: seq<Line>, i0: int, i: int, lo: int, j: int, o: Options)
    requires Sorted(f2, o.j2) && Rows(out, f1, f2, i0, i, lo, j, o) && lo < j
    requires j == |f2| || Before(Key(f1[i], o.j1), Key(f2[j], o.j2))
    ensures Rows(out, f1, f2, i0, i + 1, lo, lo, o)
  {
    hide Strcmp, Key, NestedLoop, Unmatched, FirstSide, SecondSide, Pairs, Row, Sorted, InOrder, Before;
    StrcmpLaws(Key(f1[i], o.j1), Key(f2[j - 1], o.j2));
    RowEnds(f1[i], f2, j, o);
    NestedSnoc(f1, i, f2, o);
    if i + 1 < |f1| { PairsBefore(f1, f2, i0, i + 1, lo, o); }
  }

  lemma {:induction false} UnmatchedNone(f2: seq<Line>, f1: seq<Line>, lo: nat, hi: nat, i: nat, o: Options)
    requires lo <= hi <= |f2| && i < |f1| && forall b :: lo <= b < hi ==> Same(f1[i], f2[b], o)
    ensures Unmatched(f2[..hi], f1, o) == Unmatched(f2[..lo], f1, o)
    decreases hi
  {
    if lo < hi {
      UnmatchedNone(f2, f1, lo, hi - 1, i, o);
      UnmatchedSnoc(f2, hi - 1, f1, o);
      assert Same(f1[i], f2[hi - 1], o);
    }
  }

  /** `f2[lo..hi]` are all the lines with the key of `f2[lo]` from `lo` on. */
  ghost predicate Group(f2: seq<Line>, lo: int, hi: int, o: Options) {
    && 0 <= lo < hi <= |f2| && (forall b :: lo <= b < hi ==> Key(f2[b], o.j2) == Key(f2[lo], o.j2))
    && (hi < |f2| ==> Before(Key(f2[lo], o.j2), Key(f2[hi], o.j2)))
  }

  lemma GroupCut(f1: seq<Line>, f2: seq<Line>, i0: int, i: int, lo: int, hi: int, o: Options)
    requires Sorted(f1, o.j1) && Sorted(f2, o.j2) && Cut(f1, f2, i0, lo, o) && Group(f2, lo, hi, o) && i0 <= i <= |f1|
    requires forall a :: i0 <= a < i ==> Key(f1[a], o.j1) == Key(f2[lo], o.j2)
    requires i == |f1| || Before(Key(f2[lo], o.j2), Key(f1[i], o.j1))
    ensures Cut(f1, f2, i, hi, o)
  {
    hide Strcmp, Key;
    var key := Key(f2[lo], o.j2);
    StrcmpLaws(key, key);
    forall a, b | 0 <= a < i && hi <= b < |f2| ensures Before(Key(f1[a], o.j1), Key(f2[b], o.j2)) {
      assert Strcmp(Key(f2[hi], o.j2), Key(f2[b], o.j2)) <= 0;
      Order(key, Key(f2[hi], o.j2), Key(f2[b], o.j2));
      Order(Key(f1[a], o.j1), key, Key(f2[b], o.j2));
    }
    forall a, b | i <= a < |f1| && 0 <= b < hi ensures Before(Key(f2[b], o.j2), Key(f1[a], o.j1)) {
      assert Strcmp(Key(f1[i], o.j1), Key(f1[a], o.j1)) <= 0;
      if b < lo {
      } else {
        Order(key, Key(f1[i], o.j1), Key(f1[a], o.j1));
      }
    }
  }

  lemma LeaveGroup(out: seq<Event>, f1: seq<Line>, f2: seq<Line>, i0: int, i: int, lo: int, hi: int, o: Options)
    requires Sorted(f1, o.j1) && Sorted(f2, o.j2) && Rows(out, f1, f2, i0, i, lo, lo, o) && Group(f2, lo, hi, o)
    requires i == |f1| || Before(Key(f2[lo], o.j2), Key(f1[i], o.j1))
    ensures Done(out, f1, f2, i, hi, o)
  {
    hide Strcmp, Key, NestedLoop, Unmatched, FirstSide, SecondSide;
    var key := Key(f2[lo], o.j2);
    GroupCut(f1, f2, i0, i, lo, hi, o);
    StrcmpLaws(key, key);
    UnmatchedNone(f2, f1, lo, hi, i0, o);
    if i < |f1| { PairsBefore(f1, f2, i0, i, lo, o); }
    forall k, a | 0 <= k < |out| && i <= a < |f1| ensures Strcmp(EventKey(out[k], o), Key(f1[a], o.j1)) <= 0 {
      assert Strcmp(Key(f1[i], o.j1), Key(f1[a], o.j1)) <= 0;
      Order(key, Key(f1[i], o.j1), Key(f1[a], o.j1));
      Order(EventKey(out[k], o), key, Key(f1[a], o.j1));
    }
    forall k, b | 0 <= k < |out| && hi <= b < |f2| ensures Strcmp(EventKey(out[k], o), Key(f2[b], o.j2)) <= 0 {
      assert Strcmp(Key(f2[hi], o.j2), Key(f2[b], o.j2)) <= 0;
      Order(key, Key(f2[hi], o.j2), Key(f2[b], o.j2));
      Order(EventKey(out[k], o), key, Key(f2[b], o.j2));
    }
  }

  // --- the loop ends early when nothing more is wanted ---

  lemma {:induction false} NestedRest(f1: seq<Line>, f2: seq<Line>, i: nat, n: nat, o: Options)
    requires i <= n <= |f1| && Sorted(f2, o.j2) && Cut(f1, f2, i, |f2|, o) && !o.left
    ensures NestedLoop(f1[..n], f2, o) == NestedLoop(f1[..i], f2, o)
    decreases n
  {
    hide Strcmp, Key, NestedLoop, Pairs, Cut;
    if i < n {
      NestedRest(f1, f2, i, n - 1, o);
      NestedSnoc(f1, n - 1, f2, o);
      PairsBefore(f1, f2, i, n - 1, |f2|, o);
      assert f2[..|f2|] == f2;
    }
  }

  lemma {:induction false} UnmatchedRest(f1: seq<Line>, f2: seq<Line>, j: nat, n: nat, o: Options)
    requires j <= n <= |f2| && !o.right
    ensures Unmatched(f2[..n], f1, o) == Unmatched(f2[..j], f1, o)
    decreases n
  {
    if j < n {
      UnmatchedRest(f1, f2, j, n - 1, o);
      UnmatchedSnoc(f2, n - 1, f1, o);
    }
  }

  lemma Finish(out: seq<Event>, f1: seq<Line>, f2: seq<Line>, i: int, j: int, o: Options)
    requires Sorted(f2, o.j2) && Done(out, f1, f2, i, j, o)
    requires i == |f1| || (j == |f2| && !o.left)
    requires j == |f2| || !o.right
    ensures IsJoin(out, f1, f2, o)
  {
    hide Strcmp, Key, NestedLoop, Unmatched, FirstSide, SecondSide;
    assert f1[..|f1|] == f1 && f2[..|f2|] == f2;
    if i < |f1| { NestedRest(f1, f2, i, |f1|, o); }
    if j < |f2| { UnmatchedRest(f1, f2, j, |f2|, o); }
  }

  // --- the program ---

  class Joiner {
    const f1: seq<Line>
    const f2: seq<Line>
    const o: Options
    var pos1: int
    var pos2: int
    var line1: Line
    var line2: Line
    var n1: int
    var n2: int
    var out: seq<Event>

    constructor (f1: seq<Line>, f2: seq<Line>, o: Options)
      ensures this.f1 == f1 && this.f2 == f2 && this.o == o && pos1 == pos2 == 0 && out == []
    {
      this.f1, this.f2, this.o := f1, f2, o;
      pos1, pos2, n1, n2, out := 0, 0, 0, 0, [];
      line1, line2 := Line([]), Line([]);
    }

    /** The line of the first file in the buffer, or its end. */
    ghost function I(): int
      reads this
    {
      if n1 > 0 then pos1 - 1 else |f1|
    }

    ghost function J(): int
      reads this
    {
      if n2 > 0 then pos2 - 1 else |f2|
    }

    ghost predicate Valid()
      reads this
    {
      && Keyed(f1, o.j1) && Keyed(f2, o.j2) && 0 <= pos1 <= |f1| && 0 <= pos2 <= |f2| && n1 >= 0 && n2 >= 0
      && (n1 > 0 ==> pos1 > 0 && line1 == f1[pos1 - 1])
      && (n2 > 0 ==> pos2 > 0 && line2 == f2[pos2 - 1])
      && (n1 == 0 ==> pos1 == |f1|)
    }

    method Get1()
      requires 0 <= pos1 <= |f1| && Keyed(f1, o.j1)
      modifies this`pos1, this`line1, this`n1
      ensures I() == old(pos1) && n1 >= 0 && 0 <= pos1 <= |f1|
      ensures (n1 > 0 ==> pos1 > 0 && line1 == f1[pos1 - 1]) && (n1 == 0 ==> pos1 == |f1|)
    {
      if pos1 == |f1| {
        n1 := 0;
      } else {
        line1 := f1[pos1];
        n1 := |line1.fields|;
        pos1 := pos1 + 1;
      }
    }

    method Get2()
      requires 0 <= pos2 <= |f2| && Keyed(f2, o.j2)
      modifies this`pos2, this`line2, this`n2
      ensures J() == old(pos2) && n2 >= 0 && 0 <= pos2 <= |f2|
      ensures n2 > 0 ==> pos2 > 0 && line2 == f2[pos2 - 1]
    {
      if pos2 == |f2| {
        n2 := 0;
      } else {
        line2 := f2[pos2];
        n2 := |line2.fields|;
        pos2 := pos2 + 1;
      }
    }

    method Comp() returns (c: int)
      requires Valid() && n1 > 0 && n2 > 0
      ensures c == Strcmp(Key(f1[I()], o.j1), Key(f2[J()], o.j2))
    {
      c := Strcmp(line1.fields[o.j1], line2.fields[o.j2]);
    }

    /** The first row of a group, which measures the group. */
    method FirstRow() returns (top2: int)
      requires Valid() && Sorted(f2, o.j2) && n1 > 0 && n2 > 0
      requires Rows(out, f1, f2, I(), I(), J(), J(), o) && Same(f1[I()], f2[J()], o)
      modifies this`pos2, this`line2, this`n2, this`out
      ensures Valid() && top2 == J() && Group(f2, old(J()), top2, o)
      ensures Rows(out, f1, f2, I(), I() + 1, old(J()), old(J()), o)
    {
      hide Strcmp, Key, Rows, Same, Before, Sorted, Group;
      ghost var i0, lo := I(), J();
      SameIf(f1[i0], f2[lo], o);
      top2 := pos2;
      var c := Comp();
      while n2 > 0 && c == 0
        invariant Valid() && n1 > 0 && I() == i0 && lo <= J() && (J() > lo ==> top2 == J())
            && (J() == lo ==> n2 > 0 && c == 0)
        invariant n2 > 0 ==> c == Strcmp(Key(f1[I()], o.j1), Key(f2[J()], o.j2))
        invariant Rows(out, f1, f2, i0, i0, lo, J(), o)
        decreases |f2| - J()
      {
        SameIf(f1[i0], f2[J()], o);
        StepPair(out, f1, f2, i0, i0, lo, J(), o);
        out := out + [Pair(line1, line2)];
        top2 := pos2;
        Get2();
        if n2 > 0 {
          c := Comp();
        }
      }
      GroupEnd(out, f1, f2, i0, lo, J(), o);
      StepRow(out, f1, f2, i0, i0, lo, J(), o);
    }

    /** A pair inside the group. */
    method PutPair(ghost i0: int, ghost lo: int)
      requires Valid() && n1 > 0 && n2 > 0 && Same(f1[I()], f2[J()], o)
      requires Rows(out, f1, f2, i0, I(), lo, J(), o)
      modifies this`pos2, this`line2, this`n2, this`out
      ensures Valid() && I() == old(I()) && J() == old(J()) + 1 && Rows(out, f1, f2, i0, I(), lo, J(), o)
    {
      hide Strcmp, Key, Rows, Same;
      StepPair(out, f1, f2, i0, I(), lo, J(), o);
      out := out + [Pair(line1, line2)];
      Get2();
    }

    /** The end of a row: back to `bot2`, with the next line of the first file. */
    method SeekBack(bot2: int, ghost i0: int)
      requires Valid() && n1 > 0 && Sorted(f2, o.j2) && 0 <= bot2 < J() && Rows(out, f1, f2, i0, I(), bot2, J(), o)
      requires J() == |f2| || Before(Key(f1[I()], o.j1), Key(f2[J()], o.j2))
      modifies this`pos1, this`line1, this`n1, this`pos2, this`line2, this`n2
      ensures Valid() && I() == old(I()) + 1 && J() == bot2 && Rows(out, f1, f2, i0, I(), bot2, J(), o)
    {
      hide Strcmp, Key, Rows, Before, Sorted;
      StepRow(out, f1, f2, i0, I(), bot2, J(), o);
      pos2 := bot2;
      Get2();
      Get1();
    }

    /** The end of the group: on to `top2`. */
    method SeekOn(top2: int, ghost i0: int, ghost lo: int)
      requires Valid() && Sorted(f1, o.j1) && Sorted(f2, o.j2) && Group(f2, lo, top2, o) && J() == lo
      requires Rows(out, f1, f2, i0, I(), lo, lo, o)
      requires I() == |f1| || Before(Key(f2[lo], o.j2), Key(f1[I()], o.j1))
      modifies this`pos2, this`line2, this`n2
      ensures Valid() && I() == old(I()) && J() == top2 && Done(out, f1, f2, I(), J(), o)
    {
      hide Strcmp, Key, Rows, Before, Sorted, Done;
      LeaveGroup(out, f1, f2, i0, I(), lo, top2, o);
      pos2 := top2;
      Get2();
    }

    /** The group at `bot2`: after the first row the second file is sought back to `bot2` for every further
        row, and to `top2` at the end. */
    method JoinGroup(bot2: int) returns (top2: int)
      requires Valid() && Sorted(f1, o.j1) && Sorted(f2, o.j2) && n1 > 0 && n2 > 0 && bot2 == J()
      requires Done(out, f1, f2, I(), J(), o) && Same(f1[I()], f2[J()], o)
      modifies this
      ensures Valid() && top2 == J() && Done(out, f1, f2, I(), J(), o) && I() > old(I())
    {
      hide Strcmp, Key, Done, Rows, Same, Before, Sorted;
      ghost var i0, lo := I(), J();
      EnterGroup(out, f1, f2, i0, lo, o);
      top2 := FirstRow();
      GroupBounds(f2, lo, top2, o);
      pos2 := bot2;
      Get2();
      Get1();
      while true
        invariant Valid() && I() > i0 && lo <= J() <= top2 && (n1 == 0 ==> J() == lo) && bot2 == lo
        invariant Rows(out, f1, f2, i0, I(), lo, J(), o)
        decreases |f1| - I(), |f2| - J()
      {
        var c := 0;
        if n1 > 0 && n2 > 0 {
          c := Comp();
          SameIf(f1[I()], f2[J()], o);
        }
        RowOrder(out, f1, f2, i0, I(), lo, top2, J(), o);
        if n1 > 0 && n2 > 0 && c == 0 {
          PutPair(i0, lo);
        } else if (n1 > 0 && n2 > 0 && c < 0) || n2 == 0 {
          SeekBack(bot2, i0);
        } else {
          SeekOn(top2, i0, lo);
          break;
        }
      }
    }

    /** The main loop. */
    method Run()
      requires Keyed(f1, o.j1) && Keyed(f2, o.j2) && Sorted(f1, o.j1) && Sorted(f2, o.j2)
      requires pos1 == pos2 == 0 && out == []
      modifies this
      ensures IsJoin(out, f1, f2, o)
    {
      hide Strcmp, Key, Done, Rows, Same, Before, Sorted, IsJoin;
      Begin(f1, f2, o);
      Get1();
      var bot2 := pos2;
      Get2();
      while (n1 > 0 && n2 > 0) || ((o.left || o.right) && n1 + n2 > 0)
        invariant Valid() && bot2 == J()
        invariant Done(out, f1, f2, I(), J(), o)
        decreases |f1| - I(), |f2| - J()
      {
        var c := 0;
        if n1 > 0 && n2 > 0 {
          c := Comp();
          SameIf(f1[I()], f2[J()], o);
          BeforeIf(f1[I()], f2[J()], o);
        }
        if (n1 > 0 && n2 > 0 && c > 0) || n1 == 0 {
          StepRight(out, f1, f2, I(), J(), o);
          if o.right {
            out := out + [Right(line2)];
          }
          bot2 := pos2;
          Get2();
        } else if (n1 > 0 && n2 > 0 && c < 0) || n2 == 0 {
          StepLeft(out, f1, f2, I(), J(), o);
          if o.left {
            out := out + [Left(line1)];
          }
          Get1();
        } else {
          bot2 := JoinGroup(bot2);
        }
      }
      Finish(out, f1, f2, I(), J(), o);
    }
  }

  lemma SameIf(l1: Line, l2: Line, o: Options)
    ensures Same(l1, l2, o) <==> Strcmp(Key(l1, o.j1), Key(l2, o.j2)) == 0
  {
  }

  lemma BeforeIf(l1: Line, l2: Line, o: Options)
    ensures Before(Key(l1, o.j1), Key(l2, o.j2)) <==> Strcmp(Key(l1, o.j1), Key(l2, o.j2)) < 0
    ensures Before(Key(l2, o.j2), Key(l1, o.j1)) <==> Strcmp(Key(l1, o.j1), Key(l2, o.j2)) > 0
  {
    StrcmpLaws(Key(l1, o.j1), Key(l2, o.j2));
  }

  /** The group ends where the keys of the second file change. */
  lemma GroupEnd(out: seq<Event>, f1: seq<Line>, f2: seq<Line>, i0: int, lo: int, j: int, o: Options)
    requires Sorted(f2, o.j2) && Rows(out, f1, f2, i0, i0, lo, j, o) && lo < j
    requires j == |f2| || Strcmp(Key(f1[i0], o.j1), Key(f2[j], o.j2)) != 0
    ensures Group(f2, lo, j, o) && (j == |f2| || Before(Key(f1[i0], o.j1), Key(f2[j], o.j2)))
  {
    hide Strcmp, Key, NestedLoop, Unmatched, FirstSide, SecondSide, Pairs;
    if j < |f2| {
      assert Strcmp(Key(f2[lo], o.j2), Key(f2[j], o.j2)) <= 0;
    }
  }

  lemma GroupBounds(f2: seq<Line>, lo: int, hi: int, o: Options)
    requires Group(f2, lo, hi, o)
    ensures 0 <= lo < hi <= |f2|
  {
  }

  /** How a line of the first file can compare inside the group. */
  lemma RowOrder(out: seq<Event>, f1: seq<Line>, f2: seq<Line>, i0: int, i: int, lo: int, hi: int, j: int, o: Options)
    requires Sorted(f1, o.j1) && Sorted(f2, o.j2) && Rows(out, f1, f2, i0, i, lo, j, o) && Group(f2, lo, hi, o)
        && j <= hi
    ensures i < |f1| && j < |f2| ==>
              var c := Strcmp(Key(f1[i], o.j1), Key(f2[j], o.j2));
              && (j == lo ==> c >= 0) && (j > lo ==> c <= 0) && (j == hi ==> c < 0)
              && (c < 0 ==> Before(Key(f1[i], o.j1), Key(f2[j], o.j2)))
              && (c > 0 ==> Before(Key(f2[lo], o.j2), Key(f1[i], o.j1)))
  {
    hide Strcmp, Key, NestedLoop, Unmatched, FirstSide, SecondSide, Pairs;
    if i < |f1| && j < |f2| {
      assert Strcmp(Key(f1[i0], o.j1), Key(f1[i], o.j1)) <= 0;
      assert Strcmp(Key(f2[lo], o.j2), Key(f2[j], o.j2)) <= 0;
      StrcmpLaws(Key(f1[i], o.j1), Key(f2[lo], o.j2));
    }
  }

  /** From the two files to what is put out. */
  method JoinFiles(f1: seq<Line>, f2: seq<Line>, o: Options) returns (out: seq<Event>)
    requires Keyed(f1, o.j1) && Keyed(f2, o.j2) && Sorted(f1, o.j1) && Sorted(f2, o.j2)
    ensures IsJoin(out, f1, f2, o)
  {
    hide Keyed, Sorted, IsJoin;
    var joiner := new Joiner(f1, f2, o);
    joiner.Run();
    out := joiner.out;
  }
}
