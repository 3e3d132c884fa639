/** What the output of cmd/join.c holds: how often each pair of lines and each line alone. */
module JoinMeaning {
  import opened Strings
  import opened Join

  /** Every element of an output is on one of its two sides. */
  lemma {:induction false} SidesCount(out: seq<Event>, e: Event)
    ensures multiset(out)[e] == if e.Right? then multiset(SecondSide(out))[e] else multiset(FirstSide(out))[e]
    decreases |out|
  {
    if out != [] {
      var front, d := out[..|out| - 1], out[|out| - 1];
      SidesCount(front, e);
      assert out == front + [d];
    }
  }

  lemma {:induction false} PairsCount(l: Line, f2: seq<Line>, o: Options, e: Event)
    ensures multiset(Pairs(l, f2, o))[e] == if e.Pair? && e.l1 == l && Same(l, e.l2, o) then multiset(f2)[e.l2] else 0
    decreases |f2|
  {
    hide Same;
    if f2 != [] {
      var front, d := f2[..|f2| - 1], f2[|f2| - 1];
      PairsCount(l, front, o, e);
      assert f2 == front + [d];
      var more := if Same(l, d, o) then [Pair(l, d)] else [];
      assert multiset(Pairs(l, f2, o)) == multiset(Pairs(l, front, o)) + multiset(more);
    }
  }

  lemma {:induction false} PairsLone(l: Line, f2: seq<Line>, o: Options)
    ensures Pairs(l, f2, o) == [] <==> Lone(l, f2, o)
    decreases |f2|
  {
    hide Same;
    if f2 != [] {
      var front, d := f2[..|f2| - 1], f2[|f2| - 1];
      PairsLone(l, front, o);
      assert f2 == front + [d];
    }
  }

  /** A line of the first file without a partner in the second. */
  ghost predicate Lone(l: Line, f2: seq<Line>, o: Options) {
    forall j :: 0 <= j < |f2| ==> !Same(l, f2[j], o)
  }

  lemma RowCount(l: Line, f2: seq<Line>, o: Options, e: Event)
    ensures multiset(Row(l, f2, o))[e] ==
              if e.Pair? && e.l1 == l && Same(l, e.l2, o) then multiset(f2)[e.l2]
              else if e == Left(l) && o.left && Lone(l, f2, o) then 1 else 0
  {
    hide Same;
    PairsCount(l, f2, o, e);
    PairsLone(l, f2, o);
    if e.Pair? && e.l1 == l && Same(l, e.l2, o) && Lone(l, f2, o) { NotThere(e.l2, f2, l, o); }
  }

  lemma NotThere(l2: Line, f2: seq<Line>, l: Line, o: Options)
    requires Lone(l, f2, o) && Same(l, l2, o)
    ensures multiset(f2)[l2] == 0
  {
    hide Same;
  }

  lemma {:induction false} NestedCount(f1: seq<Line>, f2: seq<Line>, o: Options, e: Event)
    requires !e.Right?
    ensures multiset(NestedLoop(f1, f2, o))[e] ==
              if e.Pair? then (if Same(e.l1, e.l2, o) then multiset(f1)[e.l1] * multiset(f2)[e.l2] else 0)
              else if o.left && Lone(e.l1, f2, o) then multiset(f1)[e.l1] else 0
    decreases |f1|
  {
    hide Same, Row;
    if f1 != [] {
      var front, d := f1[..|f1| - 1], f1[|f1| - 1];
      NestedCount(front, f2, o, e);
      RowCount(d, f2, o, e);
      assert f1 == front + [d];
      assert multiset(f1)[e.l1] == multiset(front)[e.l1] + if d == e.l1 then 1 else 0;
      if e.Pair? {
        Distribute(multiset(front)[e.l1], if d == e.l1 then 1 else 0, multiset(f2)[e.l2]);
      }
    }
  }

  lemma Distribute(a: int, b: int, c: int)
    ensures (a + b) * c == a * c + b * c
  {
  }

  lemma {:induction false} UnmatchedCount(f2: seq<Line>, f1: seq<Line>, o: Options, l: Line)
    ensures multiset(Unmatched(f2, f1, o))[Right(l)] == if o.right && !Partner(l, f1, o) then multiset(f2)[l] else 0
    decreases |f2|
  {
    hide Partner;
    if f2 != [] {
      var front, d := f2[..|f2| - 1], f2[|f2| - 1];
      UnmatchedCount(front, f1, o, l);
      assert f2 == front + [d];
    }
  }

  lemma SameField(l1: Line, l2: Line, o: Options)
    requires HasKey(l1, o.j1) && HasKey(l2, o.j2)
    ensures Same(l1, l2, o) <==> l1.fields[o.j1] == l2.fields[o.j2]
  {
    hide Strcmp;
    StrcmpLaws(Key(l1, o.j1), Key(l2, o.j2));
  }

  lemma LoneFields(l1: Line, f2: seq<Line>, o: Options)
    requires HasKey(l1, o.j1) && Keyed(f2, o.j2)
    ensures Lone(l1, f2, o) <==> forall j :: 0 <= j < |f2| ==> f2[j].fields[o.j2] != l1.fields[o.j1]
  {
    hide Same;
    forall j | 0 <= j < |f2| ensures Same(l1, f2[j], o) <==> l1.fields[o.j1] == f2[j].fields[o.j2] {
      SameField(l1, f2[j], o);
    }
  }

  lemma PartnerFields(l2: Line, f1: seq<Line>, o: Options)
    requires HasKey(l2, o.j2) && Keyed(f1, o.j1)
    ensures Partner(l2, f1, o) <==> exists i :: 0 <= i < |f1| && f1[i].fields[o.j1] == l2.fields[o.j2]
  {
    hide Same;
    forall i | 0 <= i < |f1| ensures Same(f1[i], l2, o) <==> f1[i].fields[o.j1] == l2.fields[o.j2] {
      SameField(f1[i], l2, o);
    }
  }

  function Product(m: nat, n: nat): int { m * n }

  /** A join holds two lines together as often as their pair occurs, if their fields are equal, and never
      otherwise. */
  lemma PairCount(out: seq<Event>, f1: seq<Line>, f2: seq<Line>, o: Options, l1: Line, l2: Line)
    requires IsJoin(out, f1, f2, o) && HasKey(l1, o.j1) && HasKey(l2, o.j2)
    ensures l1.fields[o.j1] == l2.fields[o.j2] ==>
              multiset(out)[Pair(l1, l2)] == Product(multiset(f1)[l1], multiset(f2)[l2])
    ensures l1.fields[o.j1] != l2.fields[o.j2] ==> Pair(l1, l2) !in out
  {
    hide NestedLoop, Unmatched, FirstSide, SecondSide, Same, InOrder;
    SidesCount(out, Pair(l1, l2));
    NestedCount(f1, f2, o, Pair(l1, l2));
    SameField(l1, l2, o);
  }

  /** A line of the first file stands alone, if -a1 wants it, as often as it occurs if no line of the other file
      has the same field. */
  lemma LeftCount(out: seq<Event>, f1: seq<Line>, f2: seq<Line>, o: Options, l: Line)
    requires IsJoin(out, f1, f2, o) && HasKey(l, o.j1) && Keyed(f2, o.j2)
    ensures multiset(out)[Left(l)]
            == if o.left && (forall j :: 0 <= j < |f2| ==> f2[j].fields[o.j2] != l.fields[o.j1])
               then multiset(f1)[l] else 0
  {
    hide NestedLoop, Unmatched, FirstSide, SecondSide, Same, InOrder, Lone;
    SidesCount(out, Left(l));
    NestedCount(f1, f2, o, Left(l));
    LoneFields(l, f2, o);
  }

  /** And so does a line of the second file, if -a2 wants it. */
  lemma RightCount(out: seq<Event>, f1: seq<Line>, f2: seq<Line>, o: Options, l: Line)
    requires IsJoin(out, f1, f2, o) && HasKey(l, o.j2) && Keyed(f1, o.j1)
    ensures multiset(out)[Right(l)]
            == if o.right && (forall i :: 0 <= i < |f1| ==> f1[i].fields[o.j1] != l.fields[o.j2])
               then multiset(f2)[l] else 0
  {
    hide NestedLoop, Unmatched, FirstSide, SecondSide, Same, InOrder, Partner;
    SidesCount(out, Right(l));
    UnmatchedCount(f2, f1, o, l);
    PartnerFields(l, f1, o);
  }
}
