/** What the records written by cmd/acct/acctmerg.c hold, column by column. */
module AccountTotals {
  import opened Strings
  import opened AccountMerge

  /** The records of all files, one after the other. */
  function AllOf(files: seq<seq<Tacct>>): seq<Tacct> {
    if files == [] then [] else files[0] + AllOf(files[1..])
  }

  lemma {:induction false} SumAppend(s: seq<Tacct>, t: seq<Tacct>, r: Tacct, u: bool)
    ensures Sum(s + t, r, u) == Plus(Sum(s, r, u), Sum(t, r, u))
    decreases |s|
  {
    hide Plus, Cmp, PlusShort;
    if s == [] {
      assert s + t == t;
      PlusLaws(Sum(t, r, u), ZERO, ZERO);
      PlusLaws(ZERO, Sum(t, r, u), ZERO);
    } else {
      assert (s + t)[1..] == s[1..] + t;
      SumAppend(s[1..], t, r, u);
      PlusLaws(If(Cmp(s[0], r, u) == 0, s[0].amounts), Sum(s[1..], r, u), Sum(t, r, u));
    }
  }

  lemma {:induction false} GrandAppend(s: seq<Tacct>, t: seq<Tacct>)
    ensures Grand(s + t) == Plus(Grand(s), Grand(t))
    decreases |s|
  {
    hide Plus;
    if s == [] {
      assert s + t == t;
      PlusLaws(Grand(t), ZERO, ZERO);
      PlusLaws(ZERO, Grand(t), ZERO);
    } else {
      assert (s + t)[1..] == s[1..] + t;
      GrandAppend(s[1..], t);
      PlusLaws(s[0].amounts, Grand(s[1..]), Grand(t));
    }
  }

  lemma {:induction false} FilesSum(files: seq<seq<Tacct>>, r: Tacct, u: bool)
    ensures SumAll(files, r, u) == Sum(AllOf(files), r, u) && GrandAll(files) == Grand(AllOf(files))
    decreases |files|
  {
    hide Plus, Cmp;
    if files != [] {
      FilesSum(files[1..], r, u);
      SumAppend(files[0], AllOf(files[1..]), r, u);
      GrandAppend(files[0], AllOf(files[1..]));
    }
  }

  // --- columns ---

  /** The record belongs to the user `r`, by uid and name, or with -u by uid alone; or all records do. */
  predicate Belongs(x: Tacct, r: Tacct, u: bool, all: bool) {
    all || (x.uid == r.uid && (u || x.name == r.name))
  }

  /** One column of those records, added up. */
  function Column(s: seq<Tacct>, r: Tacct, u: bool, all: bool, column: Amounts -> real): real {
    if s == [] then 0.0
    else (if Belongs(s[0], r, u, all) then column(s[0].amounts) else 0.0) + Column(s[1..], r, u, all, column)
  }

  datatype Count = Processes | Sessions | Samples | Fees

  function CountOf(a: Amounts, c: Count): int {
    match c
    case Processes => a.pc
    case Sessions => a.sc
    case Samples => a.dc
    case Fees => a.fee
  }

  function Units(s: seq<Tacct>, r: Tacct, u: bool, all: bool, c: Count): int {
    if s == [] then 0
    else (if Belongs(s[0], r, u, all) then CountOf(s[0].amounts, c) else 0) + Units(s[1..], r, u, all, c)
  }

  ghost predicate Times(a: Amounts, s: seq<Tacct>, r: Tacct, u: bool, all: bool) {
    && a.cpu0 == Column(s, r, u, all, (x: Amounts) => x.cpu0) && a.cpu1 == Column(s, r, u, all, (x: Amounts) => x.cpu1)
    && a.kcore0 == Column(s, r, u, all, (x: Amounts) => x.kcore0)
    && a.kcore1 == Column(s, r, u, all, (x: Amounts) => x.kcore1)
    && a.con0 == Column(s, r, u, all, (x: Amounts) => x.con0) && a.con1 == Column(s, r, u, all, (x: Amounts) => x.con1)
    && a.du == Column(s, r, u, all, (x: Amounts) => x.du)
  }

  function Wrapped(n: int): Short { n % 65536 }

  /** The session, disk sample and fee counts are 16 bits wide. */
  ghost predicate Counts(a: Amounts, s: seq<Tacct>, r: Tacct, u: bool, all: bool) {
    && a.pc == Units(s, r, u, all, Processes) && a.sc == Wrapped(Units(s, r, u, all, Sessions))
    && a.dc == Wrapped(Units(s, r, u, all, Samples)) && a.fee == Wrapped(Units(s, r, u, all, Fees))
  }

  lemma SameKey(x: Tacct, r: Tacct, u: bool)
    ensures Cmp(x, r, u) == 0 <==> Belongs(x, r, u, false)
  {
    hide Strcmp;
    StrcmpLaws(x.name, r.name);
  }

  lemma ShortAdds(a: Short, b: Short, n: int)
    requires b == Wrapped(n)
    ensures PlusShort(a, b) == Wrapped(a + n)
  {
  }

  /** One record more at the front. */
  lemma StepTimes(s: seq<Tacct>, b: Amounts, r: Tacct, u: bool, all: bool)
    requires s != [] && Times(b, s[1..], r, u, all)
    ensures Times(Plus(If(Belongs(s[0], r, u, all), s[0].amounts), b), s, r, u, all)
  {
    hide PlusShort, Belongs;
  }

  lemma CountAdds(a: Amounts, b: Amounts, c: Count, n: int)
    requires c != Processes && CountOf(b, c) == Wrapped(n)
    ensures CountOf(Plus(a, b), c) == Wrapped(CountOf(a, c) + n)
  {
    hide Wrapped, PlusShort;
    match c
    case Sessions => ShortAdds(a.sc, b.sc, n);
    case Samples => ShortAdds(a.dc, b.dc, n);
    case Fees => ShortAdds(a.fee, b.fee, n);
    case Processes =>
  }

  lemma CountIf(yes: bool, a: Amounts, c: Count)
    ensures CountOf(If(yes, a), c) == if yes then CountOf(a, c) else 0
  {
  }

  lemma StepCount(s: seq<Tacct>, b: Amounts, r: Tacct, u: bool, all: bool, c: Count)
    requires s != [] && c != Processes && CountOf(b, c) == Wrapped(Units(s[1..], r, u, all, c))
    ensures CountOf(Plus(If(Belongs(s[0], r, u, all), s[0].amounts), b), c) == Wrapped(Units(s, r, u, all, c))
  {
    hide Belongs, Wrapped, Plus, CountOf, If;
    CountIf(Belongs(s[0], r, u, all), s[0].amounts, c);
    CountAdds(If(Belongs(s[0], r, u, all), s[0].amounts), b, c, Units(s[1..], r, u, all, c));
  }

  lemma StepCounts(s: seq<Tacct>, b: Amounts, r: Tacct, u: bool, all: bool)
    requires s != [] && Counts(b, s[1..], r, u, all)
    ensures Counts(Plus(If(Belongs(s[0], r, u, all), s[0].amounts), b), s, r, u, all)
  {
    hide PlusShort, Belongs, Wrapped;
    StepCount(s, b, r, u, all, Sessions);
    StepCount(s, b, r, u, all, Samples);
    StepCount(s, b, r, u, all, Fees);
  }

  lemma {:induction false} KeyColumns(s: seq<Tacct>, r: Tacct, u: bool)
    ensures Times(Sum(s, r, u), s, r, u, false) && Counts(Sum(s, r, u), s, r, u, false)
    decreases |s|
  {
    hide Cmp, Plus, Times, Counts, Belongs;
    if s == [] {
      NoColumns(r, u, false);
    } else {
      KeyColumns(s[1..], r, u);
      SameKey(s[0], r, u);
      StepTimes(s, Sum(s[1..], r, u), r, u, false);
      StepCounts(s, Sum(s[1..], r, u), r, u, false);
    }
  }

  lemma NoColumns(r: Tacct, u: bool, all: bool)
    ensures Times(ZERO, [], r, u, all) && Counts(ZERO, [], r, u, all)
  {
  }

  lemma {:induction false} AllColumns(s: seq<Tacct>, r: Tacct, u: bool)
    ensures Times(Grand(s), s, r, u, true) && Counts(Grand(s), s, r, u, true)
    decreases |s|
  {
    hide Plus, Times, Counts;
    if s == [] {
      NoColumns(r, u, true);
    } else {
      AllColumns(s[1..], r, u);
      StepTimes(s, Grand(s[1..]), r, u, true);
      StepCounts(s, Grand(s[1..]), r, u, true);
    }
  }

  /** Every record of a merge is, in each column, the sum over all records of its user. */
  lemma MergedColumns(out: seq<Tacct>, files: seq<seq<Tacct>>, u: bool, k: int)
    requires IsMerge(out, files, u) && 0 <= k < |out|
    ensures Times(out[k].amounts, AllOf(files), out[k], u, false)
    ensures Counts(out[k].amounts, AllOf(files), out[k], u, false)
  {
    hide Times, Counts, Cmp, SumAll, Covered;
    FilesSum(files, out[k], u);
    KeyColumns(AllOf(files), out[k], u);
  }

  /** The total is, in each column, the sum over all records. */
  lemma TotalColumns(files: seq<seq<Tacct>>, r: Tacct, u: bool)
    ensures TOTAL == ['T' as int, 'O' as int, 'T' as int, 'A' as int, 'L' as int]
    ensures Times(GrandAll(files), AllOf(files), r, u, true)
    ensures Counts(GrandAll(files), AllOf(files), r, u, true)
  {
    hide Times, Counts, GrandAll, Grand;
    FilesSum(files, r, u);
    AllColumns(AllOf(files), r, u);
  }

  // --- keys ---

  /** The keys of a merge rise: the uid grows or, without -u, stays the same and the name grows. */
  lemma KeysRise(out: seq<Tacct>, files: seq<seq<Tacct>>, u: bool, j: int, k: int)
    requires IsMerge(out, files, u) && 0 <= j < k < |out|
    ensures out[j].uid < out[k].uid
         || (!u && out[j].uid == out[k].uid && exists i :: LessAt(out[j].name, out[k].name, i))
  {
    hide Strcmp, SumAll, LessAt;
    StrcmpLess(out[j].name, out[k].name);
    assert Cmp(out[j], out[k], u) < 0;
  }

  /** A record has the uid and the name of the first one of its user, file by file: with -u the others may have
      other names. */
  lemma NameOfFirst(out: seq<Tacct>, files: seq<seq<Tacct>>, u: bool, k: int) returns (f: int, i: int)
    requires IsMerge(out, files, u) && 0 <= k < |out|
    ensures 0 <= f < |files| && 0 <= i < |files[f]|
    ensures files[f][i].uid == out[k].uid && files[f][i].name == out[k].name
    ensures forall j :: 0 <= j < i ==> !Belongs(files[f][j], out[k], u, false)
    ensures forall g, j :: 0 <= g < f && 0 <= j < |files[g]| ==> !Belongs(files[g][j], out[k], u, false)
  {
    hide Cmp, SumAll, Covered, Belongs;
    assert Named(files, out[k], u);
    f, i :| IsFirst(files, f, i, out[k], u);
    forall x ensures Cmp(x, out[k], u) == 0 <==> Belongs(x, out[k], u, false) { SameKey(x, out[k], u); }
  }

  lemma SameUser(x: Tacct, y: Tacct, r: Tacct, u: bool)
    requires Cmp(x, y, u) == 0
    ensures Belongs(x, r, u, false) <==> Belongs(y, r, u, false)
  {
    hide Cmp;
    SameKey(x, y, u);
  }

  ghost predicate Written(out: seq<Tacct>, r: Tacct, u: bool) {
    exists k :: 0 <= k < |out| && Belongs(out[k], r, u, false)
  }

  ghost predicate Read(files: seq<seq<Tacct>>, r: Tacct, u: bool) {
    exists x :: In(files, x) && Belongs(x, r, u, false)
  }

  /** There is a record for exactly the users of the input. */
  lemma KeysKept(out: seq<Tacct>, files: seq<seq<Tacct>>, u: bool, r: Tacct)
    requires IsMerge(out, files, u)
    ensures Written(out, r, u) <==> Read(files, r, u)
  {
    hide SumAll, Cmp, In, Belongs;
    if Written(out, r, u) {
      var k :| 0 <= k < |out| && Belongs(out[k], r, u, false);
      var x :| In(files, x) && Cmp(out[k], x, u) == 0;
      SameUser(out[k], x, r, u);
    }
    if Read(files, r, u) {
      var x :| In(files, x) && Belongs(x, r, u, false);
      assert Covered(out, x, u);
      var k :| 0 <= k < |out| && Cmp(out[k], x, u) == 0;
      SameUser(out[k], x, r, u);
    }
  }
}
