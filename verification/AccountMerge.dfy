/** cmd/acct/acctmerg.c: sorted accounting files are merged, and the records of each user are added up. */
module AccountMerge {
  import opened Strings

  /** `unsigned short`, whose sums wrap around. */
  type Short = x: int | 0 <= x < 65536

  datatype Amounts = Amounts(cpu0: real, cpu1: real, kcore0: real, kcore1: real, con0: real, con1: real, du: real,
                             pc: int, sc: Short, dc: Short, fee: Short)

  datatype Tacct = Tacct(uid: int, name: seq<int>, amounts: Amounts)

  const ZERO: Amounts := Amounts(0.0, 0.0, 0.0, 0.0, 0.0, 0.0, 0.0, 0, 0, 0, 0)
  const NONE: Tacct := Tacct(0, [], ZERO)
  const TOTAL: seq<int> := [84, 79, 84, 65, 76]

  function PlusShort(a: Short, b: Short): Short { (a + b) % 65536 }

  /** tacctadd */
  function Plus(a: Amounts, b: Amounts): Amounts {
    Amounts(a.cpu0 + b.cpu0, a.cpu1 + b.cpu1, a.kcore0 + b.kcore0, a.kcore1 + b.kcore1, a.con0 + b.con0,
        a.con1 + b.con1,
            a.du + b.du, a.pc + b.pc, PlusShort(a.sc, b.sc), PlusShort(a.dc, b.dc), PlusShort(a.fee, b.fee))
  }

  lemma ShortLaws(a: Short, b: Short, c: Short)
    ensures PlusShort(a, b) == PlusShort(b, a) && PlusShort(PlusShort(a, b), c) == PlusShort(a, PlusShort(b, c))
        && PlusShort(a, 0) == a
  {
    ShortSum(a, b, c);
    ShortSum(b, c, a);
  }

  lemma ShortSum(a: Short, b: Short, c: Short)
    ensures PlusShort(PlusShort(a, b), c) == (a + b + c) % 65536
    ensures PlusShort(a, 0) == a
  {
    assert PlusShort(a, b) == if a + b < 65536 then a + b else a + b - 65536;
  }

  lemma PlusLaws(a: Amounts, b: Amounts, c: Amounts)
    ensures Plus(a, b) == Plus(b, a) && Plus(Plus(a, b), c) == Plus(a, Plus(b, c)) && Plus(a, ZERO) == a
  {
    hide PlusShort;
    ShortLaws(a.sc, b.sc, c.sc);
    ShortLaws(a.dc, b.dc, c.dc);
    ShortLaws(a.fee, b.fee, c.fee);
  }

  // --- keys ---

  /** The order of the files: by uid and name, or with -u by uid alone. */
  function Cmp(a: Tacct, b: Tacct, u: bool): int {
    if a.uid < b.uid then -1 else if a.uid > b.uid then 1 else if u then 0 else Strcmp(a.name, b.name)
  }

  lemma KeyOrder(a: Tacct, b: Tacct, c: Tacct, u: bool)
    ensures Cmp(a, b, u) <= 0 && Cmp(b, c, u) <= 0 ==> Cmp(a, c, u) <= 0
    ensures Cmp(a, b, u) <= 0 && Cmp(b, c, u) <= 0 && Cmp(a, c, u) == 0 ==> Cmp(a, b, u) == 0 && Cmp(b, c, u) == 0
    ensures Cmp(b, a, u) == -Cmp(a, b, u) && Cmp(c, b, u) == -Cmp(b, c, u) && Cmp(c, a, u) == -Cmp(a, c, u)
    ensures Cmp(a, a, u) == 0
  {
    hide Strcmp;
    Order(a.name, b.name, c.name);
    Order(a.name, a.name, a.name);
  }

  ghost predicate SortedFile(s: seq<Tacct>, u: bool) {
    && (forall k :: 0 <= k < |s| ==> s[k].name != [])
    && (forall j, k :: 0 <= j <= k < |s| ==> Cmp(s[j], s[k], u) <= 0)
  }

  // --- sums ---

  function If(b: bool, a: Amounts): Amounts { if b then a else ZERO }

  /** The amounts of all records with the key of `r`. */
  function Sum(s: seq<Tacct>, r: Tacct, u: bool): Amounts {
    if s == [] then ZERO else Plus(If(Cmp(s[0], r, u) == 0, s[0].amounts), Sum(s[1..], r, u))
  }

  function SumAll(files: seq<seq<Tacct>>, r: Tacct, u: bool): Amounts {
    if files == [] then ZERO else Plus(Sum(files[0], r, u), SumAll(files[1..], r, u))
  }

  /** The amounts of all records. */
  function Grand(s: seq<Tacct>): Amounts {
    if s == [] then ZERO else Plus(s[0].amounts, Grand(s[1..]))
  }

  function GrandAll(files: seq<seq<Tacct>>): Amounts {
    if files == [] then ZERO else Plus(Grand(files[0]), GrandAll(files[1..]))
  }

  ghost predicate In(files: seq<seq<Tacct>>, x: Tacct) {
    exists f :: 0 <= f < |files| && x in files[f]
  }

  /** The files after the head of file `f` is taken. */
  function Taken(rest: seq<seq<Tacct>>, f: int): seq<seq<Tacct>>
    requires 0 <= f < |rest| && rest[f] != []
  {
    rest[f := rest[f][1..]]
  }

  lemma Front(p: Amounts, a: Amounts, b: Amounts)
    ensures Plus(a, Plus(p, b)) == Plus(p, Plus(a, b)) && Plus(Plus(p, a), b) == Plus(p, Plus(a, b))
  {
    hide Plus;
    PlusLaws(a, p, b);
    PlusLaws(p, a, b);
  }

  lemma {:induction false} TakenSum(rest: seq<seq<Tacct>>, f: int, r: Tacct, u: bool)
    requires 0 <= f < |rest| && rest[f] != []
    ensures SumAll(rest, r, u) == Plus(If(Cmp(rest[f][0], r, u) == 0, rest[f][0].amounts), SumAll(Taken(rest, f), r, u))
    decreases f
  {
    hide Plus, Cmp;
    var p := If(Cmp(rest[f][0], r, u) == 0, rest[f][0].amounts);
    if f == 0 {
      assert Taken(rest, f)[1..] == rest[1..];
      Front(p, Sum(rest[0][1..], r, u), SumAll(rest[1..], r, u));
    } else {
      assert Taken(rest, f)[1..] == Taken(rest[1..], f - 1);
      TakenSum(rest[1..], f - 1, r, u);
      Front(p, Sum(rest[0], r, u), SumAll(Taken(rest[1..], f - 1), r, u));
    }
  }

  lemma {:induction false} TakenGrand(rest: seq<seq<Tacct>>, f: int)
    requires 0 <= f < |rest| && rest[f] != []
    ensures GrandAll(rest) == Plus(rest[f][0].amounts, GrandAll(Taken(rest, f)))
    decreases f
  {
    hide Plus;
    var p := rest[f][0].amounts;
    if f == 0 {
      assert Taken(rest, f)[1..] == rest[1..];
      Front(p, Grand(rest[0][1..]), GrandAll(rest[1..]));
    } else {
      assert Taken(rest, f)[1..] == Taken(rest[1..], f - 1);
      TakenGrand(rest[1..], f - 1);
      Front(p, Grand(rest[0]), GrandAll(Taken(rest[1..], f - 1)));
    }
  }

  // --- what is done and what is left ---

  ghost predicate BalancedFor(done: seq<Tacct>, rest: seq<seq<Tacct>>, inputs: seq<seq<Tacct>>, r: Tacct, u: bool) {
    Plus(Sum(done, r, u), SumAll(rest, r, u)) == SumAll(inputs, r, u)
  }

  /** Nothing is lost between the records done and the files left. */
  ghost predicate Balanced(done: seq<Tacct>, rest: seq<seq<Tacct>>, inputs: seq<seq<Tacct>>, u: bool) {
    && (forall r :: BalancedFor(done, rest, inputs, r, u))
    && Plus(Grand(done), GrandAll(rest)) == GrandAll(inputs)
    && (forall x :: x in done || In(rest, x) <==> In(inputs, x))
    && |rest| == |inputs| && forall f :: 0 <= f < |rest| ==> ReadFrom(done, rest[f], inputs[f])
  }

  /** What is left of a file is its end, and the records before it are done. */
  ghost predicate ReadFrom(done: seq<Tacct>, left: seq<Tacct>, file: seq<Tacct>) {
    exists n :: ReadUpTo(done, left, file, n)
  }

  ghost predicate ReadUpTo(done: seq<Tacct>, left: seq<Tacct>, file: seq<Tacct>, n: int) {
    0 <= n <= |file| && left == file[n..] && forall i :: 0 <= i < n ==> file[i] in done
  }

  lemma ReadOn(done: seq<Tacct>, left: seq<Tacct>, file: seq<Tacct>, x: Tacct)
    requires ReadFrom(done, left, file)
    ensures ReadFrom([x] + done, left, file)
    ensures left != [] && left[0] == x ==> ReadFrom([x] + done, left[1..], file)
  {
    var n :| ReadUpTo(done, left, file, n);
    forall i | 0 <= i < n ensures file[i] in [x] + done { assert file[i] in done; }
    assert ReadUpTo([x] + done, left, file, n);
    if left != [] && left[0] == x {
      assert file[n] == x && x in [x] + done;
      assert ReadUpTo([x] + done, left[1..], file, n + 1);
    }
  }

  lemma Untouched(inputs: seq<seq<Tacct>>, u: bool)
    ensures Balanced([], inputs, inputs, u)
  {
    hide Plus;
    forall r ensures BalancedFor([], inputs, inputs, r, u) {
      PlusLaws(ZERO, SumAll(inputs, r, u), ZERO);
      PlusLaws(SumAll(inputs, r, u), ZERO, ZERO);
    }
    PlusLaws(ZERO, GrandAll(inputs), ZERO);
    PlusLaws(GrandAll(inputs), ZERO, ZERO);
    forall f | 0 <= f < |inputs| ensures ReadFrom([], inputs[f], inputs[f]) {
      assert ReadUpTo([], inputs[f], inputs[f], 0);
    }
  }

  lemma TakenIn(rest: seq<seq<Tacct>>, f: int, x: Tacct)
    requires 0 <= f < |rest| && rest[f] != []
    ensures In(rest, x) <==> x == rest[f][0] || In(Taken(rest, f), x)
  {
    var t := Taken(rest, f);
    if In(rest, x) && x != rest[f][0] {
      var g :| 0 <= g < |rest| && x in rest[g];
      assert x in t[g];
    }
    if In(t, x) {
      var g :| 0 <= g < |t| && x in t[g];
      assert x in rest[g];
    }
  }

  lemma Take(done: seq<Tacct>, rest: seq<seq<Tacct>>, inputs: seq<seq<Tacct>>, f: int, u: bool)
    requires Balanced(done, rest, inputs, u) && 0 <= f < |rest| && rest[f] != []
    ensures Balanced([rest[f][0]] + done, Taken(rest, f), inputs, u)
  {
    hide Plus, Cmp, SumAll, GrandAll, In, ReadFrom;
    var x, d, t := rest[f][0], [rest[f][0]] + done, Taken(rest, f);
    assert d[1..] == done;
    forall r ensures BalancedFor(d, t, inputs, r, u) {
      assert BalancedFor(done, rest, inputs, r, u);
      TakenSum(rest, f, r, u);
      Front(If(Cmp(x, r, u) == 0, x.amounts), Sum(done, r, u), SumAll(t, r, u));
    }
    TakenGrand(rest, f);
    Front(x.amounts, Grand(done), GrandAll(t));
    forall y ensures y in d || In(t, y) <==> In(inputs, y) {
      TakenIn(rest, f, y);
    }
    forall g | 0 <= g < |t| ensures ReadFrom(d, t[g], inputs[g]) {
      ReadOn(done, rest[g], inputs[g], x);
    }
  }

  // --- the output ---

  ghost predicate Covered(sums: seq<Tacct>, x: Tacct, u: bool) {
    exists k :: 0 <= k < |sums| && Cmp(sums[k], x, u) == 0
  }

  ghost predicate Backed(done: seq<Tacct>, r: Tacct, u: bool) {
    exists x :: x in done && Cmp(r, x, u) == 0
  }

  lemma BackedCons(x: Tacct, done: seq<Tacct>, r: Tacct, u: bool)
    ensures Backed(done, r, u) || Cmp(r, x, u) == 0 ==> Backed([x] + done, r, u)
  {
    hide Cmp;
    if Backed(done, r, u) {
      var y :| y in done && Cmp(r, y, u) == 0;
      assert y in [x] + done;
    }
    assert x in [x] + done;
  }

  /** One record per key, in order, with the sum of all records of that key. */
  ghost predicate Summed(sums: seq<Tacct>, done: seq<Tacct>, u: bool) {
    && (forall j, k :: 0 <= j < k < |sums| ==> Cmp(sums[j], sums[k], u) < 0)
    && (forall k :: 0 <= k < |sums| ==> sums[k].amounts == Sum(done, sums[k], u))
    && (forall x :: x in done ==> Covered(sums, x, u))
    && (forall k :: 0 <= k < |sums| ==> Backed(done, sums[k], u))
  }

  /** `o` comes before everything in these files. */
  ghost predicate Ahead(o: Tacct, file: seq<Tacct>, u: bool) {
    forall k :: 0 <= k < |file| ==> Cmp(o, file[k], u) < 0
  }

  ghost predicate AllAhead(sums: seq<Tacct>, rest: seq<seq<Tacct>>, u: bool) {
    forall j, f :: 0 <= j < |sums| && 0 <= f < |rest| ==> Ahead(sums[j], rest[f], u)
  }

  /** The result of a merge: the keys of the output strictly increase, every record of an input has its key
      in the output, and every output record is the sum of all input records with its key. */
  ghost predicate IsMerge(sums: seq<Tacct>, inputs: seq<seq<Tacct>>, u: bool) {
    && (forall j, k :: 0 <= j < k < |sums| ==> Cmp(sums[j], sums[k], u) < 0)
    && (forall k :: 0 <= k < |sums| ==> sums[k].amounts == SumAll(inputs, sums[k], u))
    && (forall x :: In(inputs, x) ==> Covered(sums, x, u))
    && (forall k :: 0 <= k < |sums| ==> exists x :: In(inputs, x) && Cmp(sums[k], x, u) == 0)
    && (forall k :: 0 <= k < |sums| ==> Named(inputs, sums[k], u))
  }

  /** Record `i` of file `f` is the first with the key of `o`, file by file, and has its uid and name. */
  ghost predicate IsFirst(inputs: seq<seq<Tacct>>, f: int, i: int, o: Tacct, u: bool) {
    && 0 <= f < |inputs| && 0 <= i < |inputs[f]| && inputs[f][i].uid == o.uid && inputs[f][i].name == o.name
    && (forall j :: 0 <= j < i ==> Cmp(inputs[f][j], o, u) != 0)
    && (forall g, j :: 0 <= g < f && 0 <= j < |inputs[g]| ==> Cmp(inputs[g][j], o, u) != 0)
  }

  ghost predicate Named(inputs: seq<seq<Tacct>>, o: Tacct, u: bool) { exists f, i :: IsFirst(inputs, f, i, o, u) }

  /** A sum has the name of the first record of its key. */
  lemma StartNamed(sums: seq<Tacct>, done: seq<Tacct>, rest: seq<seq<Tacct>>, inputs: seq<seq<Tacct>>, f: int, u: bool)
    requires Summed(sums, done, u) && AllAhead(sums, rest, u) && Balanced(done, rest, inputs, u)
    requires 0 <= f < |rest| && rest[f] != [] && forall g :: 0 <= g < f ==> Ahead(rest[f][0], rest[g], u)
    ensures Named(inputs, rest[f][0], u)
  {
    hide Plus, Cmp, Sum, SumAll, In, BalancedFor, Backed, Grand, GrandAll;
    var x := rest[f][0];
    forall k | 0 <= k < |sums| ensures Cmp(sums[k], x, u) < 0 {
      assert Ahead(sums[k], rest[f], u);
      AheadHead(sums[k], rest[f], u);
    }
    NewKey(sums, done, x, u);
    assert ReadFrom(done, rest[f], inputs[f]);
    var n :| ReadUpTo(done, rest[f], inputs[f], n);
    assert inputs[f][n] == x;
    forall j | 0 <= j < n ensures Cmp(inputs[f][j], x, u) != 0 { assert inputs[f][j] in done; }
    forall g, j | 0 <= g < f && 0 <= j < |inputs[g]| ensures Cmp(inputs[g][j], x, u) != 0 {
      assert ReadFrom(done, rest[g], inputs[g]);
      NotBefore(done, rest[g], inputs[g], x, j, u);
    }
    assert IsFirst(inputs, f, n, x, u);
  }

  lemma NotBefore(done: seq<Tacct>, left: seq<Tacct>, file: seq<Tacct>, x: Tacct, j: int, u: bool)
    requires ReadFrom(done, left, file) && Ahead(x, left, u) && 0 <= j < |file|
    requires forall y :: y in done ==> Cmp(y, x, u) != 0
    ensures Cmp(file[j], x, u) != 0
  {
    hide Cmp;
    var n :| ReadUpTo(done, left, file, n);
    if j < n {
      assert file[j] in done;
    } else {
      assert file[j] == left[j - n];
      KeyOrder(x, file[j], x, u);
    }
  }

  lemma SameNamed(inputs: seq<seq<Tacct>>, a: Tacct, b: Tacct, u: bool)
    requires a.uid == b.uid && a.name == b.name && Named(inputs, a, u)
    ensures Named(inputs, b, u)
  {
    hide Cmp;
    SameCmp(a, b, u);
    var f, i :| IsFirst(inputs, f, i, a, u);
    assert IsFirst(inputs, f, i, b, u);
  }

  // --- adding up one key ---

  /** Every record of the file has the key of `o` or a later one. */
  ghost predicate NotBehind(o: Tacct, file: seq<Tacct>, u: bool) {
    forall k :: 0 <= k < |file| ==> Cmp(o, file[k], u) <= 0
  }

  /** `tc` is the sum of its key so far; before file `tp` there is no more of it. */
  ghost predicate Adding(sums: seq<Tacct>, tc: Tacct, done: seq<Tacct>, rest: seq<seq<Tacct>>, tp: int, u: bool) {
    && (forall j, k :: 0 <= j < k < |sums| ==> Cmp(sums[j], sums[k], u) < 0)
    && (forall k :: 0 <= k < |sums| ==> sums[k].amounts == Sum(done, sums[k], u))
    && (forall k :: 0 <= k < |sums| ==> Backed(done, sums[k], u))
    && (forall k :: 0 <= k < |sums| ==> Cmp(sums[k], tc, u) < 0)
    && (forall x :: x in done ==> Cmp(tc, x, u) == 0 || Covered(sums, x, u))
    && tc.amounts == Sum(done, tc, u) && Backed(done, tc, u)
    && AllAhead(sums, rest, u)
    && (forall f :: 0 <= f < |rest| ==> if f < tp then Ahead(tc, rest[f], u) else NotBehind(tc, rest[f], u))
  }

  lemma {:induction false} SumNone(s: seq<Tacct>, r: Tacct, u: bool)
    requires forall x :: x in s ==> Cmp(x, r, u) != 0
    ensures Sum(s, r, u) == ZERO
  {
    hide Plus, Cmp;
    if s != [] {
      assert s[0] in s;
      SumNone(s[1..], r, u);
      PlusLaws(ZERO, ZERO, ZERO);
    }
  }

  lemma {:induction false} SumSameKey(s: seq<Tacct>, q: Tacct, r: Tacct, u: bool)
    requires q.uid == r.uid && q.name == r.name
    ensures Sum(s, q, u) == Sum(s, r, u)
  {
    hide Plus, Strcmp;
    if s != [] { SumSameKey(s[1..], q, r, u); }
  }

  lemma SumCons(x: Tacct, s: seq<Tacct>, r: Tacct, u: bool)
    ensures Sum([x] + s, r, u) == Plus(If(Cmp(x, r, u) == 0, x.amounts), Sum(s, r, u))
  {
    assert ([x] + s)[1..] == s;
  }

  /** A record of another key does not change the sum. */
  lemma SumOther(x: Tacct, s: seq<Tacct>, r: Tacct, u: bool)
    requires Cmp(r, x, u) < 0
    ensures Sum([x] + s, r, u) == Sum(s, r, u)
  {
    hide Plus, Cmp;
    KeyOrder(r, x, x, u);
    SumCons(x, s, r, u);
    PlusLaws(Sum(s, r, u), ZERO, ZERO);
  }

  lemma TakenFile(rest: seq<seq<Tacct>>, f: int, g: int, o: Tacct, u: bool)
    requires 0 <= f < |rest| && 0 <= g < |rest| && rest[f] != []
    ensures Ahead(o, rest[g], u) ==> Ahead(o, Taken(rest, f)[g], u)
    ensures NotBehind(o, rest[g], u) ==> NotBehind(o, Taken(rest, f)[g], u)
  {
    hide Cmp;
  }

  /** The records done have earlier keys. */
  lemma NewKey(sums: seq<Tacct>, done: seq<Tacct>, r: Tacct, u: bool)
    requires (forall x :: x in done ==> Covered(sums, x, u)) && forall k :: 0 <= k < |sums| ==> Cmp(sums[k], r, u) < 0
    ensures forall x :: x in done ==> Cmp(x, r, u) != 0
  {
    hide Cmp;
    forall x | x in done ensures Cmp(x, r, u) != 0 {
      var k :| 0 <= k < |sums| && Cmp(sums[k], x, u) == 0;
      KeyOrder(r, x, sums[k], u);
    }
  }

  /** The first record of a key: the head of the first file that has the least key. */
  lemma StartKey(sums: seq<Tacct>, done: seq<Tacct>, rest: seq<seq<Tacct>>, f: int, u: bool)
    requires Summed(sums, done, u) && AllAhead(sums, rest, u) && 0 <= f < |rest| && rest[f] != []
    requires forall g :: 0 <= g < |rest| ==> if g < f then Ahead(rest[f][0], rest[g], u)
        else NotBehind(rest[f][0], rest[g], u)
    ensures Adding(sums, rest[f][0], [rest[f][0]] + done, Taken(rest, f), f, u)
  {
    hide Plus, Cmp, Sum, Ahead, NotBehind, Backed;
    var x := rest[f][0];
    var d, t := [x] + done, Taken(rest, f);
    forall k | 0 <= k < |sums| ensures Cmp(sums[k], x, u) < 0 && sums[k].amounts == Sum(d, sums[k], u) {
      assert Ahead(sums[k], rest[f], u);
      AheadHead(sums[k], rest[f], u);
      SumOther(x, done, sums[k], u);
    }
    forall k | 0 <= k < |sums| ensures Backed(d, sums[k], u) {
      BackedCons(x, done, sums[k], u);
    }
    NewKey(sums, done, x, u);
    SumNone(done, x, u);
    SumCons(x, done, x, u);
    KeyOrder(x, x, x, u);
    PlusLaws(x.amounts, ZERO, ZERO);
    BackedCons(x, done, x, u);
    forall j, g | 0 <= j < |sums| && 0 <= g < |t| ensures Ahead(sums[j], t[g], u) {
      TakenFile(rest, f, g, sums[j], u);
    }
    forall g | 0 <= g < |t| ensures if g < f then Ahead(x, t[g], u) else NotBehind(x, t[g], u) {
      TakenFile(rest, f, g, x, u);
    }
  }

  lemma AheadHead(o: Tacct, file: seq<Tacct>, u: bool)
    requires Ahead(o, file, u) && file != []
    ensures Cmp(o, file[0], u) < 0
  {
  }

  /** One record more of the key. */
  lemma AddOne(sums: seq<Tacct>, tc: Tacct, done: seq<Tacct>, rest: seq<seq<Tacct>>, tp: int, u: bool)
    requires Adding(sums, tc, done, rest, tp, u) && 0 <= tp < |rest| && rest[tp] != [] && Cmp(rest[tp][0], tc, u) == 0
    ensures var x := rest[tp][0];
            Adding(sums, tc.(amounts := Plus(tc.amounts, x.amounts)), [x] + done, Taken(rest, tp), tp, u)
  {
    hide Plus, Cmp, Sum, Ahead, NotBehind, Backed, Covered;
    var x := rest[tp][0];
    var d, t, tc1 := [x] + done, Taken(rest, tp), tc.(amounts := Plus(tc.amounts, x.amounts));
    SameCmp(tc, tc1, u);
    forall k | 0 <= k < |sums| ensures sums[k].amounts == Sum(d, sums[k], u) {
      assert Ahead(sums[k], rest[tp], u);
      AheadHead(sums[k], rest[tp], u);
      SumOther(x, done, sums[k], u);
    }
    forall k | 0 <= k < |sums| ensures Backed(d, sums[k], u) {
      BackedCons(x, done, sums[k], u);
    }
    SumSameKey(d, tc, tc1, u);
    SumCons(x, done, tc, u);
    PlusLaws(x.amounts, tc.amounts, ZERO);
    KeyOrder(x, tc, tc, u);
    BackedCons(x, done, tc1, u);
    forall j, g | 0 <= j < |sums| && 0 <= g < |t| ensures Ahead(sums[j], t[g], u) {
      TakenFile(rest, tp, g, sums[j], u);
    }
    forall g | 0 <= g < |t| ensures if g < tp then Ahead(tc1, t[g], u) else NotBehind(tc1, t[g], u) {
      SameAhead(tc, tc1, rest[g], u);
      TakenFile(rest, tp, g, tc1, u);
    }
  }

  lemma SameCmp(a: Tacct, b: Tacct, u: bool)
    requires a.uid == b.uid && a.name == b.name
    ensures forall x :: Cmp(a, x, u) == Cmp(b, x, u)
    ensures forall x :: Cmp(x, a, u) == Cmp(x, b, u)
  {
    hide Strcmp;
  }

  lemma SameAhead(a: Tacct, b: Tacct, file: seq<Tacct>, u: bool)
    requires a.uid == b.uid && a.name == b.name
    ensures Ahead(a, file, u) ==> Ahead(b, file, u)
    ensures NotBehind(a, file, u) ==> NotBehind(b, file, u)
  {
    hide Cmp;
    SameCmp(a, b, u);
  }

  /** No more of the key in this file. */
  lemma NextFile(sums: seq<Tacct>, tc: Tacct, done: seq<Tacct>, rest: seq<seq<Tacct>>, tp: int, u: bool)
    requires Adding(sums, tc, done, rest, tp, u) && 0 <= tp < |rest| && SortedFile(rest[tp], u)
    requires rest[tp] != [] ==> Cmp(rest[tp][0], tc, u) != 0
    ensures Adding(sums, tc, done, rest, tp + 1, u)
  {
    hide Plus, Cmp, Sum, AllAhead;
    forall k | 0 <= k < |rest[tp]| ensures Cmp(tc, rest[tp][k], u) < 0 {
      assert NotBehind(tc, rest[tp], u);
      KeyOrder(tc, rest[tp][0], rest[tp][k], u);
      assert Cmp(tc, rest[tp][0], u) <= 0;
      assert Cmp(rest[tp][0], rest[tp][k], u) <= 0;
    }
  }

  /** The key is complete. */
  lemma EndKey(sums: seq<Tacct>, tc: Tacct, done: seq<Tacct>, rest: seq<seq<Tacct>>, u: bool)
    requires Adding(sums, tc, done, rest, |rest|, u)
    ensures Summed(sums + [tc], done, u) && AllAhead(sums + [tc], rest, u)
  {
    hide Plus, Cmp, Sum, Ahead, NotBehind, Backed, Covered;
    forall x | x in done ensures Covered(sums + [tc], x, u) {
      CoveredSnoc(sums, tc, x, u);
    }
  }

  lemma CoveredSnoc(sums: seq<Tacct>, tc: Tacct, x: Tacct, u: bool)
    requires Cmp(tc, x, u) == 0 || Covered(sums, x, u)
    ensures Covered(sums + [tc], x, u)
  {
    hide Cmp;
    var t := sums + [tc];
    if Cmp(tc, x, u) == 0 {
      assert Cmp(t[|sums|], x, u) == 0;
    } else {
      var k :| 0 <= k < |sums| && Cmp(sums[k], x, u) == 0;
      assert Cmp(t[k], x, u) == 0;
    }
  }

  /** Everything has been read. */
  lemma EndMerge(sums: seq<Tacct>, done: seq<Tacct>, rest: seq<seq<Tacct>>, inputs: seq<seq<Tacct>>, u: bool)
    requires Summed(sums, done, u) && Balanced(done, rest, inputs, u) && forall f :: 0 <= f < |rest| ==> rest[f] == []
    requires forall k :: 0 <= k < |sums| ==> Named(inputs, sums[k], u)
    ensures IsMerge(sums, inputs, u)
    ensures Grand(done) == GrandAll(inputs)
  {
    hide Plus, Cmp, Sum, Covered, Named, ReadFrom;
    forall k | 0 <= k < |sums| ensures sums[k].amounts == SumAll(inputs, sums[k], u) {
      assert BalancedFor(done, rest, inputs, sums[k], u);
      NoFiles(rest, sums[k], u);
      PlusLaws(Sum(done, sums[k], u), ZERO, ZERO);
    }
    forall x ensures x in done <==> In(inputs, x) {
      assert !In(rest, x);
    }
    forall k | 0 <= k < |sums| ensures exists x :: In(inputs, x) && Cmp(sums[k], x, u) == 0 {
      assert Backed(done, sums[k], u);
      var x :| x in done && Cmp(sums[k], x, u) == 0;
      assert In(inputs, x);
    }
    NoFiles(rest, NONE, u);
    PlusLaws(Grand(done), ZERO, ZERO);
    assert forall k :: 0 <= k < |sums| ==> sums[k].amounts == SumAll(inputs, sums[k], u);
    assert forall x :: In(inputs, x) ==> Covered(sums, x, u);
  }

  lemma {:induction false} NoFiles(rest: seq<seq<Tacct>>, r: Tacct, u: bool)
    requires forall f :: 0 <= f < |rest| ==> rest[f] == []
    ensures SumAll(rest, r, u) == ZERO && GrandAll(rest) == ZERO
  {
    hide Plus;
    if rest != [] {
      assert rest[0] == [];
      NoFiles(rest[1..], r, u);
      PlusLaws(ZERO, ZERO, ZERO);
    }
  }

  // --- the program ---

  class Merger {
    const uidsum: bool
    const totalonly: bool
    const tb: array<Tacct>
    const fl: array<seq<Tacct>>
    var tt: Tacct
    var out: seq<Tacct>

    constructor (files: seq<seq<Tacct>>, uidsum: bool, totalonly: bool)
      requires forall i :: 0 <= i < |files| ==> SortedFile(files[i], uidsum)
      ensures this.uidsum == uidsum && this.totalonly == totalonly && fresh(tb) && fresh(fl)
      ensures tb.Length == fl.Length == |files| && fl[..] == files && tt == Tacct(0, TOTAL, ZERO) && out == []
      ensures forall i :: 0 <= i < tb.Length ==> tb[i].name == []
    {
      this.uidsum, this.totalonly := uidsum, totalonly;
      tb := new Tacct[|files|](_ => NONE);
      fl := new seq<Tacct>[|files|](i requires 0 <= i < |files| => files[i]);
      tt, out := Tacct(0, TOTAL, ZERO), [];
    }

    /** What is left of a file: the current record and what has not been read. */
    ghost function File(i: int): seq<Tacct>
      requires 0 <= i < tb.Length == fl.Length
      reads tb, fl
    {
      if tb[i].name == [] then fl[i] else [tb[i]] + fl[i]
    }

    ghost function Rest(): (rest: seq<seq<Tacct>>)
      requires tb.Length == fl.Length
      reads tb, fl
      ensures |rest| == tb.Length
    {
      seq(tb.Length, i requires 0 <= i < tb.Length reads tb, fl => File(i))
    }

    /** A file without a current record is at its end. */
    ghost predicate Valid()
      reads tb, fl
    {
      && tb.Length == fl.Length
      && forall i :: 0 <= i < tb.Length ==> SortedFile(File(i), uidsum) && (tb[i].name == [] ==> fl[i] == [])
    }

    /** getnext: reading on takes the current record away; the first reading takes nothing away. */
    method GetNext(i: int) returns (r: int)
      requires 0 <= i < tb.Length == fl.Length && SortedFile(File(i), uidsum)
          && (tb[i].name == [] || SortedFile(fl[i], uidsum))
      modifies tb, fl
      ensures r == if tb[i].name == [] then 0 else 1
      ensures forall k :: 0 <= k < tb.Length && k != i ==> tb[k] == old(tb[k]) && fl[k] == old(fl[k])
      ensures tb[i].name == [] ==> fl[i] == []
      ensures Rest() == if old(tb[i].name) == [] then old(Rest()) else Taken(old(Rest()), i)
    {
      ghost var rest, file := Rest(), fl[i];
      tb[i] := tb[i].(name := []);
      if fl[i] == [] {
        r := 0;
      } else {
        assert SortedFile(fl[i], uidsum);
        assert fl[i][0].name != [];
        tb[i] := fl[i][0];
        fl[i] := fl[i][1..];
        r := 1;
      }
      assert File(i) == file;
      assert Rest() == rest[i := file];
      assert old(tb[i].name) != [] ==> rest[i] == [old(tb[i])] + file && rest[i][1..] == file;
      assert old(tb[i].name) == [] ==> rest[i] == file;
    }

    /** getleast: the first of the current records with the least key, -1 if there is none. */
    method GetLeast() returns (least: int)
      requires Valid()
      ensures -1 <= least < tb.Length
      ensures least == -1 ==> forall f :: 0 <= f < tb.Length ==> Rest()[f] == []
      ensures least >= 0 ==> tb[least].name != [] && Rest()[least] != [] && Rest()[least][0] == tb[least]
      ensures least >= 0 ==> forall f :: 0 <= f < tb.Length ==>
                if f < least then Ahead(tb[least], Rest()[f], uidsum) else NotBehind(tb[least], Rest()[f], uidsum)
    {
      hide Cmp, Strcmp, SortedFile, Ahead, NotBehind, LeastOf, Rest, File, Valid;
      least := -1;
      var tp := 0;
      NoneYet(tb[..], uidsum);
      while tp < tb.Length
        invariant 0 <= tp <= tb.Length && -1 <= least < tp && LeastOf(tb[..], tp, least, uidsum)
      {
        ghost var was := least;
        if tb[tp].name != [] {
          if least == -1 || tb[tp].uid < tb[least].uid
             || (tb[tp].uid == tb[least].uid && !uidsum && Strcmp(tb[tp].name, tb[least].name) < 0) {
            least := tp;
          }
          if was >= 0 { CmpLess(tb[tp], tb[was], uidsum); }
        }
        LeastStep(tb[..], tp, was, least, uidsum);
        tp := tp + 1;
      }
      LeastHead(least);
    }

    /** The least current record is the least of all that is left. */
    lemma LeastHead(least: int)
      requires Valid() && LeastOf(tb[..], tb.Length, least, uidsum)
      ensures -1 <= least < tb.Length
      ensures least == -1 ==> forall f :: 0 <= f < tb.Length ==> Rest()[f] == []
      ensures least >= 0 ==> tb[least].name != [] && Rest()[least] != [] && Rest()[least][0] == tb[least]
      ensures least >= 0 ==> forall f :: 0 <= f < tb.Length ==>
                if f < least then Ahead(tb[least], Rest()[f], uidsum) else NotBehind(tb[least], Rest()[f], uidsum)
    {
      hide Cmp, SortedFile, Ahead, NotBehind, LeastOf, Rest, File;
      LeastBounds(tb[..], tb.Length, least, uidsum);
      if least >= 0 { Current(least); }
      forall f | 0 <= f < tb.Length
        ensures least == -1 ==> Rest()[f] == []
        ensures least >= 0 ==>
                  if f < least then Ahead(tb[least], Rest()[f], uidsum) else NotBehind(tb[least], Rest()[f], uidsum)
      {
        Current(f);
        LeastAt(tb[..], tb.Length, least, f, uidsum);
        if least >= 0 { HeadDecides(tb[least], Rest()[f], uidsum); }
      }
    }

    lemma Current(i: int)
      requires Valid() && 0 <= i < tb.Length
      ensures tb.Length == fl.Length && SortedFile(Rest()[i], uidsum)
      ensures if tb[i].name == [] then Rest()[i] == [] else Rest()[i] != [] && Rest()[i][0] == tb[i]
    {
      hide SortedFile;
      assert Rest()[i] == File(i);
    }

    /** sumcurr: all records of the least key are added up, file by file. */
    method SumCurr(tp0: int, ghost sums: seq<Tacct>, ghost done0: seq<Tacct>, ghost inputs: seq<seq<Tacct>>)
      returns (ghost tc: Tacct, ghost done: seq<Tacct>)
      requires Valid() && 0 <= tp0 < tb.Length && tb[tp0].name != [] && Rest()[tp0] != [] && Rest()[tp0][0] == tb[tp0]
      requires forall f :: 0 <= f < tb.Length ==>
                 if f < tp0 then Ahead(tb[tp0], Rest()[f], uidsum) else NotBehind(tb[tp0], Rest()[f], uidsum)
      requires State(sums, done0, Rest(), inputs, uidsum) && tt.amounts == Grand(done0)
      modifies this`tt, this`out, tb, fl
      ensures Valid() && State(sums + [tc], done, Rest(), inputs, uidsum) && tt == old(tt).(amounts := Grand(done))
      ensures out == if totalonly then old(out) else old(out) + [tc]
      ensures Count(Rest()) < old(Count(Rest()))
    {
      hide Cmp, SortedFile, Ahead, NotBehind, Summed, AllAhead, Balanced, Adding, Grand, Plus, Count, Taken, Valid,
           Rest, File, Named;
      var t := tb[tp0];
      var tp := tp0;
      Current(tp);
      tt := tt.(amounts := Plus(tt.amounts, t.amounts));
      StartKey(sums, done0, Rest(), tp, uidsum);
      StartNamed(sums, done0, Rest(), inputs, tp, uidsum);
      Took(done0, Rest(), inputs, tp, uidsum);
      GrandTook(done0, tb[tp]);
      done := [t] + done0;
      var r := Next(tp);
      while tp < tb.Length
        invariant Valid() && 0 <= tp <= tb.Length
        invariant Adding(sums, t, done, Rest(), tp, uidsum) && Balanced(done, Rest(), inputs, uidsum)
        invariant Named(inputs, t, uidsum)
        invariant tt == old(tt).(amounts := Grand(done)) && out == old(out)
        invariant Count(Rest()) < old(Count(Rest()))
        decreases Count(Rest()), tb.Length - tp
      {
        CmpLess(tb[tp], t, uidsum);
        Current(tp);
        if tb[tp].name != [] && tb[tp].uid == t.uid && (uidsum || tb[tp].name == t.name) {
          ghost var was := t;
          t, done := AddCurrent(tp, t, sums, done, inputs);
          SameNamed(inputs, was, t, uidsum);
        } else {
          NextFile(sums, t, done, Rest(), tp, uidsum);
          tp := tp + 1;
        }
      }
      EndKey(sums, t, done, Rest(), uidsum);
      if !totalonly {
        out := out + [t];
      }
      tc := t;
    }

    /** One more record of the key is added and the file read on. */
    method AddCurrent(tp: int, t0: Tacct, ghost sums: seq<Tacct>, ghost done0: seq<Tacct>,
        ghost inputs: seq<seq<Tacct>>)
      returns (t: Tacct, ghost done: seq<Tacct>)
      requires Valid() && 0 <= tp < tb.Length && tb[tp].name != [] && Cmp(tb[tp], t0, uidsum) == 0
      requires Adding(sums, t0, done0, Rest(), tp, uidsum) && Balanced(done0, Rest(), inputs, uidsum)
      requires tt.amounts == Grand(done0)
      modifies this`tt, tb, fl
      ensures Valid() && Adding(sums, t, done, Rest(), tp, uidsum) && Balanced(done, Rest(), inputs, uidsum)
      ensures tt == old(tt).(amounts := Grand(done)) && Count(Rest()) < old(Count(Rest()))
      ensures t.uid == t0.uid && t.name == t0.name
    {
      hide Cmp, SortedFile, Ahead, NotBehind, Summed, AllAhead, Balanced, Adding, Grand, Plus, Count, Taken, Valid,
           Rest, File;
      Current(tp);
      AddOne(sums, t0, done0, Rest(), tp, uidsum);
      Took(done0, Rest(), inputs, tp, uidsum);
      GrandTook(done0, tb[tp]);
      t := t0.(amounts := Plus(t0.amounts, tb[tp].amounts));
      tt := tt.(amounts := Plus(tt.amounts, tb[tp].amounts));
      done := [tb[tp]] + done0;
      var _ := Next(tp);
    }

    /** getnext on a file that has a current record. */
    method Next(i: int) returns (r: int)
      requires Valid() && 0 <= i < tb.Length && tb[i].name != []
      modifies tb, fl
      ensures Valid() && old(Rest()[i]) != [] && Rest() == Taken(old(Rest()), i)
    {
      SortedTail(File(i), uidsum);
      assert File(i)[1..] == fl[i];
      ghost var rest := Rest();
      r := GetNext(i);
      forall k | 0 <= k < tb.Length ensures SortedFile(File(k), uidsum) {
        assert File(k) == Rest()[k];
        if k != i { assert rest[k] == old(File(k)); }
      }
    }

    /** The program: what it writes is the merge of the files, or with -t the total of all records. */
    method Run(ghost inputs: seq<seq<Tacct>>) returns (ghost sums: seq<Tacct>)
      requires tb.Length == fl.Length == |inputs| && fl[..] == inputs && out == [] && tt == Tacct(0, TOTAL, ZERO)
      requires forall i :: 0 <= i < |inputs| ==> SortedFile(inputs[i], uidsum) && tb[i].name == []
      modifies this`tt, this`out, tb, fl
      ensures IsMerge(sums, inputs, uidsum)
      ensures out == if totalonly then [Tacct(0, TOTAL, GrandAll(inputs))] else sums
    {
      hide Cmp, SortedFile, State, Ahead, NotBehind, IsMerge, Grand, GrandAll, Count;
      var i := 0;
      assert Rest() == inputs;
      while i < tb.Length
        invariant 0 <= i <= tb.Length && Rest() == inputs && tt == Tacct(0, TOTAL, ZERO) && out == []
        invariant forall k :: 0 <= k < i ==> tb[k].name == [] ==> fl[k] == []
        invariant forall k :: i <= k < tb.Length ==> tb[k].name == []
      {
        assert File(i) == Rest()[i] == inputs[i];
        var r := GetNext(i);
        i := i + 1;
      }
      forall k | 0 <= k < tb.Length ensures SortedFile(File(k), uidsum) {
        assert File(k) == Rest()[k] == inputs[k];
      }
      sums := [];
      ghost var done := [];
      Beginning(inputs, uidsum);
      var tp := GetLeast();
      while tp != -1
        invariant Valid() && -1 <= tp < tb.Length && State(sums, done, Rest(), inputs, uidsum)
        invariant tt == Tacct(0, TOTAL, Grand(done)) && out == if totalonly then [] else sums
        invariant tp == -1 ==> forall f :: 0 <= f < tb.Length ==> Rest()[f] == []
        invariant tp >= 0 ==> tb[tp].name != [] && Rest()[tp] != [] && Rest()[tp][0] == tb[tp]
        invariant tp >= 0 ==> forall f :: 0 <= f < tb.Length ==>
                    if f < tp then Ahead(tb[tp], Rest()[f], uidsum) else NotBehind(tb[tp], Rest()[f], uidsum)
        decreases Count(Rest())
      {
        ghost var tc;
        tc, done := SumCurr(tp, sums, done, inputs);
        sums := sums + [tc];
        tp := GetLeast();
      }
      Ending(sums, done, Rest(), inputs, uidsum);
      if totalonly {
        out := out + [tt];
      }
    }
  }

  lemma Ending(sums: seq<Tacct>, done: seq<Tacct>, rest: seq<seq<Tacct>>, inputs: seq<seq<Tacct>>, u: bool)
    requires State(sums, done, rest, inputs, u) && forall f :: 0 <= f < |rest| ==> rest[f] == []
    ensures IsMerge(sums, inputs, u) && Grand(done) == GrandAll(inputs)
  {
    EndMerge(sums, done, rest, inputs, u);
  }

  lemma SortedTail(s: seq<Tacct>, u: bool)
    requires SortedFile(s, u) && s != []
    ensures SortedFile(s[1..], u)
  {
    hide Cmp;
  }

  /** Taking a record: nothing is lost, and the total grows by it. */
  lemma Took(done: seq<Tacct>, rest: seq<seq<Tacct>>, inputs: seq<seq<Tacct>>, f: int, u: bool)
    requires Balanced(done, rest, inputs, u) && 0 <= f < |rest| && rest[f] != []
    ensures Balanced([rest[f][0]] + done, Taken(rest, f), inputs, u)
    ensures Count(Taken(rest, f)) == Count(rest) - 1
  {
    hide Plus;
    Take(done, rest, inputs, f, u);
    TakenCount(rest, f);
  }

  lemma GrandTook(done: seq<Tacct>, x: Tacct)
    ensures Grand([x] + done) == Plus(Grand(done), x.amounts)
  {
    hide Plus;
    assert ([x] + done)[1..] == done;
    PlusLaws(Grand(done), x.amounts, ZERO);
  }

  /** A run of the program between two keys. */
  ghost predicate State(sums: seq<Tacct>, done: seq<Tacct>, rest: seq<seq<Tacct>>, inputs: seq<seq<Tacct>>, u: bool) {
    && Summed(sums, done, u) && AllAhead(sums, rest, u) && Balanced(done, rest, inputs, u)
    && forall k :: 0 <= k < |sums| ==> Named(inputs, sums[k], u)
  }

  lemma Beginning(inputs: seq<seq<Tacct>>, u: bool)
    ensures State([], [], inputs, inputs, u) && Grand([]) == ZERO
  {
    hide Cmp, Plus, Sum, Ahead;
    Untouched(inputs, u);
  }

  lemma CmpLess(a: Tacct, b: Tacct, u: bool)
    ensures Cmp(a, b, u) < 0 <==> a.uid < b.uid || (a.uid == b.uid && !u && Strcmp(a.name, b.name) < 0)
    ensures Cmp(a, b, u) == 0 <==> a.uid == b.uid && (u || a.name == b.name)
  {
    StrcmpLaws(a.name, b.name);
  }

  /** The records left. */
  function Count(rest: seq<seq<Tacct>>): nat {
    if rest == [] then 0 else |rest[0]| + Count(rest[1..])
  }

  lemma {:induction false} TakenCount(rest: seq<seq<Tacct>>, f: int)
    requires 0 <= f < |rest| && rest[f] != []
    ensures Count(Taken(rest, f)) == Count(rest) - 1
    decreases f
  {
    if f == 0 {
      assert Taken(rest, f)[1..] == rest[1..];
    } else {
      assert Taken(rest, f)[1..] == Taken(rest[1..], f - 1);
      TakenCount(rest[1..], f - 1);
    }
  }

  /** `least` is the first of the least records before `tp`, or -1 if there is none. */
  ghost predicate LeastOf(tb: seq<Tacct>, tp: int, least: int, u: bool) {
    && -1 <= least < tp <= |tb| && (least >= 0 ==> tb[least].name != [])
    && forall f :: 0 <= f < tp && tb[f].name != [] ==> Earlier(tb, least, f, u)
  }

  ghost predicate Earlier(tb: seq<Tacct>, least: int, f: int, u: bool)
    requires -1 <= least < |tb| && 0 <= f < |tb|
  {
    least >= 0 && if f < least then Cmp(tb[least], tb[f], u) < 0 else Cmp(tb[least], tb[f], u) <= 0
  }

  lemma NoneYet(tb: seq<Tacct>, u: bool)
    ensures LeastOf(tb, 0, -1, u)
  {
  }

  lemma LeastBounds(tb: seq<Tacct>, tp: int, least: int, u: bool)
    requires LeastOf(tb, tp, least, u)
    ensures -1 <= least < tp <= |tb| && (least >= 0 ==> tb[least].name != [])
  {
  }

  lemma LeastAt(tb: seq<Tacct>, tp: int, least: int, f: int, u: bool)
    requires LeastOf(tb, tp, least, u) && 0 <= f < tp
    ensures -1 <= least < tp <= |tb|
    ensures tb[f].name != [] ==>
              least >= 0 && if f < least then Cmp(tb[least], tb[f], u) < 0 else Cmp(tb[least], tb[f], u) <= 0
  {
    hide Cmp;
  }

  lemma LeastStep(tb: seq<Tacct>, tp: int, was: int, least: int, u: bool)
    requires LeastOf(tb, tp, was, u) && tp < |tb|
    requires least == if tb[tp].name != [] && (was == -1 || Cmp(tb[tp], tb[was], u) < 0) then tp else was
    ensures LeastOf(tb, tp + 1, least, u)
  {
    hide Cmp;
    forall f | 0 <= f < tp + 1 && tb[f].name != [] ensures Earlier(tb, least, f, u) {
      KeyOrder(tb[tp], tb[tp], tb[tp], u);
      if was >= 0 { KeyOrder(tb[tp], tb[was], tb[f], u); }
    }
  }

  /** In a sorted file the first record decides. */
  lemma HeadDecides(o: Tacct, file: seq<Tacct>, u: bool)
    requires SortedFile(file, u)
    ensures file == [] || Cmp(o, file[0], u) < 0 ==> Ahead(o, file, u)
    ensures file == [] || Cmp(o, file[0], u) <= 0 ==> NotBehind(o, file, u)
  {
    hide Cmp;
    forall k | 0 <= k < |file|
      ensures Cmp(o, file[0], u) < 0 ==> Cmp(o, file[k], u) < 0
      ensures Cmp(o, file[0], u) <= 0 ==> Cmp(o, file[k], u) <= 0
    {
      assert Cmp(file[0], file[k], u) <= 0;
      KeyOrder(o, file[0], file[k], u);
    }
  }

  /** From the files to what is written. */
  method Merge(files: seq<seq<Tacct>>, uidsum: bool, totalonly: bool) returns (out: seq<Tacct>)
    requires forall i :: 0 <= i < |files| ==> SortedFile(files[i], uidsum)
    ensures if totalonly then out == [Tacct(0, TOTAL, GrandAll(files))] else IsMerge(out, files, uidsum)
  {
    hide SortedFile, IsMerge, GrandAll;
    var merger := new Merger(files, uidsum, totalonly);
    ghost var sums := merger.Run(files);
    out := merger.out;
  }
}
