/** The command summary of cmd/acct/acctcms.c: an open-addressing table that records are added to, the
    folding of rare commands into one entry, and the squeezing out of the holes. */
module Commands {
  import opened Division

  /** The two columns are prime and non-prime time; floating point is taken as exact. */
  datatype Stats = Stats(pc0: int, pc1: int, cpu0: real, cpu1: real, real0: real, real1: real,
                         kcore0: real, kcore1: real, io0: real, io1: real, rw0: real, rw1: real)

  const ZERO: Stats := Stats(0, 0, 0.0, 0.0, 0.0, 0.0, 0.0, 0.0, 0.0, 0.0, 0.0, 0.0)

  /** pcmadd */
  function Plus(a: Stats, b: Stats): Stats {
    Stats(a.pc0 + b.pc0, a.pc1 + b.pc1, a.cpu0 + b.cpu0, a.cpu1 + b.cpu1, a.real0 + b.real0, a.real1 + b.real1,
          a.kcore0 + b.kcore0, a.kcore1 + b.kcore1, a.io0 + b.io0, a.io1 + b.io1, a.rw0 + b.rw0, a.rw1 + b.rw1)
  }

  lemma PlusLaws(a: Stats, b: Stats, c: Stats)
    ensures Plus(a, b) == Plus(b, a) && Plus(Plus(a, b), c) == Plus(a, Plus(b, c)) && Plus(a, ZERO) == a
  {
  }

  /** A slot; an empty name marks a free one. */
  datatype Entry = Entry(comm: seq<int>, stats: Stats)

  const EMPTY: Entry := Entry([], ZERO)

  /** A name as it lies in eight bytes, without the NULs that pad it. */
  ghost predicate Name(s: seq<int>) { 0 < |s| <= 8 && forall k :: 0 <= k < |s| ==> 0 < s[k] < 256 }

  /** Control characters become question marks. */
  function Cleaned(s: seq<int>): (t: seq<int>)
    ensures |t| == |s|
    ensures forall k :: 0 <= k < |s| ==> t[k] == if s[k] <= 31 then 63 else s[k]
  {
    seq(|s|, k requires 0 <= k < |s| => if s[k] <= 31 then 63 else s[k])
  }

  /** Two commands share a line if and only if their names differ only where both have a control character or
      a question mark; the name on the line has no control character. */
  lemma SharedName(s: seq<int>, t: seq<int>)
    ensures Cleaned(s) == Cleaned(t) <==>
              |s| == |t| && forall k :: 0 <= k < |s| ==>
                s[k] == t[k] || ((s[k] < 32 || s[k] == '?' as int) && (t[k] < 32 || t[k] == '?' as int))
    ensures forall k :: 0 <= k < |s| ==> Cleaned(s)[k] >= 32 && (s[k] >= 32 ==> Cleaned(s)[k] == s[k])
  {
    if Cleaned(s) == Cleaned(t) {
      forall k | 0 <= k < |s|
        ensures s[k] == t[k] || ((s[k] < 32 || s[k] == '?' as int) && (t[k] < 32 || t[k] == '?' as int))
      {
        assert Cleaned(s)[k] == Cleaned(t)[k];
      }
    }
  }

  /** The hash of the first `n` of the eight bytes. */
  function Hash(s: seq<int>, n: nat): int {
    if n == 0 then 0 else Hash(s, n - 1) * 7 + (if n <= |s| then s[n - 1] else 0)
  }

  lemma {:induction false} HashPositive(s: seq<int>, n: nat)
    requires Name(s)
    ensures Hash(s, n) >= 0
  {
    if n > 0 { HashPositive(s, n - 1); }
  }

  // --- probing ---

  /** The slot `e` places on from `h`. */
  function Probe(h: int, e: int, n: int): int
    requires n > 0
  {
    (h + e) % n
  }

  lemma ProbeStep(h: int, e: int, n: int)
    requires n > 0
    ensures (Probe(h, e, n) + 1) % n == Probe(h, e + 1, n) && 0 <= Probe(h, e, n) < n
  {
    Wrap(h + e, n);
  }

  lemma Wrap(x: int, n: int)
    requires n > 0
    ensures (x % n + 1) % n == (x + 1) % n
  {
    var q, r := x / n, x % n;
    assert x == q * n + r;
    if r + 1 < n {
      DivMod(x + 1, n, q, r + 1);
      DivMod(r + 1, n, 0, r + 1);
    } else {
      assert x + 1 == (q + 1) * n + 0;
      DivMod(x + 1, n, q + 1, 0);
      DivMod(r + 1, n, 1, 0);
    }
  }

  /** Every slot is reached within `n` places. */
  lemma EverySlot(h: int, s: int, n: int) returns (e: int)
    requires n > 0 && 0 <= s < n
    ensures 0 <= e < n && Probe(h, e, n) == s
  {
    var q, r := h / n, h % n;
    assert h == q * n + r;
    if s >= r {
      e := s - r;
      DivMod(h + e, n, q, s);
    } else {
      e := s - r + n;
      assert h + e == (q + 1) * n + s;
      DivMod(h + e, n, q + 1, s);
    }
  }

  /** The entry of slot `s` can be found: from the hash of its name on no slot before it is free. */
  ghost predicate Reached(t: seq<Entry>, s: int, e: int)
    requires 0 <= s < |t|
  {
    var h := Hash(t[s].comm, 8);
    && 0 <= e < |t| && Probe(h, e, |t|) == s
    && forall f :: 0 <= f < e ==> 0 <= Probe(h, f, |t|) < |t| && t[Probe(h, f, |t|)].comm != []
  }

  /** A table as the program keeps it while records are entered. */
  ghost predicate Table(t: seq<Entry>) {
    && |t| > 0
    && (forall s :: 0 <= s < |t| && t[s].comm == [] ==> t[s].stats == ZERO)
    && (forall s, u :: 0 <= s < u < |t| && t[s].comm != [] ==> t[s].comm != t[u].comm)
    && (forall s :: 0 <= s < |t| && t[s].comm != [] ==> exists e :: Reached(t, s, e))
  }

  ghost predicate Has(t: seq<Entry>, name: seq<int>) {
    exists s :: 0 <= s < |t| && t[s].comm == name
  }

  ghost predicate Full(t: seq<Entry>) {
    forall s :: 0 <= s < |t| ==> t[s].comm != []
  }

  /** The first `j` places from the hash of `name` hold other names. */
  ghost predicate Passed(t: seq<Entry>, name: seq<int>, j: int)
    requires |t| > 0
  {
    forall e :: 0 <= e < j ==>
                  var s := Probe(Hash(name, 8), e, |t|);
                  0 <= s < |t| && t[s].comm != [] && t[s].comm != name
  }

  /** A free slot where probing stops: the name is not in the table. */
  lemma NotThere(t: seq<Entry>, name: seq<int>, j: int)
    requires Table(t) && name != [] && 0 <= j < |t| && Passed(t, name, j) && t[Probe(Hash(name, 8), j, |t|)].comm == []
    ensures !Has(t, name)
  {
    hide Hash, Probe;
    forall s | 0 <= s < |t| ensures t[s].comm != name {
      if t[s].comm != [] {
        var e :| Reached(t, s, e);
        assert e != j && j < e ==> t[Probe(Hash(t[s].comm, 8), j, |t|)].comm != [];
      }
    }
  }

  /** All slots passed: the table is full and the name is not in it. */
  lemma NoRoom(t: seq<Entry>, name: seq<int>)
    requires |t| > 0 && Passed(t, name, |t|)
    ensures Full(t) && !Has(t, name)
  {
    hide Hash, Probe;
    forall s | 0 <= s < |t| ensures t[s].comm != [] && t[s].comm != name {
      var e := EverySlot(Hash(name, 8), s, |t|);
      assert t[Probe(Hash(name, 8), e, |t|)].comm != name;
    }
  }

  /** One record more: the sums of its command grow by it, nothing else changes. */
  ghost predicate Entered(u: seq<Entry>, t: seq<Entry>, name: seq<int>, stats: Stats, i: int) {
    && 0 <= i < |t| && |u| == |t| && u == t[i := Entry(name, Plus(t[i].stats, stats))]
    && (t[i].comm == name || (t[i].comm == [] && t[i].stats == ZERO && !Has(t, name)))
  }

  lemma EnteredTable(t: seq<Entry>, name: seq<int>, stats: Stats, i: int, j: int)
    requires Table(t) && name != [] && 0 <= j < |t| && Passed(t, name, j) && i == Probe(Hash(name, 8), j, |t|)
    requires 0 <= i < |t| && (t[i].comm == name || (t[i].comm == [] && !Has(t, name)))
    ensures Table(t[i := Entry(name, Plus(t[i].stats, stats))])
  {
    hide Hash, Probe, Plus;
    var u := t[i := Entry(name, Plus(t[i].stats, stats))];
    assert Reached(u, i, j);
    forall s | 0 <= s < |u| && u[s].comm != [] ensures exists e :: Reached(u, s, e) {
      if s != i {
        var e :| Reached(t, s, e);
        assert Reached(u, s, e);
      }
    }
    forall s, v | 0 <= s < v < |u| && u[s].comm != [] ensures u[s].comm != u[v].comm {
      if s == i && t[i].comm == [] { assert t[v].comm != name; }
      if v == i && t[i].comm == [] { assert t[s].comm != name; }
    }
  }

  class Summary {
    const pcm: array<Entry>
    var csize: int
    /** What has been added to the memory in front of the table, as if it were slot -1. */
    var front: Stats

    constructor (n: nat)
      requires n > 0
      ensures pcm.Length == n && Table(pcm[..]) && fresh(pcm)
      ensures forall k :: 0 <= k < n ==> pcm[k] == EMPTY
      ensures front == ZERO
    {
      pcm := new Entry[n](_ => EMPTY);
      csize, front := 0, ZERO;
    }

    /** enter: -1 if the table is full of other commands, else the slot the record was added to. */
    method Enter(comm: seq<int>, stats: Stats) returns (r: int)
      requires Table(pcm[..]) && Name(comm)
      modifies pcm
      ensures Table(pcm[..])
      ensures if old(Full(pcm[..])) && !old(Has(pcm[..], Cleaned(comm))) then r == -1 && pcm[..] == old(pcm[..])
              else Entered(pcm[..], old(pcm[..]), Cleaned(comm), stats, r)
    {
      hide Probe, Plus;
      var name, i, j := Cleaned(comm), 0, 0;
      while j < 8
        invariant 0 <= j <= 8 && i == Hash(name, j)
      {
        i := i * 7 + (if j < |name| then name[j] else 0);
        j := j + 1;
      }
      HashPositive(name, 8);
      if i < 0 {
        i := -i;
      }
      var n := pcm.Length;
      ghost var h, t := i, pcm[..];
      FirstProbe(h, n);
      i, j := i % n, 0;
      while pcm[i].comm != [] && j != n
        invariant 0 <= i < n && 0 <= j <= n && i == Probe(h, j, n) && Passed(t, name, j) && pcm[..] == t
        decreases n - j
      {
        if name == pcm[i].comm {
          break;
        }
        ProbeStep(h, j, n);
        i := (i + 1) % n;
        j := j + 1;
      }
      if j == n {
        NoRoom(t, name);
        return -1;
      }
      if pcm[i].comm == [] {
        NotThere(t, name, j);
        pcm[i] := pcm[i].(comm := name);
      }
      pcm[i] := pcm[i].(stats := Plus(pcm[i].stats, stats));
      EnteredTable(t, name, stats, i, j);
      assert pcm[..] == t[i := Entry(name, Plus(t[i].stats, stats))];
      return i;
    }

    /** A file of records: for every command the table and the records dropped for lack of room together
        hold what was there and what was read. */
    method EnterAll(records: seq<Record>) returns (dropped: seq<Record>)
      requires Table(pcm[..]) && forall k :: 0 <= k < |records| ==> Name(records[k].comm)
      modifies pcm
      ensures Table(pcm[..])
      ensures forall name :: name != [] ==>
                Plus(SumIn(pcm[..], name), SumOf(dropped, name))
                    == Plus(SumIn(old(pcm[..]), name), SumOf(records, name))
      ensures dropped != [] ==> Full(pcm[..])
      ensures Placed(pcm[..], dropped, old(pcm[..]), records)
      ensures Plus(Total(pcm[..]), TotalOf(dropped)) == Plus(Total(old(pcm[..])), TotalOf(records))
    {
      hide Plus, Table, Full, Has, Name, SumIn, SumOf, Conserved, NamesIn, NamesOf, Total, TotalOf, Placed;
      dropped := [];
      var k := 0;
      ghost var t := pcm[..];
      NoRecords(records, t);
      NothingPlaced(t, records);
      while k < |records|
        invariant 0 <= k <= |records| && Table(pcm[..]) && Conserved(pcm[..], dropped, t, records[..k])
        invariant dropped != [] ==> Full(pcm[..])
        invariant Placed(pcm[..], dropped, t, records[..k])
        invariant Plus(Total(pcm[..]), TotalOf(dropped)) == Plus(Total(t), TotalOf(records[..k]))
      {
        ghost var before := pcm[..];
        var r := records[k];
        assert Name(r.comm);
        var i := Enter(r.comm, r.stats);
        ConservedStep(pcm[..], before, dropped, t, records, k, i);
        PlacedStep(pcm[..], before, dropped, t, records, k, i);
        TotalStep(pcm[..], before, dropped, t, records, k, i);
        if i == -1 {
          dropped := dropped + [r];
        } else if dropped != [] {
          StaysFull(pcm[..], before, Cleaned(r.comm), r.stats, i);
        }
        k := k + 1;
      }
      assert records[..|records|] == records;
      forall name | name != []
        ensures Plus(SumIn(pcm[..], name), SumOf(dropped, name)) == Plus(SumIn(t, name), SumOf(records, name))
      {
        ConservedAt(pcm[..], dropped, t, records, name);
      }
    }

    /** pcmadd on a slot, or on the memory in front of the table. */
    method AddTo(j: int, stats: Stats)
      requires -1 <= j < pcm.Length
      modifies pcm, this`front
      ensures if j == -1 then front == Plus(old(front), stats) && pcm[..] == old(pcm[..])
              else front == old(front)
                   && pcm[..] == old(pcm[..][j := Entry(pcm[j].comm, Plus(pcm[j].stats, stats))])
    {
      if j == -1 {
        front := Plus(front, stats);
      } else {
        pcm[j] := pcm[j].(stats := Plus(pcm[j].stats, stats));
      }
    }

    /** fixjunk: commands run only once are folded into `***other`, and every column keeps its total; but if
        the table is full of other commands they are added to slot -1, which there is none of. */
    method FixJunk() returns (j: int)
      requires Table(pcm[..])
      modifies pcm, this`front
      ensures j == -1 <==> old(Full(pcm[..])) && !old(Has(pcm[..], OTHER))
      ensures j != -1 ==> Folded(pcm[..], old(pcm[..]), j) && OtherAt(old(pcm[..]), j) && front == old(front)
      ensures j == -1 ==> Spilled(pcm[..], old(pcm[..]), |old(pcm[..])|)
                          && Plus(Total(pcm[..]), front) == Plus(Total(old(pcm[..])), old(front))
    {
      hide Plus, Table, Has, Full, Probe, FoldedTo, Spilled, Total, Entered;
      OtherName();
      j := Enter(OTHER, ZERO);
      ghost var t, t1, f := old(pcm[..]), pcm[..], front;
      if !Full(t) || Has(t, OTHER) {
        EnterNothing(t1, t, j);
        EnteredTotal(t1, t, OTHER, ZERO, j);
        Zeros(Total(t));
        OnlyOther(t1, t, j);
      } else {
        NoneSpilled(t);
      }
      var i := 0;
      while i < pcm.Length
        invariant 0 <= i <= pcm.Length && -1 <= j < pcm.Length
        invariant j != -1 ==> FoldedTo(pcm[..], t1, j, i) && front == f
        invariant j == -1 ==> Spilled(pcm[..], t, i) && Plus(Total(pcm[..]), front) == Plus(Total(t), f)
      {
        ghost var u := pcm[..];
        if j != -1 { FoldStep(u, t1, j, i); } else { SpillStep(u, t, i, front, f); }
        if i != j && pcm[i].comm != [] && pcm[i].stats.pc0 + pcm[i].stats.pc1 <= 1 {
          AddTo(j, pcm[i].stats);
          pcm[i] := pcm[i].(comm := []);
          assert j != -1 ==>
              pcm[..] == u[j := Entry(u[j].comm, Plus(u[j].stats, u[i].stats))][i := Entry([], u[i].stats)];
          assert j == -1 ==> pcm[..] == u[i := Entry([], u[i].stats)];
        }
        i := i + 1;
      }
      if j != -1 { FoldedSince(pcm[..], t1, t, j); }
    }

    /** squeeze: the used slots, in their order, without the holes. */
    method Squeeze()
      modifies this`csize, pcm
      ensures 0 <= csize <= pcm.Length && pcm[..csize] == Used(old(pcm[..]))
    {
      hide Used;
      ghost var t := pcm[..];
      var i, k := 0, 0;
      NoneUsed(t);
      while i < pcm.Length
        invariant 0 <= k <= i <= pcm.Length && pcm[..k] == Used(t[..i])
        invariant forall j :: i <= j < pcm.Length ==> pcm[j] == t[j]
      {
        OneMoreUsed(t, i);
        if pcm[i].comm != [] {
          ghost var b := pcm[..k];
          pcm[k] := pcm[i];
          assert pcm[..k + 1] == b + [t[i]];
          k := k + 1;
        }
        i := i + 1;
      }
      assert t[..pcm.Length] == t;
      csize := k;
    }
  }

  // --- what is known about each command ---

  datatype Record = Record(comm: seq<int>, stats: Stats)

  function Part(e: Entry, name: seq<int>): Stats { if e.comm == name then e.stats else ZERO }

  /** What the table holds about a command. */
  function SumIn(t: seq<Entry>, name: seq<int>): Stats {
    if t == [] then ZERO else Plus(SumIn(t[..|t| - 1], name), Part(t[|t| - 1], name))
  }

  /** What the records say about it. */
  function SumOf(r: seq<Record>, name: seq<int>): Stats {
    if r == [] then ZERO
    else Plus(SumOf(r[..|r| - 1], name), if Cleaned(r[|r| - 1].comm) == name then r[|r| - 1].stats else ZERO)
  }

  lemma Beside(a: Stats, p: Stats, b: Stats, q: Stats, x: Stats)
    requires Plus(a, p) == Plus(b, q)
    ensures Plus(Plus(a, x), p) == Plus(Plus(b, x), q)
  {
  }

  lemma Last(a: Stats, p: Stats, q: Stats)
    ensures Plus(Plus(a, p), q) == Plus(Plus(a, q), p)
  {
  }

  lemma {:induction false} SumInUpdate(t: seq<Entry>, k: int, e: Entry, name: seq<int>)
    requires 0 <= k < |t|
    ensures Plus(SumIn(t[k := e], name), Part(t[k], name)) == Plus(SumIn(t, name), Part(e, name))
    decreases |t|
  {
    var n := |t| - 1;
    hide Plus;
    if k < n {
      assert t[k := e][..n] == t[..n][k := e];
      SumInUpdate(t[..n], k, e, name);
      Beside(SumIn(t[..n][k := e], name), Part(t[k], name), SumIn(t[..n], name), Part(e, name), Part(t[n], name));
    } else {
      Last(SumIn(t[..n], name), Part(e, name), Part(t[k], name));
      assert t[k := e][..n] == t[..n];
    }
  }

  /** Entering a record adds it to its command and to no other. */
  lemma EnteredAdds(u: seq<Entry>, t: seq<Entry>, name: seq<int>, stats: Stats, i: int, other: seq<int>)
    requires Entered(u, t, name, stats, i) && other != []
    ensures SumIn(u, other) == if other == name then Plus(SumIn(t, other), stats) else SumIn(t, other)
  {
    SumInUpdate(t, i, Entry(name, Plus(t[i].stats, stats)), other);
  }

  ghost predicate Conserved(u: seq<Entry>, dropped: seq<Record>, t: seq<Entry>, r: seq<Record>) {
    forall name :: name != [] ==> ConservedFor(u, dropped, t, r, name)
  }

  ghost predicate ConservedFor(u: seq<Entry>, dropped: seq<Record>, t: seq<Entry>, r: seq<Record>, name: seq<int>) {
    Plus(SumIn(u, name), SumOf(dropped, name)) == Plus(SumIn(t, name), SumOf(r, name))
  }

  lemma ConservedAt(u: seq<Entry>, dropped: seq<Record>, t: seq<Entry>, r: seq<Record>, name: seq<int>)
    requires Conserved(u, dropped, t, r) && name != []
    ensures Plus(SumIn(u, name), SumOf(dropped, name)) == Plus(SumIn(t, name), SumOf(r, name))
  {
    assert ConservedFor(u, dropped, t, r, name);
  }

  lemma NoRecords(r: seq<Record>, t: seq<Entry>)
    ensures Conserved(t, [], t, r[..0])
  {
  }

  lemma SumOfSnoc(r: seq<Record>, x: Record, name: seq<int>)
    ensures SumOf(r + [x], name) == Plus(SumOf(r, name), if Cleaned(x.comm) == name then x.stats else ZERO)
  {
    assert (r + [x])[..|r|] == r;
  }

  lemma Swap(a: Stats, b: Stats, c: Stats, d: Stats, x: Stats)
    requires Plus(a, b) == Plus(c, d)
    ensures Plus(Plus(a, x), b) == Plus(c, Plus(d, x)) && Plus(a, Plus(b, x)) == Plus(c, Plus(d, x))
    ensures Plus(b, ZERO) == b && Plus(d, ZERO) == d
  {
  }

  lemma ConservedStep(u: seq<Entry>, before: seq<Entry>, dropped: seq<Record>, t: seq<Entry>, r: seq<Record>, k: int,
      i: int)
    requires 0 <= k < |r| && Conserved(before, dropped, t, r[..k])
    requires if i == -1 then u == before else Entered(u, before, Cleaned(r[k].comm), r[k].stats, i)
    ensures Conserved(u, if i == -1 then dropped + [r[k]] else dropped, t, r[..k + 1])
  {
    hide Plus, Entered, SumIn, SumOf;
    var r1 := r[..k + 1];
    assert r1 == r[..k] + [r[k]];
    var d := if i == -1 then dropped + [r[k]] else dropped;
    forall name | name != [] ensures ConservedFor(u, d, t, r1, name) {
      assert ConservedFor(before, dropped, t, r[..k], name);
      SumOfSnoc(r[..k], r[k], name);
      SumOfSnoc(dropped, r[k], name);
      if i != -1 { EnteredAdds(u, before, Cleaned(r[k].comm), r[k].stats, i, name); }
      Swap(SumIn(before, name), SumOf(dropped, name), SumIn(t, name), SumOf(r[..k], name), r[k].stats);
    }
  }

  lemma StaysFull(u: seq<Entry>, t: seq<Entry>, name: seq<int>, stats: Stats, i: int)
    requires Full(t) && Entered(u, t, name, stats, i)
    ensures Full(u)
  {
  }

  // --- which names have a slot ---

  /** The names in the table. */
  ghost function NamesIn(t: seq<Entry>): set<seq<int>> {
    set k | 0 <= k < |t| && t[k].comm != [] :: t[k].comm
  }

  /** The names, as they are entered, in the records. */
  ghost function NamesOf(r: seq<Record>): set<seq<int>> {
    set k | 0 <= k < |r| :: Cleaned(r[k].comm)
  }

  /** Every name is in the table or dropped, none is both. */
  ghost predicate Placed(u: seq<Entry>, dropped: seq<Record>, t: seq<Entry>, r: seq<Record>) {
    && |u| == |t| && NamesIn(u) * NamesOf(dropped) == {} && NamesIn(u) + NamesOf(dropped) == NamesIn(t) + NamesOf(r)
  }

  lemma NothingPlaced(t: seq<Entry>, r: seq<Record>)
    ensures Placed(t, [], t, r[..0])
  {
  }

  lemma NamesSnoc(r: seq<Record>, x: Record)
    ensures NamesOf(r + [x]) == NamesOf(r) + {Cleaned(x.comm)}
  {
    var q := r + [x];
    forall n | n in NamesOf(r) + {Cleaned(x.comm)} ensures n in NamesOf(q) {
      if n in NamesOf(r) {
        var k :| 0 <= k < |r| && Cleaned(r[k].comm) == n;
        assert q[k] == r[k];
      } else {
        assert q[|r|] == x;
      }
    }
  }

  lemma HasNames(t: seq<Entry>, name: seq<int>)
    requires name != []
    ensures Has(t, name) <==> name in NamesIn(t)
  {
  }

  lemma EnteredNames(u: seq<Entry>, t: seq<Entry>, name: seq<int>, stats: Stats, i: int)
    requires Entered(u, t, name, stats, i) && name != []
    ensures NamesIn(u) == NamesIn(t) + {name}
  {
    hide Plus;
    forall n | n in NamesIn(t) + {name} ensures n in NamesIn(u) {
      if n == name {
        assert u[i].comm == n;
      } else {
        var k :| 0 <= k < |t| && t[k].comm == n;
        assert u[k] == t[k];
      }
    }
  }

  lemma PlacedStep(u: seq<Entry>, before: seq<Entry>, dropped: seq<Record>, t: seq<Entry>, r: seq<Record>, k: int,
      i: int)
    requires 0 <= k < |r| && Placed(before, dropped, t, r[..k]) && Name(r[k].comm) && (dropped != [] ==> Full(before))
    requires if i == -1 then u == before && !Has(before, Cleaned(r[k].comm))
             else Entered(u, before, Cleaned(r[k].comm), r[k].stats, i)
    ensures Placed(u, if i == -1 then dropped + [r[k]] else dropped, t, r[..k + 1])
  {
    hide Plus, NamesIn, NamesOf, Has;
    var name := Cleaned(r[k].comm);
    assert r[..k + 1] == r[..k] + [r[k]];
    NamesSnoc(r[..k], r[k]);
    HasNames(before, name);
    if i == -1 {
      NamesSnoc(dropped, r[k]);
    } else {
      EnteredNames(u, before, name, r[k].stats, i);
      if dropped != [] {
        FullHas(before, name, i);
      } else {
        NoNames();
      }
    }
  }

  /** In a full table only a name that is there finds a slot. */
  lemma FullHas(t: seq<Entry>, name: seq<int>, i: int)
    requires Full(t) && 0 <= i < |t| && (t[i].comm == name || t[i].comm == [])
    ensures Has(t, name)
  {
  }

  lemma NoNames()
    ensures NamesOf([]) == {}
  {
  }

  /** A table has as many names as used slots. */
  lemma {:induction false} NameCount(t: seq<Entry>)
    requires forall s, u :: 0 <= s < u < |t| && t[s].comm != [] ==> t[s].comm != t[u].comm
    ensures |NamesIn(t)| <= |t| && (|NamesIn(t)| == |t| <==> Full(t))
  {
    if t == [] {
      assert NamesIn(t) == {};
    } else {
      hide NamesIn, Full;
      var front, e := t[..|t| - 1], t[|t| - 1];
      assert t == front + [e];
      NameCount(front);
      NamesWith(front, e);
      FullWith(front, e);
      if e.comm != [] { NotNamed(front, e.comm); }
    }
  }

  lemma FullWith(t: seq<Entry>, e: Entry)
    ensures Full(t + [e]) <==> Full(t) && e.comm != []
  {
    var u := t + [e];
    assert u[|t|] == e && forall k :: 0 <= k < |t| ==> u[k] == t[k];
  }

  lemma NotNamed(t: seq<Entry>, name: seq<int>)
    requires forall k :: 0 <= k < |t| ==> t[k].comm != name
    ensures name !in NamesIn(t)
  {
  }

  lemma NamesWith(t: seq<Entry>, e: Entry)
    ensures NamesIn(t + [e]) == NamesIn(t) + (if e.comm != [] then {e.comm} else {})
  {
    var u := t + [e];
    forall n | n in NamesIn(t) ensures n in NamesIn(u) {
      var k :| 0 <= k < |t| && t[k].comm == n;
      assert u[k] == t[k];
    }
    if e.comm != [] { assert u[|t|] == e; }
  }

  /** From an empty table: no record is dropped if and only if there are no more names than slots; and then
      a name is in the table if and only if a record has it, and a slot is free if and only if there are
      fewer names than slots. */
  lemma PlacedExact(u: seq<Entry>, dropped: seq<Record>, t: seq<Entry>, r: seq<Record>)
    requires Table(u) && Placed(u, dropped, t, r) && NamesIn(t) == {} && (dropped != [] ==> Full(u))
    ensures dropped == [] <==> |NamesOf(r)| <= |u|
    ensures dropped == [] ==> NamesIn(u) == NamesOf(r) && (Full(u) <==> |NamesOf(r)| == |u|)
  {
    hide NamesIn, NamesOf, Full;
    NameCount(u);
    if dropped == [] {
      NoNames();
    } else {
      SomeName(dropped);
      Disjoint(NamesIn(u), NamesOf(dropped));
    }
  }

  lemma SomeName(r: seq<Record>)
    requires r != []
    ensures |NamesOf(r)| > 0
  {
    assert Cleaned(r[0].comm) in NamesOf(r);
  }

  lemma Disjoint<T>(a: set<T>, b: set<T>)
    requires a * b == {}
    ensures |a + b| == |a| + |b|
  {
  }

  // --- folding rare commands ---

  const OTHER: seq<int> := [42, 42, 42, 111, 116, 104, 101, 114]

  lemma OtherName()
    ensures Name(OTHER) && Cleaned(OTHER) == OTHER
    ensures OTHER == ['*' as int, '*' as int, '*' as int, 'o' as int, 't' as int, 'h' as int, 'e' as int, 'r' as int]
  {
  }

  function Contribution(e: Entry): Stats { if e.comm != [] then e.stats else ZERO }

  /** The column totals of the used slots. */
  function Total(t: seq<Entry>): Stats {
    if t == [] then ZERO else Plus(Total(t[..|t| - 1]), Contribution(t[|t| - 1]))
  }

  lemma {:induction false} TotalUpdate(t: seq<Entry>, k: int, e: Entry)
    requires 0 <= k < |t|
    ensures Plus(Total(t[k := e]), Contribution(t[k])) == Plus(Total(t), Contribution(e))
    decreases |t|
  {
    var n := |t| - 1;
    hide Plus;
    if k < n {
      assert t[k := e][..n] == t[..n][k := e];
      TotalUpdate(t[..n], k, e);
      Beside(Total(t[..n][k := e]), Contribution(t[k]), Total(t[..n]), Contribution(e), Contribution(t[n]));
    } else {
      Last(Total(t[..n]), Contribution(e), Contribution(t[k]));
      assert t[k := e][..n] == t[..n];
    }
  }

  predicate Rare(e: Entry) { RunOnce(e.stats) }

  predicate RunOnce(x: Stats) { x.pc0 + x.pc1 <= 1 }

  /** All totals are kept; beside `***other` in slot `j` only the commands run more than once are left, as
      they were. */
  ghost predicate FoldedTo(u: seq<Entry>, t: seq<Entry>, j: int, n: int) {
    && |u| == |t| && 0 <= j < |t| && 0 <= n <= |t| && u[j].comm == OTHER && Total(u) == Total(t)
    && (forall k :: 0 <= k < n && k != j ==> if t[k].comm != [] && !Rare(t[k]) then u[k] == t[k] else u[k].comm == [])
    && (forall k :: n <= k < |t| && k != j ==> u[k] == t[k])
  }

  ghost predicate Folded(u: seq<Entry>, t: seq<Entry>, j: int) { FoldedTo(u, t, j, |t|) }

  lemma EnterNothing(u: seq<Entry>, t: seq<Entry>, j: int)
    requires Entered(u, t, OTHER, ZERO, j)
    ensures |u| == |t| && 0 <= j < |t| && FoldedTo(u, u, j, 0) && forall k :: 0 <= k < |t| && k != j ==> u[k] == t[k]
  {
    hide Plus, Total;
  }

  /** The rare commands before slot `n` are gone, and nothing else is. */
  ghost predicate Spilled(u: seq<Entry>, t: seq<Entry>, n: int) {
    && |u| == |t| && 0 <= n <= |t|
    && (forall k :: 0 <= k < n ==> if t[k].comm != [] && !Rare(t[k]) then u[k] == t[k] else u[k].comm == [])
    && (forall k :: n <= k < |t| ==> u[k] == t[k])
  }

  lemma NoneSpilled(t: seq<Entry>)
    ensures Spilled(t, t, 0)
  {
  }

  lemma SpillStep(u: seq<Entry>, t: seq<Entry>, i: int, front: Stats, f: Stats)
    requires Spilled(u, t, i) && i < |t| && Plus(Total(u), front) == Plus(Total(t), f)
    ensures |u| == |t| && 0 <= i
    ensures if u[i].comm != [] && Rare(u[i])
            then Spilled(u[i := Entry([], u[i].stats)], t, i + 1)
                 && Plus(Total(u[i := Entry([], u[i].stats)]), Plus(front, u[i].stats)) == Plus(Total(t), f)
            else Spilled(u, t, i + 1)
  {
    hide Plus, Total;
    if u[i].comm != [] && Rare(u[i]) {
      var v := u[i := Entry([], u[i].stats)];
      TotalUpdate(u, i, v[i]);
      Moved(Total(v), u[i].stats, Total(u), front);
    }
  }

  lemma Moved(v: Stats, x: Stats, u: Stats, front: Stats)
    requires Plus(v, x) == Plus(u, ZERO)
    ensures Plus(v, Plus(front, x)) == Plus(u, front)
  {
  }

  /** The slot `j` is that of `***other`, or free for it if it has none. */
  ghost predicate OtherAt(t: seq<Entry>, j: int) {
    && 0 <= j < |t| && (t[j].comm == OTHER || t[j].comm == [])
    && forall k :: 0 <= k < |t| && k != j ==> t[k].comm != OTHER
  }

  lemma OnlyOther(u: seq<Entry>, t: seq<Entry>, j: int)
    requires Table(t) && Entered(u, t, OTHER, ZERO, j)
    ensures OtherAt(t, j)
  {
    forall k | 0 <= k < |t| && k != j ensures t[k].comm != OTHER {
      if k < j { assert t[k].comm != [] ==> t[k].comm != t[j].comm; }
    }
  }

  lemma FoldedSince(u: seq<Entry>, t1: seq<Entry>, t: seq<Entry>, j: int)
    requires |t1| == |t| && FoldedTo(u, t1, j, |t1|) && Total(t1) == Total(t)
    requires forall k :: 0 <= k < |t| && k != j ==> t1[k] == t[k]
    ensures Folded(u, t, j)
  {
    hide Total;
  }

  lemma FoldOne(u: seq<Entry>, i: int, j: int)
    requires 0 <= i < |u| && 0 <= j < |u| && i != j && u[i].comm != [] && u[j].comm != []
    ensures Total(u[j := Entry(u[j].comm, Plus(u[j].stats, u[i].stats))][i := Entry([], u[i].stats)]) == Total(u)
  {
    hide Plus, Total;
    var v := u[j := Entry(u[j].comm, Plus(u[j].stats, u[i].stats))];
    TotalUpdate(u, j, v[j]);
    TotalUpdate(v, i, Entry([], u[i].stats));
    Taken(Total(u), Total(v), Total(v[i := Entry([], u[i].stats)]), u[j].stats, u[i].stats);
  }

  lemma Taken(u: Stats, v: Stats, w: Stats, sj: Stats, si: Stats)
    requires Plus(v, sj) == Plus(u, Plus(sj, si)) && Plus(w, si) == Plus(v, ZERO)
    ensures w == u
  {
  }

  /** One slot further. */
  lemma FoldStep(u: seq<Entry>, t: seq<Entry>, j: int, i: int)
    requires FoldedTo(u, t, j, i) && i < |t|
    ensures if i != j && u[i].comm != [] && Rare(u[i])
            then FoldedTo(u[j := Entry(u[j].comm, Plus(u[j].stats, u[i].stats))][i := Entry([], u[i].stats)], t, j,
                i + 1)
            else FoldedTo(u, t, j, i + 1)
  {
    hide Plus, Total;
    if i != j && u[i].comm != [] && Rare(u[i]) { FoldOne(u, i, j); }
  }

  /** The used slots. */
  function Used(t: seq<Entry>): seq<Entry> {
    if t == [] then [] else Used(t[..|t| - 1]) + (if t[|t| - 1].comm != [] then [t[|t| - 1]] else [])
  }

  lemma NoneUsed(t: seq<Entry>)
    ensures Used(t[..0]) == []
  {
  }

  lemma OneMoreUsed(t: seq<Entry>, i: int)
    requires 0 <= i < |t|
    ensures Used(t[..i + 1]) == Used(t[..i]) + (if t[i].comm != [] then [t[i]] else [])
  {
    assert t[..i + 1][..i] == t[..i];
  }

  /** Squeezing loses nothing from the totals. */
  lemma {:induction false} UsedTotal(t: seq<Entry>)
    ensures Total(Used(t)) == Total(t)
  {
    if t != [] {
      var u, e := Used(t[..|t| - 1]), t[|t| - 1];
      UsedTotal(t[..|t| - 1]);
      if e.comm != [] {
        assert Used(t) == u + [e];
        assert (u + [e])[..|u|] == u;
      } else {
        assert Used(t) == u;
        PlusLaws(Total(u), ZERO, ZERO);
      }
    }
  }

  lemma FirstProbe(h: int, n: int)
    requires n > 0
    ensures Probe(h, 0, n) == h % n && 0 <= h % n < n
  {
  }

  // --- the program ---

  function TotalOf(r: seq<Record>): Stats {
    if r == [] then ZERO else Plus(TotalOf(r[..|r| - 1]), r[|r| - 1].stats)
  }

  lemma TotalOfSnoc(r: seq<Record>, x: Record)
    ensures TotalOf(r + [x]) == Plus(TotalOf(r), x.stats)
  {
    assert (r + [x])[..|r|] == r;
  }

  lemma EnteredTotal(u: seq<Entry>, t: seq<Entry>, name: seq<int>, stats: Stats, i: int)
    requires Entered(u, t, name, stats, i) && name != []
    ensures Total(u) == Plus(Total(t), stats)
  {
    hide Total;
    TotalUpdate(t, i, u[i]);
  }

  lemma TotalStep(u: seq<Entry>, before: seq<Entry>, dropped: seq<Record>, t: seq<Entry>, r: seq<Record>, k: int,
      i: int)
    requires 0 <= k < |r| && Name(r[k].comm)
    requires Plus(Total(before), TotalOf(dropped)) == Plus(Total(t), TotalOf(r[..k]))
    requires if i == -1 then u == before else Entered(u, before, Cleaned(r[k].comm), r[k].stats, i)
    ensures var d := if i == -1 then dropped + [r[k]] else dropped;
            Plus(Total(u), TotalOf(d)) == Plus(Total(t), TotalOf(r[..k + 1]))
  {
    hide Total, TotalOf, Entered;
    assert r[..k + 1] == r[..k] + [r[k]];
    TotalOfSnoc(r[..k], r[k]);
    if i == -1 {
      TotalOfSnoc(dropped, r[k]);
    } else {
      EnteredTotal(u, before, Cleaned(r[k].comm), r[k].stats, i);
    }
  }

  ghost predicate Unique(t: seq<Entry>) {
    forall s, u :: 0 <= s < u < |t| && t[s].comm != [] ==> t[s].comm != t[u].comm
  }

  /** What the entries say of one name: it has an entry if it was not dropped and, with rare commands folded,
      was run more than once; and the entry has the sum of all its records. */
  ghost predicate ForName(t: seq<Entry>, dropped: seq<Record>, r: seq<Record>, junk: bool, name: seq<int>) {
    && (name in NamesIn(t) <==>
          name in NamesOf(r) && name !in NamesOf(dropped) && (junk ==> !RunOnce(SumOf(r, name))))
    && forall k :: 0 <= k < |t| && t[k].comm == name ==> t[k].stats == SumOf(r, name)
  }

  /** The entries are the summary of the records: what they say of every name but `***other`, and with the
      records dropped and what is lost in folding the total of all. */
  ghost predicate Summarized(t: seq<Entry>, dropped: seq<Record>, r: seq<Record>, junk: bool, lost: Stats) {
    && Unique(t) && Plus(Plus(Total(t), lost), TotalOf(dropped)) == TotalOf(r)
    && forall name :: name != [] && (junk ==> name != OTHER) ==> ForName(t, dropped, r, junk, name)
  }

  /** `***other` has a slot or there is a free one for it, after these records on a table of `n` slots. */
  ghost predicate HasRoom(dropped: seq<Record>, r: seq<Record>, n: nat) {
    (OTHER in NamesOf(r) && OTHER !in NamesOf(dropped)) || |NamesOf(r)| < n
  }

  lemma {:induction false} SumNone(t: seq<Entry>, name: seq<int>)
    requires forall k :: 0 <= k < |t| ==> t[k].comm != name
    ensures SumIn(t, name) == ZERO
  {
    hide Plus;
    if t != [] {
      SumNone(t[..|t| - 1], name);
      Zeros(ZERO);
    }
  }

  lemma {:induction false} SumOne(t: seq<Entry>, k: int)
    requires Unique(t) && 0 <= k < |t| && t[k].comm != []
    ensures SumIn(t, t[k].comm) == t[k].stats
  {
    hide Plus;
    var n := |t| - 1;
    Zeros(t[k].stats);
    if k < n {
      assert t[..n][k] == t[k];
      SumOne(t[..n], k);
    } else {
      SumNone(t[..n], t[n].comm);
    }
  }

  lemma {:induction false} SumOfNone(r: seq<Record>, name: seq<int>)
    requires name !in NamesOf(r)
    ensures SumOf(r, name) == ZERO
  {
    hide Plus, NamesOf, Cleaned;
    if r != [] {
      var front, x := r[..|r| - 1], r[|r| - 1];
      assert r == front + [x];
      NamesSnoc(front, x);
      SumOfNone(front, name);
      Zeros(ZERO);
    }
  }

  /** A table in which all slots are free. */
  lemma {:induction false} NothingIn(t: seq<Entry>)
    requires forall k :: 0 <= k < |t| ==> t[k] == EMPTY
    ensures NamesIn(t) == {} && Total(t) == ZERO
  {
    hide Plus;
    if t != [] {
      NothingIn(t[..|t| - 1]);
      Zeros(ZERO);
    }
  }

  /** After all records. */
  lemma AllEntered(u: seq<Entry>, dropped: seq<Record>, t: seq<Entry>, r: seq<Record>)
    requires (forall k :: 0 <= k < |t| ==> t[k] == EMPTY) && Table(u) && Placed(u, dropped, t, r)
    requires Conserved(u, dropped, t, r)
    requires Plus(Total(u), TotalOf(dropped)) == Plus(Total(t), TotalOf(r))
    ensures Summarized(u, dropped, r, false, ZERO)
  {
    hide Plus, Total, TotalOf, NamesIn, NamesOf, SumIn, SumOf, Conserved;
    NothingIn(t);
    TableUnique(u);
    Zeros(TotalOf(r));
    Zeros(Total(u));
    forall name | name != [] ensures ForName(u, dropped, r, false, name) {
      forall k | 0 <= k < |u| && u[k].comm == name ensures u[k].stats == SumOf(r, name) {
        EntrySum(u, dropped, t, r, k);
      }
    }
  }

  lemma TableUnique(t: seq<Entry>)
    requires Table(t)
    ensures Unique(t)
  {
  }

  lemma Zeros(x: Stats)
    ensures Plus(x, ZERO) == x && Plus(ZERO, x) == x
  {
  }

  lemma EntrySum(u: seq<Entry>, dropped: seq<Record>, t: seq<Entry>, r: seq<Record>, k: int)
    requires (forall k :: 0 <= k < |t| ==> t[k] == EMPTY) && Unique(u) && Placed(u, dropped, t, r)
    requires Conserved(u, dropped, t, r) && 0 <= k < |u| && u[k].comm != []
    ensures u[k].stats == SumOf(r, u[k].comm)
  {
    hide Plus, NamesOf, SumIn, SumOf, Conserved, Unique;
    var name := u[k].comm;
    assert name in NamesIn(u) && name !in NamesIn(u) * NamesOf(dropped);
    SumOne(u, k);
    SumOfNone(dropped, name);
    SumNone(t, name);
    ConservedAt(u, dropped, t, r, name);
    Zeros(u[k].stats);
    Zeros(SumOf(r, name));
  }

  lemma FoldedAt(v: seq<Entry>, t: seq<Entry>, j: int, k: int)
    requires Folded(v, t, j) && 0 <= k < |t|
    ensures |v| == |t| && 0 <= j < |v| && v[j].comm == OTHER
    ensures k != j ==> if t[k].comm != [] && !Rare(t[k]) then v[k] == t[k] else v[k].comm == []
  {
    hide Total;
  }

  /** After folding. */
  lemma AllFolded(v: seq<Entry>, t: seq<Entry>, j: int, dropped: seq<Record>, r: seq<Record>)
    requires Summarized(t, dropped, r, false, ZERO) && Folded(v, t, j)
    requires OtherAt(t, j)
    ensures Summarized(v, dropped, r, true, ZERO) && OTHER in NamesIn(v)
  {
    hide Plus, Total, TotalOf, NamesOf, SumOf, ForName;
    FoldedAt(v, t, j, j);
    forall k | 0 <= k < |t| && k != j ensures Left(v, t, k) { FoldedAt(v, t, j, k); }
    forall s, u | 0 <= s < u < |v| && v[s].comm != [] ensures v[s].comm != v[u].comm {
      assert s != j ==> Left(v, t, s);
      assert u != j ==> Left(v, t, u);
    }
    forall name | name != [] && name != OTHER ensures ForName(v, dropped, r, true, name) {
      LeftFor(v, t, dropped, r, name, j);
    }
  }

  /** A slot of which only a command run more than once is left. */
  predicate Left(v: seq<Entry>, t: seq<Entry>, k: int)
    requires 0 <= k < |v| == |t|
  {
    if t[k].comm != [] && !Rare(t[k]) then v[k] == t[k] else v[k].comm == []
  }

  lemma LeftFor(v: seq<Entry>, t: seq<Entry>, dropped: seq<Record>, r: seq<Record>, name: seq<int>, j: int)
    requires |v| == |t| && name != [] && ForName(t, dropped, r, false, name)
    requires forall k :: 0 <= k < |t| && k != j ==> Left(v, t, k)
    requires 0 <= j < |t| ==> t[j].comm != name && v[j].comm != name
    ensures ForName(v, dropped, r, true, name)
  {
    hide NamesOf, SumOf;
    if name in NamesIn(v) {
      var k :| 0 <= k < |v| && v[k].comm == name;
      assert Left(v, t, k);
      assert t[k].comm == name && !RunOnce(t[k].stats);
    }
    if name in NamesIn(t) && !RunOnce(SumOf(r, name)) {
      var k :| 0 <= k < |t| && t[k].comm == name;
      assert Left(v, t, k);
      assert v[k].comm == name;
    }
    forall k | 0 <= k < |v| && v[k].comm == name ensures v[k].stats == SumOf(r, name) { assert Left(v, t, k); }
  }

  /** After folding into slot -1: the rare commands are lost. */
  lemma AllSpilled(v: seq<Entry>, t: seq<Entry>, dropped: seq<Record>, r: seq<Record>, front: Stats)
    requires Summarized(t, dropped, r, false, ZERO) && Spilled(v, t, |t|) && !Has(t, OTHER)
    requires Plus(Total(v), front) == Plus(Total(t), ZERO)
    ensures Summarized(v, dropped, r, true, front) && OTHER !in NamesIn(v)
  {
    hide Plus, Total, TotalOf, NamesOf, SumOf, ForName;
    forall k | 0 <= k < |t| ensures Left(v, t, k) {}
    forall s, u | 0 <= s < u < |v| && v[s].comm != [] ensures v[s].comm != v[u].comm {
      assert Left(v, t, s) && Left(v, t, u);
    }
    forall k | 0 <= k < |v| ensures v[k].comm != OTHER {
      assert Left(v, t, k);
    }
    forall name | name != [] && name != OTHER ensures ForName(v, dropped, r, true, name) {
      LeftFor(v, t, dropped, r, name, -1);
    }
  }

  lemma {:induction false} UsedNames(t: seq<Entry>)
    ensures NamesIn(Used(t)) == NamesIn(t)
  {
    if t != [] {
      hide NamesIn;
      var front, e := t[..|t| - 1], t[|t| - 1];
      assert t == front + [e];
      UsedNames(front);
      NamesWith(front, e);
      NamesWith(Used(front), e);
      if e.comm == [] { assert Used(t) == Used(front); }
    }
  }

  lemma {:induction false} UsedFrom(t: seq<Entry>, k: int) returns (i: int)
    requires 0 <= k < |Used(t)|
    ensures k <= i < |t| && t[i] == Used(t)[k] && t[i].comm != []
    ensures forall l :: 0 <= l < k ==> Used(t)[l] in t[..i]
  {
    var n := |t| - 1;
    var front := Used(t[..n]);
    UsedIn(t[..n]);
    if k < |front| {
      i := UsedFrom(t[..n], k);
      assert t[..n][..i] == t[..i];
    } else {
      i := n;
    }
  }

  lemma {:induction false} UsedIn(t: seq<Entry>)
    ensures |Used(t)| <= |t| && forall l :: 0 <= l < |Used(t)| ==> Used(t)[l] in t
  {
    if t != [] { UsedIn(t[..|t| - 1]); }
  }

  /** And after squeezing. */
  lemma AllSqueezed(t: seq<Entry>, dropped: seq<Record>, r: seq<Record>, junk: bool, lost: Stats)
    requires Summarized(t, dropped, r, junk, lost)
    ensures Summarized(Used(t), dropped, r, junk, lost) && NamesIn(Used(t)) == NamesIn(t)
    ensures forall k :: 0 <= k < |Used(t)| ==> Used(t)[k].comm != []
  {
    hide Plus, Total, TotalOf, NamesIn, NamesOf, SumOf, Used;
    UsedTotal(t);
    UsedNames(t);
    var u := Used(t);
    forall k | 0 <= k < |u| ensures u[k].comm != [] {
      var i := UsedFrom(t, k);
    }
    forall a, b | 0 <= a < b < |u| && u[a].comm != [] ensures u[a].comm != u[b].comm {
      var i := UsedFrom(t, b);
      assert u[a] in t[..i];
      var h :| 0 <= h < i && t[..i][h] == u[a];
      assert t[h].comm != t[i].comm;
    }
    forall name | name != [] && (junk ==> name != OTHER) ensures ForName(u, dropped, r, junk, name) {
      assert ForName(t, dropped, r, junk, name);
      forall k | 0 <= k < |u| && u[k].comm == name ensures u[k].stats == SumOf(r, name) {
        var i := UsedFrom(t, k);
      }
    }
  }

  /** When `***other` has a slot or can get one: always if the names fit the table with it, and never if they
      fit and do not leave it a slot; with records dropped, if it was entered before the table was full. */
  lemma RoomForOther(u: seq<Entry>, dropped: seq<Record>, t: seq<Entry>, r: seq<Record>)
    requires Table(u) && Placed(u, dropped, t, r) && NamesIn(t) == {} && (dropped != [] ==> Full(u))
    ensures Has(u, OTHER) || !Full(u) <==> HasRoom(dropped, r, |u|)
    ensures dropped == [] ==> (HasRoom(dropped, r, |u|) <==> |NamesOf(r) + {OTHER}| <= |u|)
  {
    hide Table, NamesIn, NamesOf, Full, Has;
    HasNames(u, OTHER);
    PlacedExact(u, dropped, t, r);
    NoNames();
    if OTHER in NamesOf(r) {
      assert NamesOf(r) + {OTHER} == NamesOf(r);
    } else {
      Disjoint(NamesOf(r), {OTHER});
    }
  }

  /** The program up to sorting: the records are entered into an empty table of `n` slots, with -j rare
      commands are folded, and the holes are squeezed out.  Without a slot for `***other` the rare commands
      are `lost`. */
  method Summarize(records: seq<Record>, junk: bool, n: nat)
    returns (lines: seq<Entry>, dropped: seq<Record>, lost: Stats)
    requires n > 0 && forall k :: 0 <= k < |records| ==> Name(records[k].comm)
    ensures Summarized(lines, dropped, records, junk, lost) && forall k :: 0 <= k < |lines| ==> lines[k].comm != []
    ensures dropped == [] <==> |NamesOf(records)| <= n
    ensures junk ==> (OTHER in NamesIn(lines) <==> HasRoom(dropped, records, n))
    ensures !junk || HasRoom(dropped, records, n) ==> lost == ZERO
  {
    hide Plus, Table, Total, TotalOf, NamesIn, NamesOf, SumIn, SumOf, Conserved, Full, Has, Name, Placed, Summarized,
        Folded, Spilled, Used, HasRoom;
    var s := new Summary(n);
    ghost var t := s.pcm[..];
    NothingIn(t);
    dropped := s.EnterAll(records);
    ConservedAll(s.pcm[..], dropped, t, records);
    AllEntered(s.pcm[..], dropped, t, records);
    PlacedExact(s.pcm[..], dropped, t, records);
    RoomForOther(s.pcm[..], dropped, t, records);
    if junk {
      ghost var u := s.pcm[..];
      var j := s.FixJunk();
      if j != -1 {
        AllFolded(s.pcm[..], u, j, dropped, records);
      } else {
        AllSpilled(s.pcm[..], u, dropped, records, s.front);
      }
    }
    lost := s.front;
    AllSqueezed(s.pcm[..], dropped, records, junk, lost);
    s.Squeeze();
    lines := s.pcm[..s.csize];
  }

  /** A command run once, and a table with room for that only: enter returns -1 for `***other`, the command
      is taken out and its times are in no line. */
  method JunkWithoutRoom(records: seq<Record>, once: Stats)
      returns (lines: seq<Entry>, dropped: seq<Record>, lost: Stats)
    requires records == [Record([SMALL_A], once)] && once.pc0 == 1 && once.pc1 == 0
    ensures lines == [] && dropped == [] && lost == once && Total(lines) != TotalOf(records)
  {
    hide Summarized, Total, NamesOf, NamesIn, Plus;
    OneRecord(records, once);
    lines, dropped, lost := Summarize(records, true, 1);
    NothingLeft(lines, dropped, records, once, lost);
  }

  const SMALL_A: int := 97

  lemma OneRecord(r: seq<Record>, x: Stats)
    requires r == [Record([SMALL_A], x)]
    ensures Name([SMALL_A]) && NamesOf(r) == {[SMALL_A]} && TotalOf(r) == x && SumOf(r, [SMALL_A]) == x
    ensures NamesOf(r[..0]) == {} && TotalOf(r[..0]) == ZERO
  {
    assert Cleaned([SMALL_A]) == [SMALL_A];
    assert NamesOf(r) == {Cleaned(r[0].comm)};
    assert r[..0] == [];
    Zeros(x);
  }

  lemma NamesCover(t: seq<Entry>)
    requires forall k :: 0 <= k < |t| ==> t[k].comm != []
    ensures |t| > 0 ==> exists name :: name != [] && name in NamesIn(t)
  {
    assert |t| > 0 ==> t[0].comm in NamesIn(t);
  }

  lemma NothingLeft(lines: seq<Entry>, dropped: seq<Record>, r: seq<Record>, once: Stats, lost: Stats)
    requires r == [Record([SMALL_A], once)] && once.pc0 == 1 && once.pc1 == 0 && |NamesOf(r)| <= 1 && dropped == []
    requires Summarized(lines, dropped, r, true, lost) && forall k :: 0 <= k < |lines| ==> lines[k].comm != []
    requires OTHER !in NamesIn(lines)
    ensures lines == [] && lost == once && Total(lines) == ZERO
  {
    hide NamesOf, SumOf, Plus, TotalOf;
    OneRecord(r, once);
    forall name | name != [] && name != OTHER ensures name !in NamesIn(lines) {
      assert ForName(lines, dropped, r, true, name);
    }
    NamesCover(lines);
    Zeros(lost);
    assert r[..0] == dropped;
  }

  lemma ConservedAll(u: seq<Entry>, dropped: seq<Record>, t: seq<Entry>, r: seq<Record>)
    requires forall name ::
               name != [] ==>
                 Plus(SumIn(u, name), SumOf(dropped, name)) == Plus(SumIn(t, name), SumOf(r, name))
    ensures Conserved(u, dropped, t, r)
  {
  }

  // --- counting ---

  /** The record is that of one run of a command, in prime time or not. */
  predicate OneRun(x: Record) {
    (x.stats.pc0 == 1 && x.stats.pc1 == 0) || (x.stats.pc0 == 0 && x.stats.pc1 == 1)
  }

  function HowMany(r: seq<Record>, name: seq<int>): nat {
    if r == [] then 0 else HowMany(r[..|r| - 1], name) + (if Cleaned(r[|r| - 1].comm) == name then 1 else 0)
  }

  lemma {:induction false} RunsCounted(r: seq<Record>, name: seq<int>)
    requires forall k :: 0 <= k < |r| ==> OneRun(r[k])
    ensures SumOf(r, name).pc0 + SumOf(r, name).pc1 == HowMany(r, name)
  {
    if r != [] {
      RunsCounted(r[..|r| - 1], name);
      assert OneRun(r[|r| - 1]);
    }
  }

  ghost predicate Twice(r: seq<Record>, name: seq<int>, i: int, j: int) {
    0 <= i < j < |r| && Cleaned(r[i].comm) == name && Cleaned(r[j].comm) == name
  }

  lemma {:induction false} HowManyIff(r: seq<Record>, name: seq<int>)
    ensures HowMany(r, name) >= 1 <==> exists i :: 0 <= i < |r| && Cleaned(r[i].comm) == name
    ensures HowMany(r, name) >= 2 <==> exists i, j :: Twice(r, name, i, j)
  {
    hide Cleaned;
    if r != [] {
      var n := |r| - 1;
      HowManyIff(r[..n], name);
      if i :| 0 <= i < n && Cleaned(r[i].comm) == name {
        assert r[..n][i] == r[i];
        if Cleaned(r[n].comm) == name { assert Twice(r, name, i, n); }
      }
      if i, j :| Twice(r, name, i, j) {
        assert r[..n][i] == r[i];
        if j < n { assert Twice(r[..n], name, i, j); }
      }
      if i, j :| Twice(r[..n], name, i, j) { assert Twice(r, name, i, j); }
    }
  }

  /** What has a line, counted in records: a command of which none was dropped has one if it was run at all
      and, with -j, if it was run more than once. */
  lemma LinesCounted(lines: seq<Entry>, dropped: seq<Record>, r: seq<Record>, junk: bool, lost: Stats, name: seq<int>)
    requires Summarized(lines, dropped, r, junk, lost) && forall k :: 0 <= k < |r| ==> OneRun(r[k])
    requires name != [] && (junk ==> name != OTHER)
    requires forall k :: 0 <= k < |dropped| ==> Cleaned(dropped[k].comm) != name
    ensures (exists k :: 0 <= k < |lines| && lines[k].comm == name) <==>
            if junk then exists i, j :: Twice(r, name, i, j)
            else exists i :: 0 <= i < |r| && Cleaned(r[i].comm) == name
  {
    hide Cleaned, SumOf, Plus, Total, TotalOf, Unique;
    assert ForName(lines, dropped, r, junk, name);
    RunsCounted(r, name);
    HowManyIff(r, name);
    TwiceNamed(r, name);
  }

  lemma TwiceNamed(r: seq<Record>, name: seq<int>)
    ensures name in NamesOf(r) <==> exists i :: 0 <= i < |r| && Cleaned(r[i].comm) == name
    ensures (exists i, j :: Twice(r, name, i, j)) ==> name in NamesOf(r)
  {
    hide Cleaned;
    if i, j :| Twice(r, name, i, j) { assert Cleaned(r[i].comm) == name; }
  }

  /** One column of the records of a command, added up. */
  function ColumnSum(r: seq<Record>, name: seq<int>, column: Stats -> real): real {
    if r == [] then 0.0
    else
      ColumnSum(r[..|r| - 1], name, column)
      + (if Cleaned(r[|r| - 1].comm) == name then column(r[|r| - 1].stats) else 0.0)
  }

  lemma {:induction false} ColumnsAdded(r: seq<Record>, name: seq<int>)
    ensures var x := SumOf(r, name);
            && x.pc0 as real == ColumnSum(r, name, (y: Stats) => y.pc0 as real)
            && x.pc1 as real == ColumnSum(r, name, (y: Stats) => y.pc1 as real)
            && x.cpu0 == ColumnSum(r, name, (y: Stats) => y.cpu0) && x.cpu1 == ColumnSum(r, name, (y: Stats) => y.cpu1)
            && x.real0 == ColumnSum(r, name, (y: Stats) => y.real0)
            && x.real1 == ColumnSum(r, name, (y: Stats) => y.real1)
            && x.kcore0 == ColumnSum(r, name, (y: Stats) => y.kcore0)
            && x.kcore1 == ColumnSum(r, name, (y: Stats) => y.kcore1)
            && x.io0 == ColumnSum(r, name, (y: Stats) => y.io0) && x.io1 == ColumnSum(r, name, (y: Stats) => y.io1)
            && x.rw0 == ColumnSum(r, name, (y: Stats) => y.rw0) && x.rw1 == ColumnSum(r, name, (y: Stats) => y.rw1)
  {
    hide Cleaned;
    if r != [] { ColumnsAdded(r[..|r| - 1], name); }
  }
}
