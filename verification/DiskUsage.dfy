/** cmd/acct/acctdusg.c: the list of home directories is sorted in place, and a file is charged to the
    first directory in the list that its path lies in. */
module DiskUsage {
  import opened Wrappers

  const SLASH: int := 47

  /** An entry of the password file: login name, user id and home directory. */
  datatype Home = Home(name: seq<int>, uid: int, logdir: seq<int>)

  class Disk {
    const home: Home
    const ns: int
    var du: int
    var next: Disk?

    constructor (home: Home, ns: int)
      ensures this.home == home && this.ns == ns && du == 0 && next == null
    {
      this.home, this.ns, du, next := home, ns, 0, null;
    }
  }

  function Slashes(s: seq<int>): (n: int)
    ensures 0 <= n <= |s|
  {
    if s == [] then 0 else Slashes(s[..|s| - 1]) + (if s[|s| - 1] == SLASH then 1 else 0)
  }

  // --- the order ---

  /** `a` has to come after `b`: fewer slashes, or as many and a larger uid. */
  predicate After(a: Disk, b: Disk) {
    a.ns < b.ns || (a.ns == b.ns && a.home.uid > b.home.uid)
  }

  ghost predicate InOrder(s: seq<Disk>, n: int) {
    forall i :: 0 <= i && i + 1 < n && i + 1 < |s| ==> !After(s[i], s[i + 1])
  }

  ghost predicate Sorted(s: seq<Disk>) {
    forall i, j :: 0 <= i <= j < |s| ==> !After(s[i], s[j])
  }

  lemma {:induction false} OrderTransitive(s: seq<Disk>, i: int, j: int)
    requires InOrder(s, |s|) && 0 <= i <= j < |s|
    ensures !After(s[i], s[j])
    decreases j
  {
    if i < j {
      OrderTransitive(s, i, j - 1);
      assert !After(s[j - 1], s[(j - 1) + 1]);
    }
  }

  lemma SortedShort(s: seq<Disk>)
    requires |s| <= 1
    ensures Sorted(s)
  {
  }

  lemma InOrderSorted(s: seq<Disk>)
    requires InOrder(s, |s|)
    ensures Sorted(s)
  {
    forall i, j | 0 <= i <= j < |s| ensures !After(s[i], s[j]) { OrderTransitive(s, i, j); }
  }

  /** How many of `s` have to come before `d`. */
  function Earlier(s: seq<Disk>, d: Disk): nat {
    if s == [] then 0 else (if After(d, s[0]) then 1 else 0) + Earlier(s[1..], d)
  }

  /** The pairs that stand in the wrong order. */
  function Inversions(s: seq<Disk>): nat {
    if s == [] then 0 else Earlier(s[1..], s[0]) + Inversions(s[1..])
  }

  function Swapped<T>(s: seq<T>, k: int): seq<T>
    requires 0 <= k && k + 1 < |s|
  {
    s[k := s[k + 1]][k + 1 := s[k]]
  }

  lemma {:induction false} EarlierSwapped(s: seq<Disk>, k: int, d: Disk)
    requires 0 <= k && k + 1 < |s|
    ensures Earlier(Swapped(s, k), d) == Earlier(s, d)
    decreases k
  {
    var t := Swapped(s, k);
    if k == 0 {
      assert t[1..][1..] == s[1..][1..];
      assert Earlier(s, d)
          == (if After(d, s[0]) then 1 else 0) + ((if After(d, s[1]) then 1 else 0) + Earlier(s[1..][1..], d));
      assert Earlier(t, d)
          == (if After(d, t[0]) then 1 else 0) + ((if After(d, t[1]) then 1 else 0) + Earlier(t[1..][1..], d));
    } else {
      assert t[1..] == Swapped(s[1..], k - 1);
      EarlierSwapped(s[1..], k - 1, d);
    }
  }

  /** Every swap mends one pair. */
  lemma {:induction false} SwapMends(s: seq<Disk>, k: int)
    requires 0 <= k && k + 1 < |s| && After(s[k], s[k + 1])
    ensures Inversions(Swapped(s, k)) == Inversions(s) - 1
    decreases k
  {
    var t := Swapped(s, k);
    if k == 0 {
      var rest := s[1..][1..];
      assert t[1..][1..] == rest;
      assert Inversions(s) == Earlier(s[1..], s[0]) + (Earlier(rest, s[1]) + Inversions(rest));
      assert Inversions(t) == Earlier(t[1..], t[0]) + (Earlier(rest, t[1]) + Inversions(rest));
      assert Earlier(s[1..], s[0]) == 1 + Earlier(rest, s[0]);
      assert Earlier(t[1..], t[0]) == Earlier(rest, s[1]);
    } else {
      assert t[1..] == Swapped(s[1..], k - 1);
      SwapMends(s[1..], k - 1);
      EarlierSwapped(s[1..], k - 1, s[0]);
    }
  }

  lemma SwappedAt(s: seq<Disk>, k: int)
    requires 0 <= k && k + 1 < |s|
    ensures |Swapped(s, k)| == |s| && Swapped(s, k)[k] == s[k + 1] && Swapped(s, k)[k + 1] == s[k]
    ensures k > 0 ==> Swapped(s, k)[k - 1] == s[k - 1]
  {
  }

  lemma SwapPermutes<T>(s: seq<T>, k: int)
    requires 0 <= k && k + 1 < |s|
    ensures multiset(Swapped(s, k)) == multiset(s)
  {
  }

  lemma SwapKeeps(s: seq<Disk>, k: int)
    requires 0 <= k && k + 1 < |s|
    ensures multiset(Swapped(s, k)) == multiset(s)
    ensures multiset(Homes(Swapped(s, k))) == multiset(Homes(s))
  {
    hide Homes, Swapped;
    HomesSwapped(s, k);
    SwapPermutes(s, k);
    SwapPermutes(Homes(s), k);
  }

  lemma HomesSwapped(s: seq<Disk>, k: int)
    requires 0 <= k && k + 1 < |s|
    ensures Homes(Swapped(s, k)) == Swapped(Homes(s), k)
  {
    hide Homes;
    var p, h := Swapped(s, k), Homes(s);
    forall i | 0 <= i < |p| ensures Homes(p)[i] == Swapped(h, k)[i] {
      assert p[i] == if i == k then s[k + 1] else if i == k + 1 then s[k] else s[i];
    }
  }

  lemma OneMoreInOrder(s: seq<Disk>, k: int)
    requires InOrder(s, k + 1) && 0 <= k && k + 1 < |s| && !After(s[k], s[k + 1])
    ensures InOrder(s, k + 2)
  {
  }

  lemma FirstInOrder(s: seq<Disk>)
    ensures InOrder(s, 1)
  {
  }

  // --- the list ---

  /** The nodes from `dp` on, in order. */
  ghost predicate Linked(dp: Disk?, s: seq<Disk>)
    reads s
  {
    && (dp == null <==> s == []) && (dp != null ==> dp == s[0])
    && (forall i, j :: 0 <= i < j < |s| ==> s[i] != s[j])
    && (forall i :: 0 <= i < |s| ==> NextIs(s, i))
  }

  ghost predicate NextIs(s: seq<Disk>, i: int)
    requires 0 <= i < |s|
    reads s
  {
    s[i].next == if i + 1 < |s| then s[i + 1] else null
  }

  lemma Apart(s: seq<Disk>, i: int, j: int)
    requires forall i, j :: 0 <= i < j < |s| ==> s[i] != s[j]
    requires 0 <= i < |s| && 0 <= j < |s| && i != j
    ensures s[i] != s[j]
  {
    if i < j { assert s[i] != s[j]; } else { assert s[j] != s[i]; }
  }

  /** The homes the nodes stand for. */
  function Homes(s: seq<Disk>): (h: seq<Home>)
    ensures |h| == |s| && forall i :: 0 <= i < |s| ==> h[i] == s[i].home
  {
    if s == [] then [] else Homes(s[..|s| - 1]) + [s[|s| - 1].home]
  }

  lemma HomesSnoc(s: seq<Disk>, p: seq<Disk>)
    requires |p| == |s| + 1 && p[..|s|] == s
    ensures Homes(p) == Homes(s) + [p[|s|].home]
  {
  }

  lemma HomesNone()
    ensures Homes([]) == []
  {
  }

  class Accounting {
    var dp: Disk?
    var dl: Disk?
    ghost var list: seq<Disk>
    ghost var nodes: set<Disk>

    constructor ()
      ensures Valid() && Tailed() && list == [] && nodes == {}
    {
      dp, dl, list, nodes := null, null, [], {};
    }

    ghost predicate Valid()
      reads this, nodes
    {
      && (forall d :: d in list ==> d in nodes) && Linked(dp, list)
      && forall d :: d in list ==> d.ns == Slashes(d.home.logdir)
    }

    /** While the list is being made `dl` is its last node. */
    ghost predicate Tailed()
      reads this
    {
      dl == if list == [] then null else list[|list| - 1]
    }

    /** makdlst: an entry whose home is a directory is linked in at the end. */
    method Add(home: Home, isDir: bool)
      requires Valid() && Tailed()
      modifies this, nodes`next
      ensures Valid() && Tailed() && fresh(nodes - old(nodes))
      ensures !isDir ==> list == old(list)
      ensures isDir ==> |list| == |old(list)| + 1 && list[..|old(list)|] == old(list)
      ensures isDir ==> var d := list[|old(list)|]; fresh(d) && d.home == home && d.du == 0
    {
      var ns := 0;
      var i := 0;
      while i < |home.logdir|
        invariant 0 <= i <= |home.logdir| && ns == Slashes(home.logdir[..i])
        invariant unchanged(this) && unchanged(nodes)
      {
        assert home.logdir[..i + 1][..i] == home.logdir[..i];
        if home.logdir[i] == SLASH {
          ns := ns + 1;
        }
        i := i + 1;
      }
      assert home.logdir[..i] == home.logdir;
      if !isDir {
        return;
      }
      var d := new Disk(home, ns);
      ghost var s := list;
      forall i | 0 <= i < |s| ensures s[i].next == if i + 1 < |s| then s[i + 1] else null { NodeAt(i); }
      if dl == null {
        dp := d;
      } else {
        dl.next := d;
      }
      dl := d;
      list, nodes := s + [d], nodes + {d};
      forall i | 0 <= i < |list| ensures NextIs(list, i) {
        if i + 1 < |s| { Apart(s, i, |s| - 1); }
      }
    }

    lemma Counted()
      requires Valid()
      ensures forall d :: d in list ==> d.ns == Slashes(d.home.logdir)
    {
    }

    lemma NodeAt(k: int)
      requires Valid() && 0 <= k < |list|
      ensures list[k].next == if k + 1 < |list| then list[k + 1] else null
      ensures dp == list[0]
    {
      assert NextIs(list, k);
    }

    /** swapd: `d1` and the node after it change places; `p` is the node before, if there is one. */
    method SwapD(p: Disk?, d1: Disk, d2: Disk, ghost k: int)
      requires Valid() && 0 <= k && k + 1 < |list| && d1 == list[k] && d2 == list[k + 1]
      requires p == if k == 0 then null else list[k - 1]
      modifies this`dp, this`list, nodes`next
      ensures Valid() && list == old(Swapped(list, k))
    {
      hide Slashes;
      ghost var s := list;
      forall i | 0 <= i < |s| ensures s[i].next == if i + 1 < |s| then s[i + 1] else null { NodeAt(i); }
      Apart(s, k, k + 1);
      if k > 0 {
        Apart(s, k - 1, k);
        Apart(s, k - 1, k + 1);
      }
      NodeAt(k);
      NodeAt(k + 1);
      if k > 0 { NodeAt(k - 1); }
      if p != null {
        p.next := d2;
        var t := d2.next;
        d2.next := d1;
        d1.next := t;
      } else {
        var t := d2.next;
        d2.next := d1;
        d1.next := t;
        dp := d2;
      }
      list := Swapped(s, k);
      SwappedDistinct(s, k);
      forall i | 0 <= i < |list| ensures NextIs(list, i) {
        if i < k - 1 || i > k + 1 {
          Apart(s, i, k);
          Apart(s, i, k + 1);
          if k > 0 { Apart(s, i, k - 1); }
          assert list[i] == s[i];
          assert old(s[i].next) == if i + 1 < |s| then s[i + 1] else null;
        }
      }
    }

    lemma Head()
      requires Valid()
      ensures dp == null <==> list == []
      ensures list != [] ==> dp == list[0] && (dp.next == null <==> |list| == 1)
    {
      if list != [] { NodeAt(0); }
    }

    /** dsort: the same nodes, with more slashes first and smaller uids first among as many slashes. */
    method DSort()
      requires Valid()
      modifies this`dp, this`list, nodes`next
      ensures Valid() && Sorted(list) && multiset(list) == multiset(old(list))
      ensures multiset(Homes(list)) == multiset(old(Homes(list)))
    {
      hide Linked, Inversions, Homes, Slashes, Swapped, InOrder, Sorted;
      Head();
      if dp == null || dp.next == null {
        SortedShort(list);
        return;
      }
      var change := false;
      var pdp: Disk? := null;
      var dp1 := dp;
      ghost var k := 0;
      FirstInOrder(list);
      while true
        invariant Valid() && 0 <= k < |list| && dp1 == list[k] && pdp == (if k == 0 then null else list[k - 1])
        invariant multiset(list) == multiset(old(list)) && multiset(Homes(list)) == multiset(old(Homes(list)))
        invariant !change ==> InOrder(list, k + 1)
        decreases Inversions(list), change, |list| - k
      {
        NodeAt(k);
        var dp2 := dp1.next;
        if dp2 == null {
          if !change {
            break;
          }
          Head();
          dp1 := dp;
          pdp := null;
          change := false;
          k := 0;
          FirstInOrder(list);
          continue;
        }
        if dp1.ns < dp2.ns || (dp1.ns == dp2.ns && dp1.home.uid > dp2.home.uid) {
          SwapMends(list, k);
          SwapKeeps(list, k);
          SwappedAt(list, k);
          SwapD(pdp, dp1, dp2, k);
          change := true;
          dp1 := dp2;
          continue;
        }
        if !change { OneMoreInOrder(list, k); }
        pdp := dp1;
        dp1 := dp2;
        k := k + 1;
      }
      InOrderSorted(list);
    }

    /** The search of charge: the first directory in the list that the path lies in. */
    method Search(n: seq<int>) returns (d: Disk?)
      requires Valid()
      ensures var k := FirstHome(Homes(list), n); d == if k < |list| then list[k] else null
    {
      var i := |n|;
      d := dp;
      ghost var k := 0;
      if list != [] { NodeAt(0); }
      while d != null
        invariant 0 <= k <= |list| && d == (if k < |list| then list[k] else null)
        invariant forall j :: 0 <= j < k ==> !Inside(n, Homes(list)[j].logdir)
        decreases |list| - k
      {
        NodeAt(k);
        var dirsz := |d.home.logdir|;
        if i >= dirsz {
          if n[..dirsz] == d.home.logdir && (dirsz == i || n[dirsz] == SLASH) {
            break;
          }
        }
        d := d.next;
        k := k + 1;
      }
      FirstHomeIs(Homes(list), n, k);
    }

    /** The blocks of a file, with the indirect blocks of a larger one. */
    static method Correct(size: int) returns (blks: int)
      ensures blks == Blocks(size)
    {
      blks := Inblks(size);
      if blks > 8 {
        blks := blks + (blks + 117) / 128 + (blks + 16245) / 16384 + (blks + 2080629) / 2097152;
      }
    }

    /** charge: a file's blocks go to the first directory in the list that its path lies in, which in a
        sorted list is the longest; a directory that lies in none is reported, if there is a file for that. */
    method Charge(f: File, nchrg: bool) returns (report: Option<Report>)
      requires Valid() && Proper(f)
      modifies nodes`du
      ensures Valid() && report == ReportOf(Homes(list), f, nchrg)
      ensures forall j :: 0 <= j < |list| ==> list[j].du == old(list[j].du) + Charged(Homes(list), f, j)
      ensures Sorted(list) ==> Longest(Homes(list), f.path, FirstHome(Homes(list), f.path))
    {
      hide Inside, FirstHome, Longest, Homes, Slashes, Blocks;
      if Sorted(list) { ListHome(list, f.path); }
      if f.st.None? {
        return None;
      }
      var st := f.st.value;
      var d := Search(f.path);
      var blks := Correct(st.size);
      if d == null {
        if nchrg && st.size != 0 && st.kind == Directory {
          return Some(Report(st.uid, blks, f.path));
        }
        return None;
      }
      ghost var k := FirstHome(Homes(list), f.path);
      forall j | 0 <= j < |list| && j != k ensures list[j] != d { Apart(list, j, k); }
      var share := if st.kind == Directory then blks else if st.kind == Regular then blks / st.nlink else 0;
      assert share == Share(st);
      d.du := d.du + share;
      forall i | 0 <= i < |list| ensures NextIs(list, i) { assert old(NextIs(list, i)); }
      return None;
    }

    /** The loop of main over the files. */
    method ChargeAll(files: seq<File>, nchrg: bool) returns (reports: seq<Report>)
      requires Valid() && (forall j :: 0 <= j < |list| ==> list[j].du == 0) && forall f :: f in files ==> Proper(f)
      modifies nodes`du
      ensures Valid() && reports == Reports(Homes(list), files, nchrg)
      ensures forall j :: 0 <= j < |list| ==> list[j].du == Owed(Homes(list), files, j)
    {
      hide FirstHome, Inside, Linked, Longest, ReportOf, Charged, Owed, Reports, Homes, Sorted, Valid, Proper;
      reports := [];
      NoFiles(Homes(list), nchrg);
      assert files[..0] == [];
      for i := 0 to |files|
        invariant Valid() && reports == Reports(Homes(list), files[..i], nchrg)
        invariant forall j :: 0 <= j < |list| ==> list[j].du == Owed(Homes(list), files[..i], j)
      {
        OneMoreFile(Homes(list), files, i, nchrg);
        var report := Charge(files[i], nchrg);
        if report.Some? {
          reports := reports + [report.value];
        }
      }
      assert files[..|files|] == files;
    }

    /** output: a line for every user who has been charged. */
    method Output() returns (acct: seq<Line>)
      requires Valid()
      ensures acct == Lines(list)
    {
      acct := [];
      var d := dp;
      ghost var k := 0;
      if list != [] { NodeAt(0); }
      assert list[..0] == [];
      while d != null
        invariant 0 <= k <= |list| && d == (if k < |list| then list[k] else null) && acct == Lines(list[..k])
        decreases |list| - k
      {
        NodeAt(k);
        assert list[..k + 1][..k] == list[..k];
        if d.du != 0 {
          acct := acct + [Line(d.home.uid, d.home.name, d.du)];
        }
        d := d.next;
        k := k + 1;
      }
      assert list[..k] == list;
    }
  }

  /** What the program writes: with the homes of the password file in order, a line for everybody with a
      home who owes anything, and the directories that are nobody's. */
  ghost predicate Accounted(passwd: seq<Entry>, files: seq<File>, nchrg: bool, acct: seq<Line>, reports: seq<Report>) {
    exists homes :: InOrderOf(homes, passwd) && acct == Bill(homes, files) && reports == Reports(homes, files, nchrg)
  }

  /** The homes of the entries that have one, in order. */
  ghost predicate InOrderOf(homes: seq<Home>, passwd: seq<Entry>) {
    multiset(homes) == multiset(Kept(passwd)) && InHomeOrder(homes)
  }

  /** The program: the entries are made into the list, the list is sorted, the files are charged. */
  method Run(passwd: seq<Entry>, files: seq<File>, nchrg: bool) returns (acct: seq<Line>, reports: seq<Report>)
    requires forall f :: f in files ==> Proper(f)
    ensures Accounted(passwd, files, nchrg, acct, reports)
  {
    hide FirstHome, Homes, Linked, Accounting.Valid, Owed, Kept, Sorted;
    var a := MakeList(passwd);
    ghost var s := a.list;
    a.DSort();
    ZeroStays(s, a.list);
    ghost var homes := Homes(a.list);
    a.Counted();
    SortedHomes(a.list);
    reports := a.ChargeAll(files, nchrg);
    acct := a.Output();
    LinesAreBill(a.list, files);
    assert InOrderOf(homes, passwd);
  }

  /** The loop of main over the password file. */
  method MakeList(passwd: seq<Entry>) returns (a: Accounting)
    ensures fresh(a) && a.Valid() && fresh(a.nodes) && Homes(a.list) == Kept(passwd)
    ensures forall j :: 0 <= j < |a.list| ==> a.list[j].du == 0
  {
    hide Linked, Slashes, Homes;
    HomesNone();
    a := new Accounting();
    for i := 0 to |passwd|
      invariant a.Valid() && a.Tailed() && fresh(a) && fresh(a.nodes) && Homes(a.list) == Kept(passwd[..i])
      invariant forall j :: 0 <= j < |a.list| ==> a.list[j].du == 0
    {
      assert passwd[..i + 1][..i] == passwd[..i];
      ghost var s := a.list;
      a.Add(passwd[i].home, passwd[i].isDir);
      if passwd[i].isDir {
        HomesSnoc(s, a.list);
      }
    }
    assert passwd[..|passwd|] == passwd;
  }

  // --- charging ---

  datatype Kind = Directory | Regular | Other

  datatype Stat = Stat(kind: Kind, size: int, nlink: int, uid: int)

  datatype Report = Report(uid: int, blocks: int, path: seq<int>)

  datatype Entry = Entry(home: Home, isDir: bool)

  /** A path and what `stat` says of it, if it succeeds. */
  datatype File = File(path: seq<int>, st: Option<Stat>)

  datatype Line = Line(uid: int, name: seq<int>, du: int)

  predicate Proper(f: File) {
    f.st.Some? ==> f.st.value.size >= 0 && (f.st.value.kind == Regular ==> f.st.value.nlink > 0)
  }

  /** The entries whose home is a directory. */
  function Kept(passwd: seq<Entry>): seq<Home> {
    if passwd == [] then []
    else
      var e := passwd[|passwd| - 1];
      Kept(passwd[..|passwd| - 1]) + (if e.isDir then [e.home] else [])
  }

  lemma {:induction false} KeptHomes(passwd: seq<Entry>, h: Home)
    ensures h in Kept(passwd) <==> exists i :: 0 <= i < |passwd| && passwd[i].home == h && passwd[i].isDir
    decreases |passwd|
  {
    if passwd != [] {
      var n := |passwd| - 1;
      KeptHomes(passwd[..n], h);
      assert forall i :: 0 <= i < n ==> passwd[..n][i] == passwd[i];
    }
  }

  /** The path is the directory, or it goes on with a slash after it; so nothing but `/` itself and what
      begins with two slashes lies in `/`. */
  predicate Inside(n: seq<int>, dir: seq<int>) {
    |dir| <= |n| && n[..|dir|] == dir && (|dir| == |n| || n[|dir|] == SLASH)
  }

  /** The names of a path: what stands before, between and after its slashes. */
  function Parts(s: seq<int>): (p: seq<seq<int>>)
    ensures |p| > 0
    ensures p[0] == [] <==> s == [] || s[0] == SLASH
  {
    if s == [] then [[]]
    else if s[0] == SLASH then [[]] + Parts(s[1..])
    else
      var p := Parts(s[1..]);
      [[s[0]] + p[0]] + p[1..]
  }

  predicate GoesOn(n: seq<int>, dir: seq<int>, rest: seq<int>) { n == dir + ['/' as int] + rest }

  /** A path lies in a directory if it is the directory or goes on after it with a slash. */
  lemma InsideMeans(n: seq<int>, dir: seq<int>)
    ensures Inside(n, dir) <==> n == dir || exists rest :: GoesOn(n, dir, rest)
  {
    if Inside(n, dir) && n != dir {
      assert GoesOn(n, dir, n[|dir| + 1..]);
    }
    if rest :| GoesOn(n, dir, rest) {
      assert n[..|dir|] == dir && n[|dir|] == '/' as int;
    }
  }

  /** The test on characters is a test on names, one by one. */
  lemma {:induction false} InsideIsPrefix(n: seq<int>, dir: seq<int>)
    ensures Inside(n, dir) <==> Parts(dir) <= Parts(n)
    decreases |dir|
  {
    if dir != [] && n != [] && dir[0] == n[0] {
      InsideIsPrefix(n[1..], dir[1..]);
      InsideRest(n, dir);
      PrefixRest(n, dir);
    } else if dir != [] {
      DifferentParts(n, dir);
    }
  }

  lemma InsideRest(n: seq<int>, dir: seq<int>)
    requires dir != [] && n != [] && dir[0] == n[0]
    ensures Inside(n, dir) <==> Inside(n[1..], dir[1..])
  {
    if |dir| <= |n| {
      assert n[1..][..|dir| - 1] == n[..|dir|][1..];
      assert n[..|dir|] == [n[0]] + n[1..][..|dir| - 1] && dir == [dir[0]] + dir[1..];
    }
  }

  lemma PrefixRest(n: seq<int>, dir: seq<int>)
    requires dir != [] && n != [] && dir[0] == n[0]
    ensures Parts(dir) <= Parts(n) <==> Parts(dir[1..]) <= Parts(n[1..])
  {
    var p, q := Parts(dir[1..]), Parts(n[1..]);
    assert p == [p[0]] + p[1..] && q == [q[0]] + q[1..];
    if dir[0] == SLASH {
      assert Parts(dir)[1..] == p && Parts(n)[1..] == q;
    } else {
      assert Parts(dir)[1..] == p[1..] && Parts(n)[1..] == q[1..];
      assert Parts(dir)[0] == Parts(n)[0] <==> p[0] == q[0] by {
        assert Parts(dir)[0][1..] == p[0] && Parts(n)[0][1..] == q[0];
      }
    }
  }

  lemma DifferentParts(n: seq<int>, dir: seq<int>)
    requires dir != [] && (n == [] || dir[0] != n[0])
    ensures !Inside(n, dir) && !(Parts(dir) <= Parts(n))
  {
    if n != [] && |dir| <= |n| { assert n[..|dir|][0] == n[0]; }
    if n == [] {
      assert |Parts(n)| == 1;
      assert dir[0] == SLASH ==> |Parts(dir)| > 1;
    } else if dir[0] != SLASH && n[0] != SLASH {
      assert Parts(dir)[0][0] == dir[0] && Parts(n)[0][0] == n[0];
    }
  }

  predicate EndsWithSlash(dir: seq<int>) { dir != [] && dir[|dir| - 1] == SLASH }

  /** The names of a directory: a slash at its end adds none. */
  function DirectoryParts(dir: seq<int>): seq<seq<int>> {
    if EndsWithSlash(dir) then Parts(dir)[..|Parts(dir)| - 1] else Parts(dir)
  }

  /** The path is that of the directory or lies in it: the names of the directory are its first ones. */
  predicate InDirectory(n: seq<int>, dir: seq<int>) { DirectoryParts(dir) <= Parts(n) }

  lemma {:induction false} PartsSnoc(s: seq<int>, c: int)
    requires c != SLASH
    ensures |Parts(s + [c])| == |Parts(s)|
    ensures Parts(s + [c])[..|Parts(s)| - 1] == Parts(s)[..|Parts(s)| - 1]
  {
    if s == [] {
      assert s + [c] == [c] && [c][1..] == [];
    } else {
      PartsSnoc(s[1..], c);
      assert (s + [c])[1..] == s[1..] + [c];
      var p, q := Parts(s[1..]), Parts(s[1..] + [c]);
      assert |p| > 1 ==> q[0] == q[..|p| - 1][0] && p[0] == p[..|p| - 1][0];
      forall k | 0 <= k < |Parts(s)| - 1 ensures Parts(s + [c])[k] == Parts(s)[k] {
        assert k < |p| - 1 ==> q[k] == q[..|p| - 1][k] && p[k] == p[..|p| - 1][k];
        assert 0 < k <= |p| - 1 ==> q[k - 1] == q[..|p| - 1][k - 1] && p[k - 1] == p[..|p| - 1][k - 1];
      }
    }
  }

  /** What charge takes for inside is inside, and nothing is missed if and only if the home does not end with
      a slash; of a home that does, as of `/`, it misses every name in it. */
  lemma HomeExact(dir: seq<int>)
    ensures forall n :: Inside(n, dir) ==> InDirectory(n, dir)
    ensures (forall n :: InDirectory(n, dir) ==> Inside(n, dir)) <==> !EndsWithSlash(dir)
    ensures EndsWithSlash(dir) ==> forall c :: c != SLASH ==> MissedIn(dir, c)
  {
    forall n ensures Inside(n, dir) ==> InDirectory(n, dir) { InsideIsPrefix(n, dir); }
    if EndsWithSlash(dir) {
      forall c | c != SLASH ensures MissedIn(dir, c) { PartsSnoc(dir, c); }
      assert MissedIn(dir, SLASH + 1);
    } else {
      forall n ensures InDirectory(n, dir) ==> Inside(n, dir) { InsideIsPrefix(n, dir); }
    }
  }

  /** A name of one character in the directory is not taken for inside. */
  predicate MissedIn(dir: seq<int>, c: int) { InDirectory(dir + [c], dir) && !Inside(dir + [c], dir) }

  /** The place of the first directory in the list that the path lies in. */
  function FirstHome(s: seq<Home>, n: seq<int>): (k: int)
    ensures 0 <= k <= |s|
  {
    if s == [] then 0 else if Inside(n, s[0].logdir) then 0 else 1 + FirstHome(s[1..], n)
  }

  lemma {:induction false} FirstHomeIs(s: seq<Home>, n: seq<int>, k: int)
    requires 0 <= k <= |s| && (k < |s| ==> Inside(n, s[k].logdir)) && forall j :: 0 <= j < k ==> !Inside(n, s[j].logdir)
    ensures FirstHome(s, n) == k
    decreases k
  {
    if k > 0 {
      assert !Inside(n, s[0].logdir);
      forall j | 0 <= j < k - 1 ensures !Inside(n, s[1..][j].logdir) { assert !Inside(n, s[j + 1].logdir); }
      FirstHomeIs(s[1..], n, k - 1);
    }
  }

  lemma {:induction false} FirstHomeFirst(s: seq<Home>, n: seq<int>)
    ensures var k := FirstHome(s, n);
            (k < |s| ==> Inside(n, s[k].logdir)) && forall j :: 0 <= j < k ==> !Inside(n, s[j].logdir)
  {
    if s != [] && !Inside(n, s[0].logdir) {
      FirstHomeFirst(s[1..], n);
      var k := FirstHome(s[1..], n);
      forall j | 0 <= j < k + 1 ensures !Inside(n, s[j].logdir) {
        if j > 0 { assert !Inside(n, s[1..][j - 1].logdir); }
      }
    }
  }

  lemma {:induction false} SlashesGrow(n: seq<int>, a: int, b: int)
    requires 0 <= a < b <= |n| && n[a] == SLASH
    ensures Slashes(n[..b]) >= Slashes(n[..a]) + 1
    decreases b
  {
    assert n[..b][..b - 1] == n[..b - 1];
    if a < b - 1 { SlashesGrow(n, a, b - 1); }
  }

  /** More slashes first, and smaller uids first among as many. */
  ghost predicate InHomeOrder(s: seq<Home>) {
    forall i, j :: 0 <= i <= j < |s| ==> NotAfter(s[i], s[j])
  }

  ghost predicate NotAfter(a: Home, b: Home) {
    Slashes(a.logdir) > Slashes(b.logdir) || (Slashes(a.logdir) == Slashes(b.logdir) && a.uid <= b.uid)
  }

  /** `k` is the longest directory that the path lies in, that of the smallest uid if several users share
      it; or no directory at all if the path lies in none. */
  ghost predicate Longest(s: seq<Home>, n: seq<int>, k: int) {
    && 0 <= k <= |s|
    && (k == |s| ==> forall j :: 0 <= j < |s| ==> !Inside(n, s[j].logdir))
    && (k < |s| ==> Inside(n, s[k].logdir))
    && (k < |s| ==> forall j :: 0 <= j < |s| && Inside(n, s[j].logdir) ==>
          |s[j].logdir| <= |s[k].logdir| && (s[j].logdir == s[k].logdir ==> s[k].uid <= s[j].uid))
  }

  /** In a list in order the first directory that a path lies in is the longest. */
  lemma LongestHome(s: seq<Home>, n: seq<int>)
    requires InHomeOrder(s)
    ensures Longest(s, n, FirstHome(s, n))
  {
    FirstHomeFirst(s, n);
    var k := FirstHome(s, n);
    forall j | k < |s| && 0 <= j < |s| && Inside(n, s[j].logdir)
      ensures |s[j].logdir| <= |s[k].logdir| && (s[j].logdir == s[k].logdir ==> s[k].uid <= s[j].uid)
    {
      assert NotAfter(s[k], s[j]);
      if |s[j].logdir| > |s[k].logdir| {
        SlashesGrow(n, |s[k].logdir|, |s[j].logdir|);
      }
    }
  }

  lemma SortedHomes(s: seq<Disk>)
    requires Sorted(s) && forall d :: d in s ==> d.ns == Slashes(d.home.logdir)
    ensures InHomeOrder(Homes(s))
  {
    var h := Homes(s);
    forall i, j | 0 <= i <= j < |h| ensures NotAfter(h[i], h[j]) {
      assert s[i] in s && s[j] in s && !After(s[i], s[j]);
    }
  }

  lemma ListHome(s: seq<Disk>, n: seq<int>)
    requires Sorted(s) && forall d :: d in s ==> d.ns == Slashes(d.home.logdir)
    ensures Longest(Homes(s), n, FirstHome(Homes(s), n))
  {
    SortedHomes(s);
    LongestHome(Homes(s), n);
  }

  /** inblks: blocks of 512 bytes, the last one counted whole. */
  function Inblks(bytes: int): int { if bytes % 512 != 0 then bytes / 512 + 1 else bytes / 512 }

  /** With the indirect blocks. */
  function Blocks(size: int): int {
    var b := Inblks(size);
    if b > 8 then b + (b + 117) / 128 + (b + 16245) / 16384 + (b + 2080629) / 2097152 else b
  }

  /** What one name of a file is charged. */
  function Share(st: Stat): int {
    if st.kind == Directory then Blocks(st.size)
    else if st.kind == Regular then (if st.nlink > 0 then Blocks(st.size) / st.nlink else 0)
    else 0
  }

  /** `c` is the least number of units that hold `n`. */
  ghost predicate Fewest(c: int, n: int, unit: int) {
    c >= 0 && n <= c * unit && (c > 0 ==> (c - 1) * unit < n)
  }

  /** The blocks of a file are those of 512 bytes that it takes, the last one whole, and beyond the first 10
      an indirect block for every 128 of them, beyond the first 138 one for every 16384, and beyond the first
      16522 one for every 2097152. */
  lemma BlocksOfFile(size: int, b: int, c1: int, c2: int, c3: int)
    requires size >= 0 && 512 * (b - 1) < size <= 512 * b
    requires Fewest(c1, b - 10, 128) && Fewest(c2, b - 138, 16384) && Fewest(c3, b - 16522, 2097152)
    ensures Blocks(size) == b + c1 + c2 + c3
  {
    hide Blocks, Inblks;
    assert Blocks(size) == b + (if b > 8 then (b + 117) / 128 + (b + 16245) / 16384 + (b + 2080629) / 2097152 else 0)
    by { BlocksAre(size, b); }
    assert b > 8 ==> c1 == (b + 117) / 128;
    assert b > 8 ==> c2 == (b + 16245) / 16384;
    assert b > 8 ==> c3 == (b + 2080629) / 2097152;
  }

  lemma BlocksAre(size: int, b: int)
    requires size >= 0 && 512 * (b - 1) < size <= 512 * b
    ensures Blocks(size)
            == b + (if b > 8 then (b + 117) / 128 + (b + 16245) / 16384 + (b + 2080629) / 2097152 else 0)
  {
    assert Inblks(size) == b;
  }

  /** A file that lies in a home is charged to it: a directory with all its blocks, and a
      regular file with an equal part, rounded down, for each of its names. */
  lemma ChargedShare(homes: seq<Home>, f: File, j: int)
    requires f.st.Some? && 0 <= j < |homes| && Inside(f.path, homes[j].logdir)
    requires forall i :: 0 <= i < j ==> !Inside(f.path, homes[i].logdir)
    ensures var st, share := f.st.value, Charged(homes, f, j);
            && (st.kind == Directory ==> share == Blocks(st.size))
            && (st.kind == Regular && st.nlink > 0 ==>
                  share * st.nlink <= Blocks(st.size) < (share + 1) * st.nlink)
            && (st.kind != Directory && st.kind != Regular ==> share == 0)
    ensures forall i :: i != j ==> Charged(homes, f, i) == 0
  {
    hide Blocks, Inside;
    FirstHomeIs(homes, f.path, j);
  }

  /** What the user of the home `j` is charged for one file. */
  function Charged(homes: seq<Home>, f: File, j: int): int {
    if f.st.Some? && FirstHome(homes, f.path) == j then Share(f.st.value) else 0
  }

  /** And for all files. */
  function Owed(homes: seq<Home>, files: seq<File>, j: int): int {
    if files == [] then 0
    else Owed(homes, files[..|files| - 1], j) + Charged(homes, files[|files| - 1], j)
  }

  lemma NoFiles(homes: seq<Home>, nchrg: bool)
    ensures Reports(homes, [], nchrg) == [] && forall j :: Owed(homes, [], j) == 0
  {
  }

  lemma OneMoreFile(homes: seq<Home>, files: seq<File>, i: int, nchrg: bool)
    requires 0 <= i < |files|
    ensures forall j :: Owed(homes, files[..i + 1], j) == Owed(homes, files[..i], j) + Charged(homes, files[i], j)
    ensures var r := ReportOf(homes, files[i], nchrg);
            Reports(homes, files[..i + 1], nchrg)
            == Reports(homes, files[..i], nchrg) + (if r.Some? then [r.value] else [])
  {
    hide Charged, ReportOf;
    assert files[..i + 1][..i] == files[..i];
  }

  function ReportOf(homes: seq<Home>, f: File, nchrg: bool): Option<Report> {
    if f.st.Some? && FirstHome(homes, f.path) == |homes| && nchrg && f.st.value.size != 0
       && f.st.value.kind == Directory
    then Some(Report(f.st.value.uid, Blocks(f.st.value.size), f.path)) else None
  }

  function Reports(homes: seq<Home>, files: seq<File>, nchrg: bool): seq<Report> {
    if files == [] then []
    else
      var r := ReportOf(homes, files[|files| - 1], nchrg);
      Reports(homes, files[..|files| - 1], nchrg) + (if r.Some? then [r.value] else [])
  }

  /** A file that is reported: a directory with something in it that lies in no home. */
  ghost predicate Homeless(homes: seq<Home>, f: File) {
    && f.st.Some? && f.st.value.kind == Directory && f.st.value.size != 0
    && forall i :: 0 <= i < |homes| ==> !Inside(f.path, homes[i].logdir)
  }

  predicate IsReport(f: File, l: Report) {
    f.st.Some? && l == Report(f.st.value.uid, Blocks(f.st.value.size), f.path)
  }

  /** If there is a file for them exactly these are reported, in their order, each with its owner and all its
      blocks. */
  lemma ReportLines(homes: seq<Home>, files: seq<File>, nchrg: bool) returns (js: seq<int>)
    ensures Rising(js, |files|) && |js| == |Reports(homes, files, nchrg)|
    ensures forall k :: 0 <= k < |js| ==> IsReport(files[js[k]], Reports(homes, files, nchrg)[k])
    ensures forall j :: 0 <= j < |files| ==> (j in js <==> nchrg && Homeless(homes, files[j]))
  {
    hide *;
    js := ReportsUpTo(homes, files, |files|, nchrg);
    assert files[..|files|] == files;
  }

  lemma {:induction false} ReportsUpTo(homes: seq<Home>, files: seq<File>, n: nat, nchrg: bool) returns (js: seq<int>)
    requires n <= |files|
    ensures Rising(js, n) && |js| == |Reports(homes, files[..n], nchrg)|
    ensures forall k :: 0 <= k < |js| ==> 0 <= js[k] < n && IsReport(files[js[k]], Reports(homes, files[..n], nchrg)[k])
    ensures forall j :: 0 <= j < n ==> (j in js <==> nchrg && Homeless(homes, files[j]))
    decreases n
  {
    hide Homeless, IsReport, ReportOf;
    js := [];
    if n > 0 {
      var front := ReportsUpTo(homes, files, n - 1, nchrg);
      assert files[..n][..n - 1] == files[..n - 1];
      OneReport(homes, files[n - 1], nchrg);
      js := if nchrg && Homeless(homes, files[n - 1]) then front + [n - 1] else front;
    }
  }

  lemma OneReport(homes: seq<Home>, f: File, nchrg: bool)
    ensures ReportOf(homes, f, nchrg).Some? <==> nchrg && Homeless(homes, f)
    ensures ReportOf(homes, f, nchrg).Some? ==> IsReport(f, ReportOf(homes, f, nchrg).value)
  {
    hide Inside, Blocks;
    FirstHomeFirst(homes, f.path);
    if forall i :: 0 <= i < |homes| ==> !Inside(f.path, homes[i].logdir) { FirstHomeIs(homes, f.path, |homes|); }
  }

  ghost function Lines(s: seq<Disk>): seq<Line>
    reads s
  {
    if s == [] then []
    else
      var d := s[|s| - 1];
      Lines(s[..|s| - 1]) + (if d.du != 0 then [Line(d.home.uid, d.home.name, d.du)] else [])
  }

  /** The lines for the first `n` homes. */
  function BillTo(homes: seq<Home>, files: seq<File>, n: nat): seq<Line>
    requires n <= |homes|
  {
    if n == 0 then []
    else
      var owed := Owed(homes, files, n - 1);
      BillTo(homes, files, n - 1) + (if owed != 0 then [Line(homes[n - 1].uid, homes[n - 1].name, owed)] else [])
  }

  function Bill(homes: seq<Home>, files: seq<File>): seq<Line> {
    BillTo(homes, files, |homes|)
  }

  ghost predicate Rising(js: seq<int>, n: int) {
    (forall k :: 0 <= k < |js| ==> 0 <= js[k] < n) && forall k, l :: 0 <= k < l < |js| ==> js[k] < js[l]
  }

  /** There is a line for exactly those who have been charged, in the order of the homes, with what they have been
      charged. */
  lemma {:induction false} BillLines(homes: seq<Home>, files: seq<File>, n: nat) returns (js: seq<int>)
    requires n <= |homes|
    ensures Rising(js, n) && |js| == |BillTo(homes, files, n)|
    ensures forall k :: 0 <= k < |js| ==>
              BillTo(homes, files, n)[k] == Line(homes[js[k]].uid, homes[js[k]].name, Owed(homes, files, js[k]))
    ensures forall j :: 0 <= j < n ==> (j in js <==> Owed(homes, files, j) != 0)
    decreases n
  {
    hide Owed;
    js := [];
    if n > 0 {
      var front := BillLines(homes, files, n - 1);
      js := if Owed(homes, files, n - 1) != 0 then front + [n - 1] else front;
    }
  }

  lemma LinesAreBill(s: seq<Disk>, files: seq<File>)
    requires forall j :: 0 <= j < |s| ==> s[j].du == Owed(Homes(s), files, j)
    ensures Lines(s) == Bill(Homes(s), files)
  {
    LinesUpTo(s, files, |s|);
    assert s[..|s|] == s;
  }

  lemma {:induction false} LinesUpTo(s: seq<Disk>, files: seq<File>, n: nat)
    requires n <= |s| && forall j :: 0 <= j < |s| ==> s[j].du == Owed(Homes(s), files, j)
    ensures Lines(s[..n]) == BillTo(Homes(s), files, n)
  {
    if n > 0 {
      LinesUpTo(s, files, n - 1);
      assert s[..n][..n - 1] == s[..n - 1];
    }
  }

  // --- conservation ---

  /** The blocks of all files that lie in a home. */
  function Inhabited(homes: seq<Home>, files: seq<File>): int {
    if files == [] then 0
    else
      var f := files[|files| - 1];
      Inhabited(homes, files[..|files| - 1])
      + (if f.st.Some? && FirstHome(homes, f.path) < |homes| then Share(f.st.value) else 0)
  }

  function OwedUpTo(homes: seq<Home>, files: seq<File>, n: nat): int {
    if n == 0 then 0 else OwedUpTo(homes, files, n - 1) + Owed(homes, files, n - 1)
  }

  lemma {:induction false} OwedSnoc(homes: seq<Home>, files: seq<File>, f: File, n: nat)
    ensures OwedUpTo(homes, files + [f], n) == OwedUpTo(homes, files, n)
            + if f.st.Some? && FirstHome(homes, f.path) < n then Share(f.st.value) else 0
  {
    if n > 0 {
      OwedSnoc(homes, files, f, n - 1);
      assert (files + [f])[..|files|] == files;
    }
  }

  /** Every block of a file in a home is charged, and charged once. */
  lemma {:induction false} AllCharged(homes: seq<Home>, files: seq<File>)
    ensures OwedUpTo(homes, files, |homes|) == Inhabited(homes, files)
    decreases |files|
  {
    if files == [] {
      NothingOwed(homes, |homes|);
    } else {
      var rest, f := files[..|files| - 1], files[|files| - 1];
      assert files == rest + [f];
      AllCharged(homes, rest);
      OwedSnoc(homes, rest, f, |homes|);
    }
  }

  lemma {:induction false} NothingOwed(homes: seq<Home>, n: nat)
    ensures OwedUpTo(homes, [], n) == 0
  {
    if n > 0 { NothingOwed(homes, n - 1); }
  }

  lemma ZeroStays(s: seq<Disk>, p: seq<Disk>)
    requires multiset(s) == multiset(p) && forall j :: 0 <= j < |s| ==> s[j].du == 0
    ensures forall j :: 0 <= j < |p| ==> p[j].du == 0
  {
    forall j | 0 <= j < |p| ensures p[j].du == 0 {
      assert p[j] in multiset(p);
      assert p[j] in s;
    }
  }

  lemma SwappedDistinct(s: seq<Disk>, k: int)
    requires 0 <= k && k + 1 < |s| && forall i, j :: 0 <= i < j < |s| ==> s[i] != s[j]
    ensures forall i, j :: 0 <= i < j < |s| ==> Swapped(s, k)[i] != Swapped(s, k)[j]
  {
    var t := Swapped(s, k);
    forall i, j | 0 <= i < j < |s| ensures t[i] != t[j] {
      var a := if i == k then k + 1 else if i == k + 1 then k else i;
      var b := if j == k then k + 1 else if j == k + 1 then k else j;
      assert t[i] == s[a] && t[j] == s[b] && a != b;
      assert s[if a < b then a else b] != s[if a < b then b else a];
    }
  }
}
