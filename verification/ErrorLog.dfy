/** `add1rep` of cmd/bbh/hdelogger.c: one more report in a disk's error log, whose records are combined in
    place when it is full. */
module ErrorLog {
  const MAXRPTCNT: int := 1023

  /** A record; `reportct` is a field of ten bits. */
  datatype Record = Record(blkaddr: int, readtype: int, severity: int, badrtcnt: int, reportct: int, firsttime: int,
      lasttime: int)

  const ZEROREC: Record := Record(0, 0, 0, 0, 0, 0, 0)

  predicate Fits(r: Record) { 0 <= r.reportct <= MAXRPTCNT }

  ghost predicate AllFit(s: seq<Record>) { forall k :: 0 <= k < |s| ==> Fits(s[k]) }

  // --- what a log says about a block ---

  datatype Kind = Kind(readtype: int, severity: int, badrtcnt: int)

  /** All that a log says about one block: how many reports, capped, the first and last time, and what its
      first record says of the error. */
  datatype Digest = Nothing | Reports(count: int, first: int, last: int, kind: Kind)

  function Capped(n: int): int { if n > MAXRPTCNT then MAXRPTCNT else n }
  function Min(a: int, b: int): int { if b < a then b else a }
  function Max(a: int, b: int): int { if b > a then b else a }

  function Both(d: Digest, e: Digest): Digest {
    if d.Nothing? then e
    else if e.Nothing? then d
    else Reports(Capped(d.count + e.count), Min(d.first, e.first), Max(d.last, e.last), d.kind)
  }

  predicate Counted(d: Digest) { d.Reports? ==> 0 <= d.count <= MAXRPTCNT }

  function Of(r: Record, b: int): Digest {
    if r.blkaddr == b then Reports(r.reportct, r.firsttime, r.lasttime, Kind(r.readtype, r.severity, r.badrtcnt))
    else Nothing
  }

  /** What the log `s` says about block `b`. */
  function About(s: seq<Record>, b: int): Digest {
    if s == [] then Nothing else Both(About(s[..|s| - 1], b), Of(s[|s| - 1], b))
  }

  ghost predicate Distinct(s: seq<Record>) {
    forall k, l :: 0 <= k < l < |s| ==> s[k].blkaddr != s[l].blkaddr
  }

  lemma BothLaws(d: Digest, e: Digest, f: Digest)
    requires Counted(d) && Counted(e) && Counted(f)
    ensures Both(Both(d, e), f) == Both(d, Both(e, f)) && Counted(Both(d, e))
  {
  }

  /** After a record of the same block the order does not matter. */
  lemma BothSwap(d: Digest, e: Digest, f: Digest)
    requires Counted(d) && Counted(e) && Counted(f) && (d.Nothing? ==> f.Nothing?)
    ensures Both(Both(d, e), f) == Both(Both(d, f), e)
  {
  }

  lemma {:induction false} AboutCounted(s: seq<Record>, b: int)
    requires AllFit(s)
    ensures Counted(About(s, b))
  {
    if s != [] {
      AboutCounted(s[..|s| - 1], b);
      assert Fits(s[|s| - 1]);
      BothLaws(About(s[..|s| - 1], b), Of(s[|s| - 1], b), Nothing);
    }
  }

  /** The reports of a block, added up without a cap. */
  function ReportSum(s: seq<Record>, b: int): int {
    if s == [] then 0
    else ReportSum(s[..|s| - 1], b) + (if s[|s| - 1].blkaddr == b then s[|s| - 1].reportct else 0)
  }

  /** Capping at every step is capping once: a log counts for a block the capped sum of its reports. */
  lemma {:induction false} AboutIsSum(s: seq<Record>, b: int)
    requires AllFit(s)
    ensures ReportSum(s, b) >= 0
    ensures About(s, b).Nothing? ==> ReportSum(s, b) == 0
    ensures About(s, b).Reports? ==> About(s, b).count == Capped(ReportSum(s, b))
  {
    if s != [] {
      assert Fits(s[|s| - 1]);
      AboutIsSum(s[..|s| - 1], b);
    }
  }

  /** And the first and the last time are the least and the greatest of its records. */
  lemma {:induction false} AboutTimes(s: seq<Record>, b: int, k: int)
    requires 0 <= k < |s| && s[k].blkaddr == b
    ensures About(s, b).Reports? && About(s, b).first <= s[k].firsttime && s[k].lasttime <= About(s, b).last
  {
    var n := |s| - 1;
    if k < n {
      AboutTimes(s[..n], b, k);
    }
  }

  lemma {:induction false} AboutAttained(s: seq<Record>, b: int) returns (k: int, l: int)
    requires About(s, b).Reports?
    ensures 0 <= k < |s| && s[k].blkaddr == b && s[k].firsttime == About(s, b).first
    ensures 0 <= l < |s| && s[l].blkaddr == b && s[l].lasttime == About(s, b).last
  {
    var n := |s| - 1;
    k, l := n, n;
    if About(s[..n], b).Reports? {
      var i, j := AboutAttained(s[..n], b);
      if s[n].blkaddr != b || s[i].firsttime <= s[n].firsttime { k := i; }
      if s[n].blkaddr != b || s[j].lasttime >= s[n].lasttime { l := j; }
    }
  }

  /** The record of the block that stands first. */
  lemma {:induction false} AboutKind(s: seq<Record>, b: int) returns (k: int)
    requires About(s, b).Reports?
    ensures 0 <= k < |s| && s[k].blkaddr == b && forall j :: 0 <= j < k ==> s[j].blkaddr != b
    ensures About(s, b).kind == Kind(s[k].readtype, s[k].severity, s[k].badrtcnt)
  {
    var n := |s| - 1;
    k := n;
    if About(s[..n], b).Reports? {
      k := AboutKind(s[..n], b);
    } else {
      forall j | 0 <= j < n ensures s[j].blkaddr != b {
        if s[j].blkaddr == b { AboutTimes(s[..n], b, j); }
      }
    }
  }

  /** The record `x` says of its block all that the log `s` says: the number of its reports up to 1023, the
      least and the greatest of its times, and the kind of error of the record that stands first. */
  ghost predicate SaysAll(x: Record, s: seq<Record>) {
    && x.reportct == (if ReportSum(s, x.blkaddr) < 1023 then ReportSum(s, x.blkaddr) else 1023)
    && (forall k :: 0 <= k < |s| && s[k].blkaddr == x.blkaddr ==>
          x.firsttime <= s[k].firsttime && s[k].lasttime <= x.lasttime)
    && (exists k :: 0 <= k < |s| && s[k].blkaddr == x.blkaddr && s[k].firsttime == x.firsttime)
    && (exists k :: 0 <= k < |s| && s[k].blkaddr == x.blkaddr && s[k].lasttime == x.lasttime)
    && (exists k :: 0 <= k < |s| && Leads(x, s, k))
  }

  /** Record `k` of `s` is the first of its block, and `x` is of the same kind. */
  ghost predicate Leads(x: Record, s: seq<Record>, k: int)
    requires 0 <= k < |s|
  {
    && s[k].blkaddr == x.blkaddr && (forall j :: 0 <= j < k ==> s[j].blkaddr != x.blkaddr)
    && s[k].readtype == x.readtype && s[k].severity == x.severity && s[k].badrtcnt == x.badrtcnt
  }

  lemma AboutSaysAll(x: Record, s: seq<Record>)
    requires AllFit(s) && About(s, x.blkaddr) == Of(x, x.blkaddr)
    ensures SaysAll(x, s)
  {
    hide About, ReportSum;
    var b := x.blkaddr;
    AboutIsSum(s, b);
    var i, j := AboutAttained(s, b);
    var k := AboutKind(s, b);
    assert Leads(x, s, k);
    forall l | 0 <= l < |s| && s[l].blkaddr == b ensures x.firsttime <= s[l].firsttime && s[l].lasttime <= x.lasttime {
      AboutTimes(s, b, l);
    }
  }

  lemma {:induction false} AboutConcat(s: seq<Record>, t: seq<Record>, b: int)
    requires AllFit(s) && AllFit(t)
    ensures About(s + t, b) == Both(About(s, b), About(t, b))
  {
    if t == [] {
      assert s + t == s;
    } else {
      var front, r := t[..|t| - 1], t[|t| - 1];
      assert Fits(r);
      AboutConcat(s, front, b);
      assert (s + t)[..|s + t| - 1] == s + front;
      AboutCounted(s, b);
      AboutCounted(front, b);
      BothLaws(About(s, b), About(front, b), Of(r, b));
    }
  }

  lemma AboutOne(r: Record, b: int)
    ensures About([r], b) == Of(r, b)
  {
    assert [r][..0] == [];
  }

  /** A block that is not in the log. */
  lemma {:induction false} AboutNone(s: seq<Record>, b: int)
    requires forall k :: 0 <= k < |s| ==> s[k].blkaddr != b
    ensures About(s, b) == Nothing
  {
    if s != [] { AboutNone(s[..|s| - 1], b); }
  }

  /** In a log without duplicates a record says all there is about its block. */
  lemma AboutOnly(s: seq<Record>, k: int)
    requires Distinct(s) && AllFit(s) && 0 <= k < |s|
    ensures About(s, s[k].blkaddr) == Of(s[k], s[k].blkaddr)
  {
    var b := s[k].blkaddr;
    assert s == (s[..k] + [s[k]]) + s[k + 1..];
    AboutConcat(s[..k] + [s[k]], s[k + 1..], b);
    AboutConcat(s[..k], [s[k]], b);
    AboutNone(s[..k], b);
    AboutNone(s[k + 1..], b);
    AboutOne(s[k], b);
  }

  // --- combining two records ---

  /** The first record after a second one with its block is merged into it. */
  function Merged(r: Record, q: Record): Record {
    r.(reportct := Capped(r.reportct + q.reportct), firsttime := Min(r.firsttime, q.firsttime),
        lasttime := Max(r.lasttime, q.lasttime))
  }

  /** Record `l` is merged into record `k` and taken out. */
  function Absorb(s: seq<Record>, k: int, l: int): seq<Record>
    requires 0 <= k < l < |s|
  {
    s[..k] + [Merged(s[k], s[l])] + s[k + 1..l] + s[l + 1..]
  }

  lemma FourParts(a: seq<Record>, r: seq<Record>, m: seq<Record>, c: seq<Record>, b: int)
    requires AllFit(a) && AllFit(r) && AllFit(m) && AllFit(c)
    ensures About(a + r + m + c, b) == Both(Both(Both(About(a, b), About(r, b)), About(m, b)), About(c, b))
  {
    AboutConcat(a, r, b);
    AboutConcat(a + r, m, b);
    AboutConcat(a + r + m, c, b);
  }

  lemma MergedIsBoth(r: Record, q: Record, b: int)
    requires Fits(r) && Fits(q) && r.blkaddr == q.blkaddr
    ensures Of(Merged(r, q), b) == Both(Of(r, b), Of(q, b)) && Fits(Merged(r, q))
    ensures Counted(Of(r, b)) && Counted(Of(q, b)) && (Of(r, b).Nothing? ==> Of(q, b).Nothing?)
  {
  }

  lemma AbsorbParts(a: seq<Record>, r: Record, m: seq<Record>, q: Record, c: seq<Record>, b: int)
    requires AllFit(a) && Fits(r) && AllFit(m) && Fits(q) && AllFit(c) && r.blkaddr == q.blkaddr
    ensures About(a + [Merged(r, q)] + m + c, b) == About(a + [r] + m + ([q] + c), b)
  {
    hide About, Both, Of, Merged, Counted;
    MergedIsBoth(r, q, b);
    FourParts(a, [r], m, [q] + c, b);
    FourParts(a, [Merged(r, q)], m, c, b);
    AboutConcat([q], c, b);
    AboutOne(r, b);
    AboutOne(q, b);
    AboutOne(Merged(r, q), b);
    AboutCounted(a, b);
    AboutCounted(m, b);
    AboutCounted(c, b);
    Shuffle(About(a, b), Of(r, b), About(m, b), Of(q, b), About(c, b));
  }

  lemma AbsorbKeeps(s: seq<Record>, k: int, l: int, b: int)
    requires AllFit(s) && 0 <= k < l < |s| && s[k].blkaddr == s[l].blkaddr
    ensures About(Absorb(s, k, l), b) == About(s, b)
  {
    hide About, Merged;
    var a, m, c := s[..k], s[k + 1..l], s[l + 1..];
    assert Fits(s[k]) && Fits(s[l]);
    assert s == a + [s[k]] + m + ([s[l]] + c);
    AbsorbParts(a, s[k], m, s[l], c, b);
  }

  lemma AbsorbFits(s: seq<Record>, k: int, l: int)
    requires AllFit(s) && 0 <= k < l < |s|
    ensures AllFit(Absorb(s, k, l))
  {
    assert Fits(s[k]) && Fits(s[l]);
  }

  lemma Shuffle(a: Digest, p: Digest, m: Digest, q: Digest, c: Digest)
    requires Counted(a) && Counted(p) && Counted(m) && Counted(q) && Counted(c) && (p.Nothing? ==> q.Nothing?)
    ensures Both(Both(Both(a, p), m), Both(q, c)) == Both(Both(Both(a, Both(p, q)), m), c)
  {
    hide Both, Counted;
    BothSwap(p, m, q);
    BothLaws(a, p, m);
    BothLaws(p, m, q);
    BothLaws(p, q, m);
    BothLaws(a, Both(p, m), q);
    BothLaws(a, Both(p, q), m);
    BothLaws(Both(a, p), m, q);
    BothLaws(Both(Both(a, p), m), q, c);
  }

  // --- the log ---

  ghost predicate SameAbout(s: seq<Record>, t: seq<Record>) {
    forall b :: About(s, b) == About(t, b)
  }

  /** No record after `k`, and before `l`, has the block of record `k`. */
  ghost predicate Alone(s: seq<Record>, k: int, l: int) {
    0 <= k < |s| && forall j :: k < j < l && j < |s| ==> s[j].blkaddr != s[k].blkaddr
  }

  /** Up to `k` every record is the only one of its block from there on. */
  ghost predicate AloneUpTo(s: seq<Record>, k: int) {
    forall j :: 0 <= j < k && j < |s| ==> Alone(s, j, |s|)
  }

  lemma AbsorbAlone(s: seq<Record>, k: int, l: int)
    requires 0 <= k < l < |s| && AloneUpTo(s, k) && Alone(s, k, l)
    ensures AloneUpTo(Absorb(s, k, l), k) && Alone(Absorb(s, k, l), k, l)
  {
    var t := Absorb(s, k, l);
    assert forall j :: 0 <= j < |t| ==> t[j].blkaddr == s[if j < l then j else j + 1].blkaddr;
    forall j | 0 <= j < k ensures Alone(t, j, |t|) {
      assert Alone(s, j, |s|);
    }
  }

  lemma AloneDistinct(s: seq<Record>, k: int)
    requires AloneUpTo(s, k) && k >= |s| - 1
    ensures Distinct(s)
  {
    forall j, l | 0 <= j < l < |s| ensures s[j].blkaddr != s[l].blkaddr {
      assert Alone(s, j, |s|);
    }
  }

  lemma FitsSnoc(s: seq<Record>, r: Record)
    requires AllFit(s) && Fits(r)
    ensures AllFit(s + [r])
  {
  }

  lemma FitsAt(s: seq<Record>, k: int)
    requires AllFit(s) && 0 <= k < |s|
    ensures Fits(s[k])
  {
  }

  lemma NoneYet(s: seq<Record>)
    ensures AloneUpTo(s, 0)
  {
  }

  lemma AloneNext(s: seq<Record>, k: int)
    requires AloneUpTo(s, k) && Alone(s, k, |s|)
    ensures AloneUpTo(s, k + 1)
  {
  }

  lemma SameSelf(s: seq<Record>)
    ensures SameAbout(s, s)
  {
  }

  lemma SameTransitive(s: seq<Record>, t: seq<Record>, u: seq<Record>)
    requires SameAbout(s, t) && SameAbout(t, u)
    ensures SameAbout(s, u)
  {
    hide About;
    forall b ensures About(s, b) == About(u, b) {
      assert About(s, b) == About(t, b) == About(u, b);
    }
  }

  lemma AbsorbSame(s: seq<Record>, k: int, l: int)
    requires AllFit(s) && 0 <= k < l < |s| && s[k].blkaddr == s[l].blkaddr
    ensures SameAbout(Absorb(s, k, l), s)
  {
    forall b ensures About(Absorb(s, k, l), b) == About(s, b) { AbsorbKeeps(s, k, l, b); }
  }

  function Without(s: seq<Record>, k: int): seq<Record>
    requires 0 <= k < |s|
  {
    s[..k] + s[k + 1..]
  }

  lemma Moved(t: seq<Record>, s: seq<Record>, r: int, e: int)
    requires |s| == e + 1 && |t| == e && 0 <= r <= e
    requires forall k :: 0 <= k < r ==> t[k] == s[k]
    requires forall k :: r < k <= e ==> t[k - 1] == s[k]
    ensures t == Without(s, r)
  {
    forall k | 0 <= k < e ensures t[k] == Without(s, r)[k] {
      if k >= r { assert t[k] == t[(k + 1) - 1] == s[k + 1]; }
    }
  }

  lemma WithoutKeeps(s: seq<Record>, k: int, b: int)
    requires AllFit(s) && 0 <= k < |s| && s[k].blkaddr != b
    ensures About(Without(s, k), b) == About(s, b)
  {
    assert s == (s[..k] + [s[k]]) + s[k + 1..];
    AboutConcat(s[..k] + [s[k]], s[k + 1..], b);
    AboutConcat(s[..k], [s[k]], b);
    AboutConcat(s[..k], s[k + 1..], b);
    AboutOne(s[k], b);
  }

  // --- which record is thrown away ---

  /** The place of the record to throw away among the first `n`. */
  function Victim(s: seq<Record>, n: int): (v: int)
    requires 1 <= n <= |s|
    ensures 0 <= v < n
  {
    if n == 1 then 0
    else
      var v := Victim(s, n - 1);
      if s[n - 1].reportct <= s[v].reportct && s[n - 1].firsttime < s[v].firsttime then n - 1 else v
  }

  /** No later record has as few reports and an earlier first time; than any earlier one the record has fewer
      reports or an earlier first time, and than the first one of the log neither more nor a later one. */
  lemma {:induction false} VictimLast(s: seq<Record>, n: int)
    requires 1 <= n <= |s|
    ensures var v := Victim(s, n);
            && (forall k :: v < k < n ==> !(s[k].reportct <= s[v].reportct && s[k].firsttime < s[v].firsttime))
            && (forall k :: 0 <= k < v ==> s[v].reportct < s[k].reportct || s[v].firsttime < s[k].firsttime)
            && s[v].reportct <= s[0].reportct && s[v].firsttime <= s[0].firsttime
    decreases n
  {
    if n > 1 { VictimLast(s, n - 1); }
  }

  // --- a report ---

  /** What a full log has to be after a report: no block twice, the block of the report in it, and for
      every block, but for at most one that had to go, all that was known and the report. */
  ghost predicate Updated(t: seq<Record>, s: seq<Record>, r: Record, gone: seq<int>) {
    && Distinct(t) && AllFit(t) && |t| <= |s| && |gone| <= 1
    && (forall b :: b !in gone ==> About(t, b) == About(s + [r], b))
    && (exists k :: 0 <= k < |t| && t[k].blkaddr == r.blkaddr)
    && (gone != [] ==>
          && Distinct(s) && s != [] && gone[0] == s[Victim(s, |s|)].blkaddr && About(t, gone[0]) == Nothing
          && forall k :: 0 <= k < |s| ==> s[k].blkaddr != r.blkaddr)
  }

  /** What the log then is, without speaking of digests: of every block but the one that had to go there is
      exactly one record, which says all that the old records and the report do. */
  ghost predicate Renewed(t: seq<Record>, u: seq<Record>, gone: seq<int>) {
    && (forall k, l :: 0 <= k < l < |t| ==> t[k].blkaddr != t[l].blkaddr)
    && (forall k :: 0 <= k < |t| ==> SaysAll(t[k], u))
    && (forall k :: 0 <= k < |u| && u[k].blkaddr !in gone ==> exists l :: 0 <= l < |t| && t[l].blkaddr == u[k].blkaddr)
    && (forall k :: 0 <= k < |t| ==> t[k].blkaddr !in gone)
  }

  lemma UpdatedRenewed(t: seq<Record>, s: seq<Record>, r: Record, gone: seq<int>)
    requires Updated(t, s, r, gone) && AllFit(s) && Fits(r)
    ensures Renewed(t, s + [r], gone)
  {
    hide About, SaysAll, Victim;
    var u := s + [r];
    FitsSnoc(s, r);
    forall k | 0 <= k < |t| ensures SaysAll(t[k], u) && t[k].blkaddr !in gone {
      AboutOnly(t, k);
      AboutSaysAll(t[k], u);
    }
    forall k | 0 <= k < |u| && u[k].blkaddr !in gone
      ensures exists l :: 0 <= l < |t| && t[l].blkaddr == u[k].blkaddr
    {
      AboutTimes(u, u[k].blkaddr, k);
      if forall l :: 0 <= l < |t| ==> t[l].blkaddr != u[k].blkaddr { AboutNone(t, u[k].blkaddr); }
    }
  }

  /** The block is there: its record takes the report in. */
  lemma Recorded(t: seq<Record>, s: seq<Record>, r: Record, k: int)
    requires SameAbout(t, s) && Distinct(t) && AllFit(t) && AllFit(s) && |t| <= |s| && Fits(r)
    requires 0 <= k < |t| && t[k].blkaddr == r.blkaddr
    ensures Updated(t[k := Merged(t[k], r)], s, r, []) && AllFit(t[k := Merged(t[k], r)])
  {
    hide About, SameAbout;
    var u := t[k := Merged(t[k], r)];
    assert Absorb(t + [r], k, |t|) == u;
    forall b ensures About(u, b) == About(s + [r], b) {
      AbsorbKeeps(t + [r], k, |t|, b);
      AboutConcat(t, [r], b);
      AboutConcat(s, [r], b);
      SameAt(t, s, b);
    }
    AbsorbFits(t + [r], k, |t|);
    assert u[k].blkaddr == r.blkaddr;
  }

  lemma SameAt(t: seq<Record>, s: seq<Record>, b: int)
    requires SameAbout(t, s)
    ensures About(t, b) == About(s, b)
  {
  }

  /** The block is new and combining has made room. */
  lemma Appended(t: seq<Record>, s: seq<Record>, r: Record)
    requires SameAbout(t, s) && Distinct(t) && AllFit(t) && AllFit(s) && |t| < |s| && Fits(r)
    requires forall k :: 0 <= k < |t| ==> t[k].blkaddr != r.blkaddr
    ensures Updated(t + [r], s, r, []) && AllFit(t + [r])
  {
    hide About, SameAbout;
    forall b ensures About(t + [r], b) == About(s + [r], b) {
      AboutConcat(t, [r], b);
      AboutConcat(s, [r], b);
      SameAt(t, s, b);
    }
    assert (t + [r])[|t|].blkaddr == r.blkaddr;
  }

  lemma ReplacedDistinct(s: seq<Record>, r: Record, v: int)
    requires Distinct(s) && AllFit(s) && Fits(r) && 0 <= v < |s| && forall k :: 0 <= k < |s| ==>
        s[k].blkaddr != r.blkaddr
    ensures Distinct(Without(s, v) + [r]) && AllFit(Without(s, v) + [r])
    ensures forall k :: 0 <= k < |s| ==> (Without(s, v) + [r])[k].blkaddr != s[v].blkaddr
  {
    var t := Without(s, v) + [r];
    assert forall k :: 0 <= k < |s| ==> t[k] == if k == |s| - 1 then r else s[if k < v then k else k + 1];
  }

  lemma ReplacedAbout(s: seq<Record>, r: Record, v: int, b: int)
    requires AllFit(s) && Fits(r) && 0 <= v < |s| && s[v].blkaddr != b
    ensures About(Without(s, v) + [r], b) == About(s + [r], b)
  {
    hide About;
    WithoutKeeps(s, v, b);
    AboutConcat(Without(s, v), [r], b);
    AboutConcat(s, [r], b);
  }

  /** The block is new and nothing could be combined. */
  lemma Evicted(s: seq<Record>, r: Record)
    requires Distinct(s) && AllFit(s) && |s| > 0 && Fits(r) && forall k :: 0 <= k < |s| ==> s[k].blkaddr != r.blkaddr
    ensures var v := Victim(s, |s|);
            Updated(Without(s, v) + [r], s, r, [s[v].blkaddr]) && AllFit(Without(s, v) + [r])
  {
    hide About, Victim, AllFit, Distinct;
    var v := Victim(s, |s|);
    var e, t := s[v].blkaddr, Without(s, v) + [r];
    ReplacedDistinct(s, r, v);
    forall b | b !in [e] ensures About(t, b) == About(s + [r], b) {
      assert e in [e];
      ReplacedAbout(s, r, v, b);
    }
    AboutNone(t, e);
    assert t[|t| - 1].blkaddr == r.blkaddr;
  }

  class Log {
    const errlist: array<Record>
    var logentct: int

    constructor (n: nat)
      requires n > 0
      ensures Valid() && errlist.Length == n && logentct == 0 && fresh(errlist)
    {
      errlist := new Record[n](_ => ZEROREC);
      logentct := 0;
    }

    ghost predicate Valid()
      reads this, errlist
    {
      && 0 <= logentct <= errlist.Length && errlist.Length > 0
      && AllFit(errlist[..logentct])
    }

    ghost function Records(): seq<Record>
      requires Valid()
      reads this, errlist
    {
      errlist[..logentct]
    }

    /** The records after `r2p` are moved down by one slot each, and the slot `ep` is zeroed. */
    method Remove(r2p: int, ep: int)
      requires 0 <= r2p <= ep < errlist.Length
      modifies errlist
      ensures errlist[..ep] == Without(old(errlist[..ep + 1]), r2p)
    {
      ghost var s := errlist[..ep + 1];
      var r3p := r2p;
      while r3p < ep
        invariant r2p <= r3p <= ep
        invariant forall k :: 0 <= k < r2p ==> errlist[k] == s[k]
        invariant forall k :: r2p < k <= r3p ==> errlist[k - 1] == s[k]
        invariant forall k :: r3p <= k <= ep ==> errlist[k] == s[k]
      {
        errlist[r3p] := errlist[r3p + 1];
        r3p := r3p + 1;
      }
      ghost var moved := errlist[..ep];
      Moved(moved, s, r2p, ep);
      errlist[ep] := ZEROREC;
      assert errlist[..ep] == moved;
    }

    /** The inner loop: record `rp` takes in the later records of its block. */
    method CombineWith(rp: int, i0: int) returns (i: int)
      requires 0 <= rp < i0 - 1 && i0 <= errlist.Length && AllFit(errlist[..i0]) && AloneUpTo(errlist[..i0], rp)
      modifies errlist
      ensures rp < i <= i0 && AllFit(errlist[..i]) && AloneUpTo(errlist[..i], rp + 1)
      ensures SameAbout(errlist[..i], old(errlist[..i0]))
      ensures i == i0 ==> errlist[..] == old(errlist[..])
    {
      hide About, Absorb, Merged, AloneUpTo, AllFit, SameAbout;
      i := i0;
      var r2p, ep := rp + 1, i0 - 1;
      SameSelf(errlist[..i]);
      while r2p <= ep
        invariant rp < r2p <= ep + 1 == i <= i0
        invariant AllFit(errlist[..i]) && AloneUpTo(errlist[..i], rp) && Alone(errlist[..i], rp, r2p)
        invariant SameAbout(errlist[..i], old(errlist[..i0]))
        invariant i == i0 ==> errlist[..] == old(errlist[..])
        decreases ep - r2p
      {
        if errlist[rp].blkaddr == errlist[r2p].blkaddr {
          ghost var s := errlist[..i];
          AbsorbAlone(s, rp, r2p);
          AbsorbFits(s, rp, r2p);
          AbsorbSame(s, rp, r2p);
          MergeAt(rp, r2p, ep);
          i := i - 1;
          ep := ep - 1;
          SameTransitive(errlist[..i], s, old(errlist[..i0]));
        } else {
          r2p := r2p + 1;
        }
      }
      AloneNext(errlist[..i], rp);
    }

    /** Two records of one block become one, and the records after the second move up. */
    method MergeAt(rp: int, r2p: int, ep: int)
      requires 0 <= rp < r2p <= ep < errlist.Length
      modifies errlist
      ensures errlist[..ep] == Absorb(old(errlist[..ep + 1]), rp, r2p)
    {
      ghost var s := errlist[..ep + 1];
      if errlist[r2p].firsttime < errlist[rp].firsttime {
        errlist[rp] := errlist[rp].(firsttime := errlist[r2p].firsttime);
      }
      if errlist[r2p].lasttime > errlist[rp].lasttime {
        errlist[rp] := errlist[rp].(lasttime := errlist[r2p].lasttime);
      }
      var rcnt := errlist[rp].reportct + errlist[r2p].reportct;
      if rcnt > MAXRPTCNT {
        rcnt := MAXRPTCNT;
      }
      errlist[rp] := errlist[rp].(reportct := rcnt);
      assert errlist[rp] == Merged(s[rp], s[r2p]);
      assert errlist[..ep + 1] == s[rp := errlist[rp]];
      Remove(r2p, ep);
      assert s[rp := Merged(s[rp], s[r2p])][..r2p] == s[..rp] + [Merged(s[rp], s[r2p])] + s[rp + 1..r2p];
    }

    /** The records of each block are combined into its first one; `i` of them are left. */
    method Combine() returns (i: int)
      requires errlist.Length > 0 && AllFit(errlist[..])
      modifies errlist
      ensures 0 < i <= errlist.Length && AllFit(errlist[..i]) && Distinct(errlist[..i])
      ensures SameAbout(errlist[..i], old(errlist[..]))
      ensures i == errlist.Length ==> errlist[..] == old(errlist[..])
    {
      hide About, Absorb, Merged, Distinct, AloneUpTo;
      var n := errlist.Length;
      var rp, ep := 0, n - 1;
      i := n;
      assert errlist[..i] == errlist[..];
      SameSelf(errlist[..i]);
      NoneYet(errlist[..i]);
      while rp < ep
        invariant 0 <= rp && 0 <= ep < n && i == ep + 1
        invariant AllFit(errlist[..i]) && SameAbout(errlist[..i], old(errlist[..])) && AloneUpTo(errlist[..i], rp)
        invariant i == n ==> errlist[..] == old(errlist[..])
        decreases ep - rp
      {
        i := CombineWith(rp, i);
        ep := i - 1;
        rp := rp + 1;
      }
      AloneDistinct(errlist[..i], rp);
    }

    /** The record takes one report more. */
    method TakeIn(rp: int, nrec: Record)
      requires 0 <= rp < errlist.Length && nrec.reportct == 1 && Fits(errlist[rp])
      modifies errlist
      ensures errlist[..] == old(errlist[..])[rp := Merged(old(errlist[rp]), nrec)]
    {
      if nrec.firsttime < errlist[rp].firsttime {
        errlist[rp] := errlist[rp].(firsttime := nrec.firsttime);
      }
      if nrec.lasttime > errlist[rp].lasttime {
        errlist[rp] := errlist[rp].(lasttime := nrec.lasttime);
      }
      if errlist[rp].reportct < MAXRPTCNT {
        errlist[rp] := errlist[rp].(reportct := errlist[rp].reportct + 1);
      }
    }

    method FindVictim() returns (r2p: int)
      requires errlist.Length > 0
      ensures r2p == Victim(errlist[..], errlist.Length)
    {
      r2p := 0;
      var i := errlist[0].reportct;
      var rp := 1;
      while rp < errlist.Length
        invariant 1 <= rp <= errlist.Length && r2p == Victim(errlist[..], rp) && i == errlist[r2p].reportct
      {
        if errlist[rp].reportct <= i && errlist[rp].firsttime < errlist[r2p].firsttime {
          r2p := rp;
          i := errlist[rp].reportct;
        }
        rp := rp + 1;
      }
    }

    /** add1rep.  A log with room gets one record more; a full one is combined, and loses a record only when
        combining makes no room. */
    method Add1Rep(blkaddr: int, readtype: int, severity: int, badrtcnt: int, time: int) returns (ghost gone: seq<int>)
      requires Valid()
      modifies this, errlist
      ensures Valid()
      ensures var r := Record(blkaddr, readtype, severity, badrtcnt, 1, time, time);
              if old(logentct) < errlist.Length then Records() == old(Records()) + [r]
              else Updated(Records(), old(Records()), r, gone) && Renewed(Records(), old(Records()) + [r], gone)
    {
      hide About, Distinct, SameAbout, Victim, Updated, Merged, AllFit, Renewed;
      var nrec := Record(blkaddr, readtype, severity, badrtcnt, 1, time, time);
      gone := [];
      if logentct < errlist.Length {
        ghost var s := errlist[..logentct];
        errlist[logentct] := nrec;
        logentct := logentct + 1;
        assert errlist[..logentct] == s + [nrec];
        FitsSnoc(s, nrec);
        return;
      }
      ghost var s := errlist[..];
      assert errlist[..logentct] == s;
      var i := Combine();
      ghost var t := errlist[..i];
      var ep := i - 1;
      var rp := 0;
      while rp <= ep
        invariant 0 <= rp <= i && errlist[..i] == t && forall k :: 0 <= k < rp ==> t[k].blkaddr != nrec.blkaddr
        invariant i == errlist.Length ==> errlist[..] == s
      {
        if errlist[rp].blkaddr == nrec.blkaddr {
          FitsAt(t, rp);
          TakeIn(rp, nrec);
          Recorded(t, s, nrec, rp);
          logentct := i;
          UpdatedRenewed(errlist[..i], s, nrec, gone);
          return;
        }
        rp := rp + 1;
      }
      if i == errlist.Length {
        assert t == s;
        var v := FindVictim();
        gone := [s[v].blkaddr];
        Evicted(s, nrec);
        assert errlist[..ep + 1] == s;
        Remove(v, ep);
      } else {
        Appended(t, s, nrec);
        logentct := i + 1;
        ep := ep + 1;
      }
      ghost var u := errlist[..ep];
      errlist[ep] := nrec;
      assert errlist[..ep + 1] == u + [nrec];
      UpdatedRenewed(u + [nrec], s, nrec, gone);
    }
  }
}
