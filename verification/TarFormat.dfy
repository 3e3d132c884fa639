/** The header block of cmd/tar.c: the ustar layout of IEEE Std 1003.1-1988, section 10.1.1, how it is
    written field by field, and how it is read back. */
module TarFormat {
  import opened Wrappers

  const TBLOCK: int := 512
  const NAMSIZ: int := 100
  const SPACE: int := 32
  const ZERO: int := 48
  const LNKTYPE: int := 49

  const NAME: int := 0
  const MODE: int := 100
  const UID: int := 108
  const GID: int := 116
  const SIZE: int := 124
  const MTIME: int := 136
  const CHKSUM: int := 148
  const TYPEFLAG: int := 156
  const LINKNAME: int := 157
  const MAGIC: int := 257
  const VERSION: int := 263

  type Str = seq<int>


  /** What a header says: a regular file, or one more name of a file already in the archive. */
  datatype Entry = Entry(name: Str, mode: int, uid: int, gid: int, size: int, mtime: int, link: Option<Str>)

  ghost predicate IsString(s: Str) { forall k :: 0 <= k < |s| ==> 0 < s[k] < 256 }

  /** Entries that fit the fields of a header. */
  ghost predicate Storable(e: Entry) {
    && IsString(e.name) && 0 < |e.name| < NAMSIZ
    && 0 <= e.mode < 4096 && 0 <= e.uid < 262144 && 0 <= e.gid < 262144
    && 0 <= e.size < 8589934592 && 0 <= e.mtime < 8589934592
    && (e.link.Some? ==> IsString(e.link.value) && |e.link.value| < NAMSIZ)
  }

  // --- octal numbers ---

  function Octal(n: nat): (s: Str)
    ensures |s| > 0 && forall k :: 0 <= k < |s| ==> ZERO <= s[k] < ZERO + 8
  {
    if n < 8 then [ZERO + n] else Octal(n / 8) + [ZERO + n % 8]
  }

  function Spaces(n: int): (s: Str)
    ensures |s| == if n > 0 then n else 0
    ensures forall k :: 0 <= k < |s| ==> s[k] == SPACE
  {
    if n <= 0 then [] else [SPACE] + Spaces(n - 1)
  }

  /** `%6o`, `%11lo` */
  function Field(n: nat, w: int): Str { Spaces(w - |Octal(n)|) + Octal(n) }

  /** Numbers that fit their fields. */
  lemma FieldLength(n: nat)
    ensures n < 262144 ==> |Field(n, 6)| == 6
    ensures n < 8589934592 ==> |Field(n, 11)| == 11
  {
    if n < 262144 { OctalLength(n, 6, 262144); }
    if n < 8589934592 { OctalLength(n, 11, 8589934592); }
  }

  lemma {:induction false} OctalLength(n: nat, w: nat, limit: int)
    requires w >= 1 && limit == Power8(w) && n < limit
    ensures |Octal(n)| <= w
    decreases w
  {
    if n >= 8 {
      assert w > 1;
      OctalLength(n / 8, w - 1, Power8(w - 1));
    }
  }

  function Power8(w: nat): int { if w == 0 then 1 else 8 * Power8(w - 1) }

  /** `sscanf("%o")` */
  function Scan(s: Str): int {
    if s != [] && s[0] == SPACE then Scan(s[1..]) else Digits(s, 0)
  }

  function Digits(s: Str, acc: int): int {
    if s != [] && ZERO <= s[0] < ZERO + 8 then Digits(s[1..], 8 * acc + s[0] - ZERO) else acc
  }

  lemma {:induction false} DigitsOctal(n: nat, t: Str)
    requires t != [] ==> !(ZERO <= t[0] < ZERO + 8)
    ensures Digits(Octal(n) + t, 0) == n
  {
    DigitsThrough(Octal(n), t, 0);
    FoldOctal(n);
  }

  function Fold(ds: Str, acc: int): int {
    if ds == [] then acc else Fold(ds[1..], 8 * acc + ds[0] - ZERO)
  }

  lemma {:induction false} DigitsThrough(ds: Str, t: Str, acc: int)
    requires (forall k :: 0 <= k < |ds| ==> ZERO <= ds[k] < ZERO + 8) && (t != [] ==> !(ZERO <= t[0] < ZERO + 8))
    ensures Digits(ds + t, acc) == Fold(ds, acc)
  {
    if ds == [] {
      assert ds + t == t;
    } else {
      assert (ds + t)[1..] == ds[1..] + t;
      DigitsThrough(ds[1..], t, 8 * acc + ds[0] - ZERO);
    }
  }

  lemma {:induction false} FoldSnoc(ds: Str, d: int, acc: int)
    ensures Fold(ds + [d], acc) == 8 * Fold(ds, acc) + d - ZERO
  {
    if ds == [] {
      assert ds + [d] == [d];
      assert [d][1..] == [];
    } else {
      assert (ds + [d])[1..] == ds[1..] + [d];
      FoldSnoc(ds[1..], d, 8 * acc + ds[0] - ZERO);
    }
  }

  lemma {:induction false} FoldOctal(n: nat)
    ensures Fold(Octal(n), 0) == n
  {
    if n < 8 {
      assert Octal(n)[1..] == [];
    } else {
      FoldOctal(n / 8);
      FoldSnoc(Octal(n / 8), ZERO + n % 8, 0);
    }
  }

  lemma {:induction false} SkipSpaces(k: int, s: Str)
    requires s != [] && s[0] != SPACE
    ensures Scan(Spaces(k) + s) == Digits(s, 0)
  {
    if k > 0 {
      assert (Spaces(k) + s)[1..] == Spaces(k - 1) + s;
      SkipSpaces(k - 1, s);
    } else {
      assert Spaces(k) + s == s;
    }
  }

  /** A number printed into a field is read back, whatever non-digit comes after it. */
  lemma ScanField(n: nat, w: int, t: Str)
    requires t != [] ==> !(ZERO <= t[0] < ZERO + 8)
    ensures Scan(Field(n, w) + t) == n
  {
    hide Scan, Digits, Octal, Spaces;
    DigitsOctal(n, t);
    SkipSpaces(w - |Octal(n)|, Octal(n) + t);
    assert Field(n, w) + t == Spaces(w - |Octal(n)|) + (Octal(n) + t);
  }

  // --- the layout ---

  /** The sum of all bytes, with the checksum field taken as blanks. */
  function Sum(h: Str, n: nat): int
    requires n <= |h|
  {
    if n == 0 then 0 else Sum(h, n - 1) + (if CHKSUM <= n - 1 < CHKSUM + 8 then SPACE else h[n - 1])
  }

  ghost predicate Bytes(h: Str) { forall k :: 0 <= k < |h| ==> 0 <= h[k] < 256 }

  lemma {:induction false} SumBounds(h: Str, n: nat)
    requires n <= |h| && Bytes(h)
    ensures 0 <= Sum(h, n) <= 255 * n
  {
    if n > 0 { SumBounds(h, n - 1); }
  }

  /** `s` stands at `at`. */
  ghost predicate Stands(h: Str, at: int, s: Str) {
    0 <= at && at + |s| <= |h| && h[at..at + |s|] == s
  }

  /** A header block: names end with a NUL, numbers are octal and end with a blank. */
  ghost predicate Header(h: Str, e: Entry) {
    && |h| == TBLOCK && (forall k :: 0 <= k < TBLOCK ==> 0 <= h[k] < 256)
    && Stands(h, NAME, e.name + [0])
    && e.mode >= 0 && Stands(h, MODE, Field(e.mode, 6) + [SPACE, 0])
    && e.uid >= 0 && Stands(h, UID, Field(e.uid, 6) + [SPACE, 0])
    && e.gid >= 0 && Stands(h, GID, Field(e.gid, 6) + [SPACE, 0])
    && e.size >= 0 && Stands(h, SIZE, Field(e.size, 11) + [SPACE])
    && e.mtime >= 0 && Stands(h, MTIME, Field(e.mtime, 11) + [SPACE])
    && Sum(h, TBLOCK) >= 0 && Stands(h, CHKSUM, Field(Sum(h, TBLOCK), 6) + [0, SPACE])
    && h[TYPEFLAG] == (if e.link.Some? then LNKTYPE else 0)
    && Stands(h, LINKNAME, (if e.link.Some? then e.link.value else []) + [0])
    && Stands(h, MAGIC, [117, 115, 116, 97, 114, 0]) && Stands(h, VERSION, [ZERO, ZERO])
  }

  // --- the layout in plain numbers ---

  /** The value of octal digits. */
  function OctalValue(s: Str): int {
    if s == [] then 0 else 8 * OctalValue(s[..|s| - 1]) + s[|s| - 1] - 48
  }

  /** In the `w` bytes at `at` stand `k` blanks and then the octal digits of `n`. */
  ghost predicate OctalAt(h: Str, at: nat, w: nat, n: int, k: nat) {
    && k < w && at + w <= |h| && (forall j :: at <= j < at + k ==> h[j] == 32)
    && (forall j :: at + k <= j < at + w ==> 48 <= h[j] <= 55) && OctalValue(h[at + k..at + w]) == n
  }

  ghost predicate Octals(h: Str, at: nat, w: nat, n: int) { exists k :: OctalAt(h, at, w, n, k) }

  lemma {:induction false} ValueOfOctal(n: nat)
    ensures OctalValue(Octal(n)) == n
  {
    if n < 8 {
      assert Octal(n)[..0] == [];
    } else {
      ValueOfOctal(n / 8);
      var s := Octal(n);
      assert s[..|s| - 1] == Octal(n / 8);
    }
  }

  lemma StandsSplit(h: Str, at: nat, a: Str, b: Str)
    requires Stands(h, at, a + b)
    ensures Stands(h, at, a) && Stands(h, at + |a|, b)
  {
    var all := h[at..at + |a| + |b|];
    assert h[at..at + |a|] == all[..|a|];
    assert h[at + |a|..at + |a| + |b|] == all[|a|..];
  }

  lemma StandsEach(h: Str, at: nat, s: Str, j: int)
    requires Stands(h, at, s) && at <= j < at + |s|
    ensures h[j] == s[j - at]
  {
    assert h[at..at + |s|][j - at] == h[j];
  }

  lemma FieldAt(h: Str, at: nat, w: nat, n: nat, t: Str)
    requires Stands(h, at, Field(n, w) + t) && |Field(n, w)| == w
    ensures Octals(h, at, w, n) && at + w + |t| <= |h| && h[at + w..at + w + |t|] == t
  {
    hide Octal, OctalValue, Stands;
    var k := w - |Octal(n)|;
    StandsSplit(h, at, Field(n, w), t);
    StandsSplit(h, at, Spaces(k), Octal(n));
    StandsAt(h, at + w, t);
    StandsAt(h, at + k, Octal(n));
    forall j | at + k <= j < at + w ensures 48 <= h[j] <= 55 { StandsEach(h, at + k, Octal(n), j); }
    forall j | at <= j < at + k ensures h[j] == 32 { StandsEach(h, at, Spaces(k), j); }
    ValueOfOctal(n);
    assert OctalAt(h, at, w, n, k);
  }

  lemma StandsAt(h: Str, at: nat, s: Str)
    requires Stands(h, at, s)
    ensures at + |s| <= |h| && h[at..at + |s|] == s
  {
  }

  /** The bytes from `i` on, up to `n`. */
  function BytesSum(h: Str, i: nat, n: nat): int
    requires i <= n <= |h|
    decreases n
  {
    if n == i then 0 else BytesSum(h, i, n - 1) + h[n - 1]
  }

  lemma {:induction false} SumParts(h: Str, n: nat)
    requires 156 <= n <= |h|
    ensures Sum(h, n) == BytesSum(h, 0, 148) + 8 * 32 + BytesSum(h, 156, n)
    decreases n
  {
    if n > 156 {
      SumParts(h, n - 1);
    } else {
      SumFront(h, 148);
      SumBlanks(h, 8);
    }
  }

  lemma {:induction false} SumFront(h: Str, n: nat)
    requires n <= 148 && n <= |h|
    ensures Sum(h, n) == BytesSum(h, 0, n)
    decreases n
  {
    if n > 0 { SumFront(h, n - 1); }
  }

  lemma {:induction false} SumBlanks(h: Str, n: nat)
    requires n <= 8 && 148 + n <= |h|
    ensures Sum(h, 148 + n) == Sum(h, 148) + 32 * n
    decreases n
  {
    if n > 0 { SumBlanks(h, n - 1); }
  }

  /** The header of an entry is the one of the standard: each field at its offset, numbers in octal, and as the
      checksum the sum of all 512 bytes, those of the checksum itself counted as blanks. */
  lemma UstarNumbers(h: Str, e: Entry)
    requires Storable(e) && Header(h, e)
    ensures |h| == 512
    ensures Octals(h, 100, 6, e.mode) && h[106..108] == [32, 0]
    ensures Octals(h, 108, 6, e.uid) && h[114..116] == [32, 0]
    ensures Octals(h, 116, 6, e.gid) && h[122..124] == [32, 0]
    ensures Octals(h, 124, 11, e.size) && h[135..136] == [32]
    ensures Octals(h, 136, 11, e.mtime) && h[147..148] == [32]
    ensures Octals(h, 148, 6, BytesSum(h, 0, 148) + 8 * 32 + BytesSum(h, 156, 512)) && h[154..156] == [0, 32]
  {
    hide Octals, Field, Sum, BytesSum;
    SumBounds(h, TBLOCK);
    NumberLengths(e, Sum(h, TBLOCK));
    FieldAt(h, 100, 6, e.mode, [SPACE, 0]);
    FieldAt(h, 108, 6, e.uid, [SPACE, 0]);
    FieldAt(h, 116, 6, e.gid, [SPACE, 0]);
    FieldAt(h, 124, 11, e.size, [SPACE]);
    FieldAt(h, 136, 11, e.mtime, [SPACE]);
    FieldAt(h, 148, 6, Sum(h, TBLOCK), [0, SPACE]);
    SumParts(h, 512);
  }

  lemma UstarNames(h: Str, e: Entry)
    requires Storable(e) && Header(h, e)
    ensures |h| == 512 && |e.name| < 100 && h[..|e.name|] == e.name && h[|e.name|] == 0
    ensures h[156] == if e.link.Some? then '1' as int else 0
    ensures e.link.Some? ==> (var s := e.link.value; |s| < 100 && h[157..157 + |s|] == s && h[157 + |s|] == 0)
    ensures h[257..263] == ['u' as int, 's' as int, 't' as int, 'a' as int, 'r' as int, 0]
    ensures h[263..265] == ['0' as int, '0' as int]
  {
    hide Field, Sum;
    NameAt(h, 0, e.name);
    if e.link.Some? { NameAt(h, 157, e.link.value); }
  }

  lemma NumberLengths(e: Entry, sum: int)
    requires Storable(e) && 0 <= sum < 262144
    ensures |Field(e.mode, 6)| == 6 && |Field(e.uid, 6)| == 6 && |Field(e.gid, 6)| == 6 && |Field(sum, 6)| == 6
    ensures |Field(e.size, 11)| == 11 && |Field(e.mtime, 11)| == 11
  {
    FieldLength(e.mode);
    FieldLength(e.uid);
    FieldLength(e.gid);
    FieldLength(sum);
    FieldLength(e.size);
    FieldLength(e.mtime);
  }

  lemma NameAt(h: Str, at: nat, s: Str)
    requires Stands(h, at, s + [0])
    ensures at + |s| < |h| && h[at..at + |s|] == s && h[at + |s|] == 0
  {
    var all := h[at..at + |s| + 1];
    assert h[at..at + |s|] == all[..|s|];
    assert h[at + |s|] == all[|s|];
  }

  // --- reading ---

  /** A string that ends at its NUL. */
  function CString(s: Str): Str {
    if s == [] || s[0] == 0 then [] else [s[0]] + CString(s[1..])
  }

  /** What getdir makes of a block: the fields, or nothing if the checksum is wrong. */
  function Decode(h: Str): Option<Entry>
    requires |h| == TBLOCK
  {
    if Scan(h[CHKSUM..]) != Sum(h, TBLOCK) then None
    else
      Some(Entry(CString(h[NAME..]), Scan(h[MODE..]), Scan(h[UID..]), Scan(h[GID..]), Scan(h[SIZE..]), Scan(h[MTIME..]),
                 if h[TYPEFLAG] == LNKTYPE then Some(CString(h[LINKNAME..])) else None))
  }

  lemma {:induction false} CStringEnds(s: Str, t: Str)
    requires IsString(s)
    ensures CString(s + [0] + t) == s
  {
    if s != [] {
      assert (s + [0] + t)[1..] == s[1..] + [0] + t;
      CStringEnds(s[1..], t);
    }
  }

  lemma ScanAt(h: Str, at: int, n: nat, w: int, t: Str)
    requires Stands(h, at, Field(n, w) + t) && t != [] && !(ZERO <= t[0] < ZERO + 8)
    ensures Scan(h[at..]) == n
  {
    hide Scan, Field;
    var f := Field(n, w);
    var e := at + |f| + |t|;
    assert h[at..] == h[at..e] + h[e..];
    assert h[at..] == f + (t + h[e..]);
    ScanField(n, w, t + h[e..]);
  }

  lemma StringAt(h: Str, at: int, s: Str)
    requires Stands(h, at, s + [0]) && IsString(s)
    ensures CString(h[at..]) == s
  {
    hide CString;
    var e := at + |s| + 1;
    assert h[at..] == h[at..e] + h[e..];
    CStringEnds(s, h[e..]);
  }

  /** Every header is read back as the entry it was written for, and its checksum is right. */
  lemma HeaderDecodes(h: Str, e: Entry)
    requires Storable(e) && Header(h, e)
    ensures Decode(h) == Some(e)
  {
    hide Scan, CString, Field, Sum, Stands;
    StringAt(h, NAME, e.name);
    ScanAt(h, MODE, e.mode, 6, [SPACE, 0]);
    ScanAt(h, UID, e.uid, 6, [SPACE, 0]);
    ScanAt(h, GID, e.gid, 6, [SPACE, 0]);
    ScanAt(h, SIZE, e.size, 11, [SPACE]);
    ScanAt(h, MTIME, e.mtime, 11, [SPACE]);
    ScanAt(h, CHKSUM, Sum(h, TBLOCK), 6, [0, SPACE]);
    StringAt(h, LINKNAME, if e.link.Some? then e.link.value else []);
  }
}
