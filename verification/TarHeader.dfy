/** How cmd/tar.c fills its header block in place: every `sprintf` leaves a NUL that the next field may
    overwrite. */
module TarHeader {
  import opened Wrappers
  import opened TarFormat

  datatype Stat = Stat(mode: int, uid: int, gid: int, size: int, mtime: int)

  function Put(h: Str, at: int, s: Str): (r: Str)
    requires 0 <= at && at + |s| <= |h|
    ensures |r| == |h|
  {
    h[..at] + s + h[at + |s|..]
  }

  lemma PutStands(h: Str, at: int, s: Str)
    requires 0 <= at && at + |s| <= |h|
    ensures Stands(Put(h, at, s), at, s)
    ensures Bytes(h) && Bytes(s) ==> Bytes(Put(h, at, s))
  {
  }

  /** A field elsewhere stays. */
  lemma PutBeside(h: Str, at: int, s: Str, other: int, t: Str)
    requires 0 <= at && at + |s| <= |h| && Stands(h, other, t) && (other + |t| <= at || at + |s| <= other)
    ensures Stands(Put(h, at, s), other, t)
  {
    var r := Put(h, at, s);
    forall k | other <= k < other + |t| ensures r[k] == h[k] {}
    assert r[other..other + |t|] == h[other..other + |t|];
  }

  /** A shorter part of a field stands where the field does. */
  lemma StandsPart(h: Str, at: int, s: Str, t: Str)
    requires Stands(h, at, s + t)
    ensures Stands(h, at, s)
  {
    assert h[at..at + |s|] == h[at..at + |s + t|][..|s|];
  }

  /** The fields that tomodes writes. */
  ghost predicate Modes(h: Str, st: Stat) {
    && |h| == TBLOCK && Bytes(h) && Sizes(st)
    && st.mode >= 0 && Stands(h, MODE, Field(st.mode, 6) + [SPACE, 0])
    && st.uid >= 0 && Stands(h, UID, Field(st.uid, 6) + [SPACE, 0])
    && st.gid >= 0 && Stands(h, GID, Field(st.gid, 6) + [SPACE, 0])
    && st.size >= 0 && Stands(h, SIZE, Field(st.size, 11) + [SPACE])
    && st.mtime >= 0 && Stands(h, MTIME, Field(st.mtime, 11) + [SPACE])
    && Stands(h, MAGIC, [117, 115, 116, 97, 114, 0]) && Stands(h, VERSION, [ZERO, ZERO])
  }

  lemma FieldBytes(n: nat, w: int)
    ensures Bytes(Field(n, w))
  {
  }

  ghost predicate Sizes(st: Stat) {
    && 0 <= st.mode < 4096 && 0 <= st.uid < 262144 && 0 <= st.gid < 262144
    && 0 <= st.size < 8589934592 && 0 <= st.mtime < 8589934592
  }

  /** The checksum does not depend on its own field. */
  lemma {:induction false} SumIgnores(h: Str, g: Str, n: nat)
    requires |h| == |g| && n <= |h| && forall k :: 0 <= k < |h| && !(CHKSUM <= k < CHKSUM + 8) ==> h[k] == g[k]
    ensures Sum(h, n) == Sum(g, n)
  {
    if n > 0 { SumIgnores(h, g, n - 1); }
  }

  class Block {
    const dblock: array<int>

    constructor ()
      ensures dblock.Length == TBLOCK && fresh(dblock)
    {
      dblock := new int[TBLOCK](_ => 0);
    }

    /** A string goes to `at`, without its NUL. */
    method Store(at: int, s: Str)
      requires 0 <= at && at + |s| <= dblock.Length
      modifies dblock
      ensures dblock[..] == Put(old(dblock[..]), at, s)
    {
      ghost var h := dblock[..];
      var i := 0;
      while i < |s|
        invariant 0 <= i <= |s|
        invariant forall k :: 0 <= k < dblock.Length ==> dblock[k] == if at <= k < at + i then s[k - at] else h[k]
      {
        dblock[at + i] := s[i];
        i := i + 1;
      }
    }

    /** strcpy, and sprintf of a string. */
    method StrCpy(at: int, s: Str)
      requires 0 <= at && at + |s| < dblock.Length
      modifies dblock
      ensures dblock[..] == Put(old(dblock[..]), at, s + [0])
    {
      Store(at, s + [0]);
    }

    method Clear()
      modifies dblock
      ensures forall k :: 0 <= k < dblock.Length ==> dblock[k] == 0
    {
      var i := 0;
      while i < dblock.Length
        invariant 0 <= i <= dblock.Length && forall k :: 0 <= k < i ==> dblock[k] == 0
      {
        dblock[i] := 0;
        i := i + 1;
      }
    }

    /** tomodes */
    method ToModes(st: Stat)
      requires dblock.Length == TBLOCK && Sizes(st)
      modifies dblock
      ensures Modes(dblock[..], st) && dblock[TYPEFLAG] == 0 && dblock[LINKNAME] == 0
    {
      hide Field, Stands, Put;
      Clear();
      FieldLength(st.mode);
      FieldLength(st.uid);
      FieldLength(st.gid);
      FieldLength(st.size);
      FieldLength(st.mtime);
      ghost var h0 := dblock[..];
      StrCpy(MODE, Field(st.mode, 6) + [SPACE]);
      StrCpy(UID, Field(st.uid, 6) + [SPACE]);
      StrCpy(GID, Field(st.gid, 6) + [SPACE]);
      StrCpy(SIZE, Field(st.size, 11) + [SPACE]);
      StrCpy(MTIME, Field(st.mtime, 11) + [SPACE]);
      StrCpy(MAGIC, [117, 115, 116, 97, 114]);
      Store(VERSION, [ZERO, ZERO]);
      ModesWritten(h0, dblock[..], st);
    }

    /** The name, with its NUL, unless it is too long. */
    method PutName(longname: Str) returns (ok: bool)
      requires dblock.Length == TBLOCK
      modifies dblock
      ensures ok <==> |longname| < NAMSIZ
      ensures ok ==> dblock[..] == Put(old(dblock[..]), NAME, longname + [0])
    {
      ghost var h := dblock[..];
      ghost var s := longname + [0];
      var i := 0;
      while true
        invariant 0 <= i <= NAMSIZ && i <= |longname|
        invariant forall k :: 0 <= k < TBLOCK ==> dblock[k] == if k < i then s[k] else h[k]
        decreases NAMSIZ - i
      {
        dblock[NAME + i] := if i < |longname| then longname[i] else 0;
        if i == |longname| || i >= NAMSIZ {
          break;
        }
        i := i + 1;
      }
      return i < NAMSIZ;
    }

    /** The name of the file that this one is a link to. */
    method PutLink(pathname: Str)
      requires dblock.Length == TBLOCK && |pathname| < NAMSIZ
      modifies dblock
      ensures dblock[..] == Put(Put(old(dblock[..]), LINKNAME, pathname + [0]), TYPEFLAG, [LNKTYPE])
    {
      StrCpy(LINKNAME, pathname);
      ghost var h := dblock[..];
      dblock[TYPEFLAG] := LNKTYPE;
      assert dblock[..] == Put(h, TYPEFLAG, [LNKTYPE]);
    }

    /** checksum: the field is made blank and all bytes are added up. */
    method Checksum() returns (i: int)
      requires dblock.Length == TBLOCK
      modifies dblock
      ensures dblock[..] == Put(old(dblock[..]), CHKSUM, BLANKS) && i == Sum(dblock[..], TBLOCK)
    {
      Store(CHKSUM, BLANKS);
      ghost var h := dblock[..];
      i := 0;
      var cp := 0;
      while cp < TBLOCK
        invariant 0 <= cp <= TBLOCK && i == Sum(h, cp)
      {
        assert CHKSUM <= cp < CHKSUM + 8 ==> h[cp] == SPACE;
        i := i + dblock[cp];
        cp := cp + 1;
      }
    }

    /** The checksum is printed into its field. */
    method Sign(ghost e: Entry)
      requires dblock.Length == TBLOCK && Unsigned(dblock[..], e) && |e.name| < NAMSIZ
      modifies dblock
      ensures Header(dblock[..], e)
    {
      hide Field, Sum, Put, Unsigned, Header;
      HeaderDone(dblock[..], e);
      var i := Checksum();
      StrCpy(CHKSUM, Field(i, 6));
    }
  }

  const BLANKS: Str := [SPACE, SPACE, SPACE, SPACE, SPACE, SPACE, SPACE, SPACE]

  /** A header but for its checksum. */
  ghost predicate Unsigned(h: Str, e: Entry) {
    && Modes(h, Stat(e.mode, e.uid, e.gid, e.size, e.mtime))
    && Stands(h, NAME, e.name + [0])
    && h[TYPEFLAG] == (if e.link.Some? then LNKTYPE else 0)
    && Stands(h, LINKNAME, (if e.link.Some? then e.link.value else []) + [0])
  }

  /** The name put in. */
  lemma Named(h: Str, st: Stat, name: Str)
    requires Modes(h, st) && h[TYPEFLAG] == 0 && h[LINKNAME] == 0 && IsString(name) && |name| < NAMSIZ
    ensures Unsigned(Put(h, NAME, name + [0]), Entry(name, st.mode, st.uid, st.gid, st.size, st.mtime, None))
  {
    hide Field, Stands, Put;
    TwoFree(h);
    var s := name + [0];
    assert Bytes(s);
    Write(h, NAME, s);
    var r := Put(h, NAME, s);
    assert Stands(r, TYPEFLAG, [0, 0]);
    FreeAt(r);
    OneNul(r);
  }

  lemma OneNul(h: Str)
    requires |h| == TBLOCK && h[LINKNAME] == 0
    ensures Stands(h, LINKNAME, [] + [0])
  {
  }

  /** The link put in. */
  lemma Linked(h: Str, e: Entry, pathname: Str)
    requires Unsigned(h, e) && e.link.None? && |e.name| < NAMSIZ && IsString(pathname) && |pathname| < NAMSIZ
    ensures Unsigned(Put(Put(h, LINKNAME, pathname + [0]), TYPEFLAG, [LNKTYPE]), e.(link := Some(pathname)))
  {
    hide Field, Stands, Put;
    FieldLength(e.mode);
    FieldLength(e.uid);
    FieldLength(e.gid);
    FieldLength(e.size);
    FieldLength(e.mtime);
    var s := pathname + [0];
    var t: Str := [LNKTYPE];
    assert Bytes(s) && Bytes(t);
    Write(h, LINKNAME, s);
    var g := Put(h, LINKNAME, s);
    Write(g, TYPEFLAG, t);
    var r := Put(g, TYPEFLAG, t);
    OneByte(r, TYPEFLAG, LNKTYPE);
  }

  lemma OneByte(h: Str, at: int, c: int)
    requires Stands(h, at, [c])
    ensures h[at] == c
  {
    assert h[at..at + 1][0] == c;
  }

  lemma LastBlank(h: Str, s: Str)
    requires |h| == TBLOCK && Stands(h, CHKSUM, BLANKS) && |s| == 7
    ensures Stands(Put(h, CHKSUM, s), CHKSUM, s + [SPACE])
  {
    var r := Put(h, CHKSUM, s);
    assert h[CHKSUM..CHKSUM + 8][7] == h[CHKSUM + 7];
    assert r[CHKSUM..CHKSUM + 8] == s + [SPACE];
  }

  /** Blanks, the sum, and the sum printed over the blanks: the header is complete. */
  lemma HeaderDone(h: Str, e: Entry)
    requires Unsigned(h, e) && |e.name| < NAMSIZ
    ensures var g := Put(h, CHKSUM, BLANKS);
            && 0 <= Sum(g, TBLOCK) < 262144
            && |Field(Sum(g, TBLOCK), 6)| == 6
            && Header(Put(g, CHKSUM, Field(Sum(g, TBLOCK), 6) + [0]), e)
  {
    hide Field, Stands, Put, Sum;
    FieldLength(e.mode);
    FieldLength(e.uid);
    FieldLength(e.gid);
    FieldLength(e.size);
    FieldLength(e.mtime);
    var g := Put(h, CHKSUM, BLANKS);
    Write(h, CHKSUM, BLANKS);
    SumBounds(g, TBLOCK);
    var n := Sum(g, TBLOCK);
    FieldLength(n);
    FieldBytes(n, 6);
    var s := Field(n, 6) + [0];
    Write(g, CHKSUM, s);
    LastBlank(g, s);
    var r := Put(g, CHKSUM, s);
    assert s + [SPACE] == Field(n, 6) + [0, SPACE];
    SameButChecksum(g, r, s);
    SumIgnores(g, r, TBLOCK);
    SameButChecksum(h, g, BLANKS);
  }

  lemma SameButChecksum(g: Str, r: Str, s: Str)
    requires |g| == TBLOCK && |s| <= 8 && r == Put(g, CHKSUM, s)
    ensures forall k :: 0 <= k < TBLOCK && !(CHKSUM <= k < CHKSUM + 8) ==> r[k] == g[k]
  {
  }

  /** The seven writes of tomodes, one after the other. */
  lemma ModesWritten(h0: Str, h: Str, st: Stat)
    requires |h0| == TBLOCK && Bytes(h0) && Sizes(st) && h0[TYPEFLAG] == 0 && h0[LINKNAME] == 0
    requires |Field(st.mode, 6)| == |Field(st.uid, 6)| == |Field(st.gid, 6)| == 6
    requires |Field(st.size, 11)| == |Field(st.mtime, 11)| == 11
    requires h == Put(Put(Put(Put(Put(Put(Put(h0,
                    MODE, Field(st.mode, 6) + [SPACE] + [0]),
                    UID, Field(st.uid, 6) + [SPACE] + [0]),
                    GID, Field(st.gid, 6) + [SPACE] + [0]),
                    SIZE, Field(st.size, 11) + [SPACE] + [0]),
                    MTIME, Field(st.mtime, 11) + [SPACE] + [0]),
                    MAGIC, [117, 115, 116, 97, 114] + [0]),
                    VERSION, [ZERO, ZERO])
    ensures Modes(h, st) && h[TYPEFLAG] == 0 && h[LINKNAME] == 0
  {
    hide Field, Stands, Put;
    var sp: Str, nul: Str := [SPACE], [0];
    FieldBytes(st.mode, 6);
    FieldBytes(st.uid, 6);
    FieldBytes(st.gid, 6);
    FieldBytes(st.size, 11);
    FieldBytes(st.mtime, 11);
    var free: Str := [0, 0];
    TwoFree(h0);
    var h1 := Put(h0, MODE, Field(st.mode, 6) + sp + nul);
    Write(h0, MODE, Field(st.mode, 6) + sp + nul);
    var h2 := Put(h1, UID, Field(st.uid, 6) + sp + nul);
    Write(h1, UID, Field(st.uid, 6) + sp + nul);
    var h3 := Put(h2, GID, Field(st.gid, 6) + sp + nul);
    Write(h2, GID, Field(st.gid, 6) + sp + nul);
    var h4 := Put(h3, SIZE, Field(st.size, 11) + sp + nul);
    Write(h3, SIZE, Field(st.size, 11) + sp + nul);
    StandsPart(h4, SIZE, Field(st.size, 11) + sp, nul);
    var h5 := Put(h4, MTIME, Field(st.mtime, 11) + sp + nul);
    Write(h4, MTIME, Field(st.mtime, 11) + sp + nul);
    StandsPart(h5, MTIME, Field(st.mtime, 11) + sp, nul);
    var h6 := Put(h5, MAGIC, [117, 115, 116, 97, 114] + nul);
    Write(h5, MAGIC, [117, 115, 116, 97, 114] + nul);
    Write(h6, VERSION, [ZERO, ZERO]);
    assert Field(st.mode, 6) + sp + nul == Field(st.mode, 6) + [SPACE, 0];
    assert Field(st.uid, 6) + sp + nul == Field(st.uid, 6) + [SPACE, 0];
    assert Field(st.gid, 6) + sp + nul == Field(st.gid, 6) + [SPACE, 0];
    assert [117, 115, 116, 97, 114] + nul == [117, 115, 116, 97, 114, 0];
    assert Stands(h, TYPEFLAG, free);
    FreeAt(h);
  }

  lemma TwoFree(h: Str)
    requires |h| == TBLOCK && h[TYPEFLAG] == 0 && h[LINKNAME] == 0
    ensures Stands(h, TYPEFLAG, [0, 0])
  {
  }

  lemma FreeAt(h: Str)
    requires |h| == TBLOCK && Stands(h, TYPEFLAG, [0, 0])
    ensures h[TYPEFLAG] == 0 && h[LINKNAME] == 0
  {
    assert h[TYPEFLAG..TYPEFLAG + 2] == [0, 0];
    assert h[TYPEFLAG] == h[TYPEFLAG..TYPEFLAG + 2][0] && h[LINKNAME] == h[TYPEFLAG..TYPEFLAG + 2][1];
  }

  /** One write: its field stands, and all that stood beside it. */
  lemma Write(h: Str, at: int, s: Str)
    requires 0 <= at && at + |s| <= |h| && Bytes(h) && Bytes(s)
    ensures Stands(Put(h, at, s), at, s) && Bytes(Put(h, at, s))
    ensures forall other, t {:trigger Stands(h, other, t)} ::
              Stands(h, other, t) && (other + |t| <= at || at + |s| <= other) ==> Stands(Put(h, at, s), other, t)
  {
    hide Put;
    PutStands(h, at, s);
    forall other, t | Stands(h, other, t) && (other + |t| <= at || at + |s| <= other)
      ensures Stands(Put(h, at, s), other, t)
    {
      PutBeside(h, at, s, other, t);
    }
  }
}
