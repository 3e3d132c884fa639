/** awk's record and fields (cmd/awk/tran.c, cmd/awk/lib.c): `$0` is split only when a field is wanted, and
    put together again only when it is wanted after a field has changed. */
module AwkFields {
  import opened Sequences

  const SPACE: int := 32
  const TAB: int := 9
  const NEWLINE: int := 10

  type Str = seq<int>

  // --- the eager model ---

  /** The record and its fields, always both up to date. */
  datatype Record = Record(text: Str, fields: seq<Str>)

  predicate Blank(c: int) { c == SPACE || c == TAB || c == NEWLINE }

  /** How far the first field reaches. */
  function FieldEnd(s: Str, stops: int -> bool): (n: int)
    ensures 0 <= n <= |s|
    ensures forall k :: 0 <= k < n ==> !stops(s[k])
    ensures n < |s| ==> stops(s[n])
  {
    if s == [] || stops(s[0]) then 0 else 1 + FieldEnd(s[1..], stops)
  }

  /** The runs of characters that are not blank. */
  function Words(s: Str): seq<Str>
    decreases |s|
  {
    if s == [] then []
    else if Blank(s[0]) then Words(s[1..])
    else
      var n := FieldEnd(s, Blank);
      [s[..n]] + Words(s[n..])
  }

  /** The pieces between separators; a newline always separates. */
  function Pieces(s: Str, sep: int): seq<Str>
    decreases |s|
  {
    var n := FieldEnd(s, Stops(sep));
    if n == |s| then [s] else [s[..n]] + Pieces(s[n + 1..], sep)
  }

  /** The fields of a record under a field separator of at most one character. */
  function Split(s: Str, fs: Str): seq<Str> {
    if fs == [SPACE] then Words(s)
    else if s == [] then []
    else Pieces(s, if fs == [] then 0 else fs[0])
  }

  function JoinWith(fields: seq<Str>, ofs: Str): Str {
    if fields == [] then []
    else if |fields| == 1 then fields[0]
    else JoinWith(fields[..|fields| - 1], ofs) + ofs + fields[|fields| - 1]
  }

  function Extended(fields: seq<Str>, n: int): (r: seq<Str>)
    ensures |r| == if n > |fields| then n else |fields|
    decreases n - |fields|
  {
    if n <= |fields| then fields else Extended(fields + [[]], n)
  }

  /** Assigning to `$0`, and to `$i`. */
  function WithText(s: Str, fs: Str): Record { Record(s, Split(s, fs)) }

  function WithField(r: Record, i: int, s: Str, ofs: Str): Record
    requires i >= 1
  {
    var f := Extended(r.fields, i)[i - 1 := s];
    Record(JoinWith(f, ofs), f)
  }

  function FieldOf(r: Record, i: int): Str
    requires i >= 1
  {
    if i <= |r.fields| then r.fields[i - 1] else []
  }

  // --- the program ---

  class Fields {
    var fs: Str
    var ofs: Str
    const fldtab: array<Str>
    var donefld: bool
    var donerec: bool
    var maxfld: int
    var nf: int

    constructor (fs: Str, ofs: Str, size: nat)
      requires |fs| <= 1 && 2 <= size
      ensures Valid() && this.fs == fs && this.ofs == ofs && fldtab.Length == size && fresh(fldtab)
      ensures Model() == WithText([], fs)
    {
      this.fs, this.ofs := fs, ofs;
      fldtab := new Str[size](_ => []);
      donefld, donerec, maxfld, nf := false, true, 0, 0;
    }

    /** At least one of the two is up to date, and there is nothing beyond the last field. */
    ghost predicate Valid()
      reads this, fldtab
    {
      && |fs| <= 1 && 2 <= fldtab.Length && 0 <= maxfld < fldtab.Length && nf == maxfld
      && (donefld || donerec)
      && forall i :: maxfld < i < fldtab.Length ==> fldtab[i] == []
    }

    /** The fields in the table. */
    ghost function Table(): seq<Str>
      requires 0 <= maxfld < fldtab.Length
      reads this, fldtab
    {
      fldtab[1..maxfld + 1]
    }

    /** What the eager model would hold. */
    ghost function Model(): Record
      requires Valid()
      reads this, fldtab
    {
      Record(if donerec then fldtab[0] else JoinWith(Table(), ofs), if donefld then Table() else Split(fldtab[0], fs))
    }

    /** cleanfld: fields after `n1`, up to `n2`, are made empty. */
    method CleanFld(n1: int, n2: int)
      requires 0 <= n1 < fldtab.Length && 0 <= n2 < fldtab.Length
      modifies fldtab
      ensures forall k :: 0 <= k < fldtab.Length ==> fldtab[k] == if n1 < k <= n2 then [] else old(fldtab[k])
    {
      var p := n2;
      while p > n1
        invariant n1 <= p <= n2 || (p == n2 && n2 <= n1)
        invariant forall k :: 0 <= k < fldtab.Length ==> fldtab[k] == if n1 < k && p < k <= n2 then []
            else old(fldtab[k])
      {
        fldtab[p] := [];
        p := p - 1;
      }
    }

    /** newfld: the fields up to `n` come into being, empty. */
    method NewFld(n: int)
      requires Valid() && maxfld < n < fldtab.Length
      modifies this`donefld, this`donerec, this`maxfld, this`nf, fldtab
      ensures Valid() && maxfld == n && donefld == old(donefld) && donerec == old(donerec)
          && fldtab[0] == old(fldtab[0])
      ensures Table() == Extended(old(Table()), n)
    {
      ghost var f := Table();
      CleanFld(maxfld, n);
      maxfld := n;
      nf := n;
      ExtendedAt(f, n);
      assert forall k :: 0 <= k < n ==> Table()[k] == if k < |f| then f[k] else [];
    }

    /** The loop of fldbld for the blank separator: the number of fields, or the size of the table if there
        are too many. */
    method SplitBlanks() returns (i: int)
      requires 2 <= fldtab.Length
      modifies fldtab
      ensures 0 <= i <= fldtab.Length && fldtab[0] == old(fldtab[0])
      ensures forall k :: i < k < fldtab.Length ==> fldtab[k] == old(fldtab[k])
      ensures if i < fldtab.Length then fldtab[1..i + 1] == Words(fldtab[0]) else |Words(fldtab[0])| >= fldtab.Length
    {
      hide Words, FieldEnd;
      var text := fldtab[0];
      var r := 0;
      i := 0;
      assert text[0..] == text && fldtab[1..1] == [];
      while true
        invariant 0 <= r <= |text| && 0 <= i < fldtab.Length && fldtab[0] == text
        invariant fldtab[1..i + 1] + Words(text[r..]) == Words(text)
        invariant forall k :: i < k < fldtab.Length ==> fldtab[k] == old(fldtab[k])
        decreases |text| - r
      {
        r := SkipBlanks(text, r);
        if r == |text| {
          break;
        }
        i := i + 1;
        ghost var done := fldtab[1..i];
        if i >= fldtab.Length {
          OneWord(text, r);
          break;
        }
        var fr;
        fr, r := CopyWord(text, r);
        fldtab[i] := fr;
        assert fldtab[1..i + 1] == done + [fr];
        Assoc(done, [fr], Words(text[r..]));
      }
    }

    /** The loop of fldbld for a separator character. */
    method SplitAt(sep: int) returns (i: int)
      requires 2 <= fldtab.Length && fldtab[0] != []
      modifies fldtab
      ensures 0 <= i <= fldtab.Length && fldtab[0] == old(fldtab[0])
      ensures forall k :: i < k < fldtab.Length ==> fldtab[k] == old(fldtab[k])
      ensures if i < fldtab.Length then fldtab[1..i + 1] == Pieces(fldtab[0], sep)
              else |Pieces(fldtab[0], sep)| >= fldtab.Length
    {
      hide Pieces, FieldEnd;
      var text := fldtab[0];
      var r := 0;
      i := 0;
      assert text[0..] == text && fldtab[1..1] == [];
      while true
        invariant 0 <= r <= |text| && 0 <= i < fldtab.Length && fldtab[0] == text
        invariant fldtab[1..i + 1] + Pieces(text[r..], sep) == Pieces(text, sep)
        invariant forall k :: i < k < fldtab.Length ==> fldtab[k] == old(fldtab[k])
        decreases |text| - r
      {
        i := i + 1;
        ghost var done := fldtab[1..i];
        if i >= fldtab.Length {
          OnePiece(text, r, sep);
          break;
        }
        var fr;
        fr, r := CopyPiece(text, r, sep);
        fldtab[i] := fr;
        assert fldtab[1..i + 1] == done + [fr];
        if r == |text| {
          break;
        }
        r := r + 1;
        Assoc(done, [fr], Pieces(text[r..], sep));
      }
    }

    /** fldbld, for a separator of at most one character; it fails if there are more fields than the table
        has room for. */
    method FldBld() returns (ok: bool)
      requires Valid()
      modifies this`donefld, this`donerec, this`maxfld, this`nf, fldtab
      ensures ok ==> Valid() && donefld && donerec == old(donerec) && Model() == old(Model())
      ensures ok <==> old(donefld) || |Split(old(fldtab[0]), fs)| < fldtab.Length
    {
      hide Words, Pieces, JoinWith;
      if donefld {
        return true;
      }
      ghost var want, text := Split(fldtab[0], fs), fldtab[0];
      var i := 0;
      if fs == [SPACE] {
        i := SplitBlanks();
      } else if fldtab[0] != [] {
        i := SplitAt(if fs == [] then 0 else fs[0]);
      }
      if i >= fldtab.Length {
        return false;
      }
      assert i > 0 ==> |fldtab[1..i + 1]| == i;
      assert |want| == i;
      CleanFld(i, maxfld);
      maxfld := i;
      donefld := true;
      nf := maxfld;
      assert Table() == want;
      return true;
    }

    /** The loop of recbld. */
    method Joined() returns (r: Str)
      requires Valid()
      ensures r == JoinWith(Table(), ofs)
    {
      ghost var f := Table();
      r := [];
      var i := 1;
      assert f[..0] == [];
      while i <= nf
        invariant 1 <= i <= nf + 1 && r == JoinWith(f[..i - 1], ofs) + (if 1 < i <= nf then ofs else [])
      {
        JoinSnoc(f, i - 1, ofs);
        r := r + fldtab[i];
        if i < nf {
          r := r + ofs;
        }
        i := i + 1;
      }
      assert f[..nf] == f;
    }

    /** recbld: `$0` is put together from the fields. */
    method RecBld()
      requires Valid()
      modifies this`donefld, this`donerec, this`maxfld, this`nf, fldtab
      ensures Valid() && donerec && donefld == old(donefld) && Model() == old(Model())
    {
      hide Split, JoinWith;
      if donerec {
        return;
      }
      ghost var f := Table();
      var r := Joined();
      fldtab[0] := r;
      donerec := true;
      assert Table() == f;
    }

    /** r_getsval on `$0`: what the eager model holds. */
    method GetRec() returns (s: Str)
      requires Valid()
      modifies this`donefld, this`donerec, this`maxfld, this`nf, fldtab
      ensures Valid() && Model() == old(Model()) && s == Model().text
    {
      if !donerec {
        RecBld();
      }
      s := fldtab[0];
    }

    /** r_getsval on `$i`: what the eager model holds; it fails only if the record has too many fields. */
    method GetField(i: int) returns (ok: bool, s: Str)
      requires Valid() && 1 <= i < fldtab.Length
      modifies this`donefld, this`donerec, this`maxfld, this`nf, fldtab
      ensures ok <==> |old(Model()).fields| < fldtab.Length
      ensures ok ==> Valid() && Model() == old(Model()) && s == FieldOf(Model(), i)
    {
      hide Split, JoinWith;
      ok, s := true, [];
      if !donefld {
        ok := FldBld();
        if !ok {
          return;
        }
      }
      s := fldtab[i];
    }

    /** setsval on `$0`. */
    method SetRec(s: Str)
      requires Valid()
      modifies this`donefld, this`donerec, this`maxfld, this`nf, fldtab
      ensures Valid() && Model() == WithText(s, fs) && !donefld && donerec
    {
      donefld := false;
      donerec := true;
      fldtab[0] := s;
    }

    /** An assignment to FS.  The fields of the record at hand stay what they were if and only if they have
        been split already or the new separator splits it the same. */
    method SetFs(v: Str)
      requires Valid() && |v| <= 1
      modifies this`fs
      ensures Valid() && fs == v && Model().text == old(Model()).text
      ensures Model().fields == if old(donefld) then old(Model()).fields else Split(Model().text, v)
      ensures Model() == old(Model()) <==> old(donefld) || Split(old(fldtab[0]), v) == Split(old(fldtab[0]), old(fs))
    {
      fs := v;
    }

    /** An assignment to OFS, which matters to a record that has not been put together yet. */
    method SetOfs(v: Str)
      requires Valid()
      modifies this`ofs
      ensures Valid() && ofs == v && Model().fields == old(Model()).fields
      ensures Model().text == if old(donerec) then old(Model()).text else JoinWith(Model().fields, v)
      ensures Model() == old(Model()) <==> old(donerec) || JoinWith(old(Table()), v) == JoinWith(old(Table()), old(ofs))
    {
      ofs := v;
    }

    /** setsval on `$i`, once the fields are there. */
    method Store(i: int, s: Str)
      requires Valid() && donefld && 1 <= i < fldtab.Length
      modifies this`donefld, this`donerec, this`maxfld, this`nf, fldtab
      ensures Valid() && Model() == WithField(old(Model()), i, s, ofs)
    {
      hide Split, JoinWith, Extended;
      ghost var f := Table();
      ExtendedAt(f, i);
      donerec := false;
      if i > nf {
        NewFld(i);
      }
      assert Table() == Extended(f, i);
      fldtab[i] := s;
      assert Table() == Extended(f, i)[i - 1 := s];
    }

    /** An assignment to `$i`: executing the reference forces the fields (cmd/awk/run.c), then setsval stores. */
    method SetField(i: int, s: Str) returns (ok: bool)
      requires Valid() && 1 <= i < fldtab.Length
      modifies this`donefld, this`donerec, this`maxfld, this`nf, fldtab
      ensures ok <==> |old(Model()).fields| < fldtab.Length
      ensures ok ==> Valid() && Model() == WithField(old(Model()), i, s, ofs)
    {
      hide Split, WithField;
      ok := true;
      if !donefld {
        ok := FldBld();
        if !ok {
          return;
        }
      }
      Store(i, s);
    }
  }

  // --- FS and OFS ---

  /** An assignment to FS or OFS concerns the records to come, as the eager model has it, if and only if the
      other side is up to date or comes out the same.  For a record that has not been split yet the new
      FS counts; with a colon for FS this one has two fields where it had one. */
  method SetFsTooLate() returns (f: Fields)
    ensures fresh(f) && f.Valid() && f.fs == [COLON]
    ensures f.Model().fields == [[SMALL_A], [SMALL_B]] != WithText([SMALL_A, COLON, SMALL_B], [SPACE]).fields
  {
    f := new Fields([SPACE], [SPACE], 3);
    f.SetRec([SMALL_A, COLON, SMALL_B]);
    f.SetFs([COLON]);
    ColonSplits([SMALL_A, COLON, SMALL_B]);
  }

  const COLON: int := 58
  const SMALL_A: int := 97
  const SMALL_B: int := 98

  lemma ColonSplits(s: Str)
    requires s == [SMALL_A, COLON, SMALL_B]
    ensures Split(s, [COLON]) == [[SMALL_A], [SMALL_B]] && Split(s, [SPACE]) == [s]
  {
    hide Pieces, Words;
    PieceStep(s, 0, 1, COLON);
    PieceStep(s, 2, 3, COLON);
    WordStep(s, 0, 3);
    NoWords(s, 3);
    assert s[0..] == s && s[0..1] == [SMALL_A] && s[2..3] == [SMALL_B] && s[0..3] == s;
  }

  lemma JoinSnoc(f: seq<Str>, k: int, ofs: Str)
    requires 0 <= k < |f|
    ensures JoinWith(f[..k + 1], ofs) == JoinWith(f[..k], ofs) + (if k > 0 then ofs else []) + f[k]
  {
    assert f[..k + 1][..k] == f[..k];
    if k == 0 {
      assert f[..1] == [f[0]];
    }
  }

  lemma {:induction false} ExtendedAt(f: seq<Str>, n: int)
    ensures forall k :: 0 <= k < |Extended(f, n)| ==> Extended(f, n)[k] == if k < |f| then f[k] else []
    decreases n - |f|
  {
    if n > |f| { ExtendedAt(f + [[]], n); }
  }

  method SkipBlanks(text: Str, start: int) returns (r: int)
    requires 0 <= start <= |text|
    ensures start <= r <= |text| && Words(text[r..]) == Words(text[start..])
    ensures if r == |text| then Words(text[start..]) == [] else !Blank(text[r])
  {
    hide Words;
    r := start;
    while r < |text| && Blank(text[r])
      invariant start <= r <= |text| && Words(text[r..]) == Words(text[start..])
    {
      SkipBlank(text, r);
      r := r + 1;
    }
    NoWords(text, r);
  }

  /** A field of the blank separator, which ends at the next blank. */
  method CopyWord(text: Str, start: int) returns (fr: Str, r: int)
    requires 0 <= start < |text| && !Blank(text[start])
    ensures start < r <= |text| && Words(text[start..]) == [fr] + Words(text[r..])
  {
    hide Words;
    fr, r := [], start;
    while true
      invariant start <= r < |text| && fr == text[start..r] && forall k :: start <= k <= r ==> !Blank(text[k])
      decreases |text| - r
    {
      fr := fr + [text[r]];
      r := r + 1;
      assert fr == text[start..r];
      if r == |text| || Blank(text[r]) {
        break;
      }
    }
    WordStep(text, start, r);
  }

  /** A field of a separator character, which may be empty. */
  method CopyPiece(text: Str, start: int, sep: int) returns (fr: Str, r: int)
    requires 0 <= start <= |text|
    ensures start <= r <= |text|
    ensures Pieces(text[start..], sep) == if r == |text| then [fr] else [fr] + Pieces(text[r + 1..], sep)
  {
    hide Pieces;
    fr, r := [], start;
    while r < |text| && text[r] != sep && text[r] != NEWLINE
      invariant start <= r <= |text| && fr == text[start..r]
      invariant forall k :: start <= k < r ==> text[k] != sep && text[k] != NEWLINE
    {
      fr := fr + [text[r]];
      r := r + 1;
    }
    PieceStep(text, start, r, sep);
  }

  lemma SkipBlank(text: Str, r: int)
    requires 0 <= r < |text| && Blank(text[r])
    ensures Words(text[r..]) == Words(text[r + 1..])
  {
    assert text[r..][1..] == text[r + 1..];
  }

  lemma NoWords(text: Str, r: int)
    requires 0 <= r <= |text|
    ensures r == |text| ==> Words(text[r..]) == []
  {
  }

  lemma OneWord(text: Str, r: int)
    requires 0 <= r < |text| && !Blank(text[r])
    ensures |Words(text[r..])| >= 1
  {
  }

  lemma OnePiece(text: Str, r: int, sep: int)
    requires 0 <= r <= |text|
    ensures |Pieces(text[r..], sep)| >= 1
  {
  }

  lemma {:induction false} FieldEndIs(s: Str, stops: int -> bool, n: int)
    requires 0 <= n <= |s| && (forall k :: 0 <= k < n ==> !stops(s[k])) && (n < |s| ==> stops(s[n]))
    ensures FieldEnd(s, stops) == n
    decreases n
  {
    if n > 0 {
      assert !stops(s[0]);
      forall k | 0 <= k < n - 1 ensures !stops(s[1..][k]) { assert !stops(s[k + 1]); }
      FieldEndIs(s[1..], stops, n - 1);
    }
  }

  lemma WordStep(text: Str, start: int, r: int)
    requires 0 <= start < r <= |text| && (forall k :: start <= k < r ==> !Blank(text[k]))
        && (r < |text| ==> Blank(text[r]))
    ensures Words(text[start..]) == [text[start..r]] + Words(text[r..])
  {
    var s := text[start..];
    FieldEndIs(s, Blank, r - start);
    assert s[..r - start] == text[start..r] && s[r - start..] == text[r..];
  }

  lemma PieceStep(text: Str, start: int, r: int, sep: int)
    requires 0 <= start <= r <= |text| && (forall k :: start <= k < r ==> text[k] != sep && text[k] != NEWLINE)
    requires r < |text| ==> text[r] == sep || text[r] == NEWLINE
    ensures Pieces(text[start..], sep) == if r == |text| then [text[start..r]]
        else [text[start..r]] + Pieces(text[r + 1..], sep)
  {
    hide FieldEnd;
    var s, n := text[start..], r - start;
    FieldEndIs(s, Stops(sep), n);
    assert s[..n] == text[start..r];
    if r < |text| { assert s[n + 1..] == text[r + 1..]; } else { assert s == text[start..r]; }
  }

  function Stops(sep: int): int -> bool { c => c == sep || c == NEWLINE }

  // --- putting together and splitting again ---

  /** No character of the field separates. */
  ghost predicate Free(t: Str, sep: int) { forall k :: 0 <= k < |t| ==> t[k] != sep && t[k] != NEWLINE }

  lemma OnePieceOnly(t: Str, sep: int)
    requires Free(t, sep)
    ensures Pieces(t, sep) == [t]
  {
    FieldEndIs(t, Stops(sep), |t|);
  }

  lemma {:induction false} PiecesSnoc(s: Str, t: Str, sep: int)
    requires Free(t, sep)
    ensures Pieces(s + [sep] + t, sep) == Pieces(s, sep) + [t]
    decreases |s|
  {
    hide FieldEnd;
    var w, n := s + [sep] + t, FieldEnd(s, Stops(sep));
    FieldEndIs(w, Stops(sep), n);
    if n == |s| {
      assert w[..n] == s && w[n + 1..] == t;
      OnePieceOnly(t, sep);
    } else {
      assert w[..n] == s[..n] && w[n + 1..] == s[n + 1..] + [sep] + t;
      PiecesSnoc(s[n + 1..], t, sep);
      Assoc([s[..n]], Pieces(s[n + 1..], sep), [t]);
    }
  }

  /** When fields that contain no separator are put together with it and split again, they come back. */
  lemma {:induction false} SplitJoined(f: seq<Str>, sep: int)
    requires |f| > 0 && forall k :: 0 <= k < |f| ==> Free(f[k], sep)
    ensures Pieces(JoinWith(f, [sep]), sep) == f
  {
    var n := |f| - 1;
    if n == 0 {
      OnePieceOnly(f[0], sep);
    } else {
      SplitJoined(f[..n], sep);
      PiecesSnoc(JoinWith(f[..n], [sep]), f[n], sep);
    }
  }

  /** Pieces never contain a separator. */
  lemma {:induction false} PiecesFree(s: Str, sep: int)
    ensures forall k :: 0 <= k < |Pieces(s, sep)| ==> Free(Pieces(s, sep)[k], sep)
    decreases |s|
  {
    var n := FieldEnd(s, Stops(sep));
    if n < |s| {
      PiecesFree(s[n + 1..], sep);
    }
  }

  // --- the same with the blank separator ---

  ghost predicate IsWord(t: Str) { t != [] && forall k :: 0 <= k < |t| ==> !Blank(t[k]) }

  lemma {:induction false} WordsAreWords(s: Str)
    ensures forall k :: 0 <= k < |Words(s)| ==> IsWord(Words(s)[k])
    decreases |s|
  {
    if s != [] {
      if Blank(s[0]) {
        WordsAreWords(s[1..]);
      } else {
        WordsAreWords(s[FieldEnd(s, Blank)..]);
      }
    }
  }

  lemma OneWordOnly(t: Str)
    requires IsWord(t)
    ensures Words(t) == [t]
  {
    hide Words;
    WordStep(t, 0, |t|);
    NoWords(t, |t|);
    assert t[0..] == t && t[0..|t|] == t;
  }

  lemma {:induction false} WordsSnoc(s: Str, t: Str)
    requires IsWord(t)
    ensures Words(s + [SPACE] + t) == Words(s) + [t]
    decreases |s|
  {
    var w := s + [SPACE] + t;
    if s == [] {
      assert w[1..] == t;
      OneWordOnly(t);
    } else if Blank(s[0]) {
      assert w[1..] == s[1..] + [SPACE] + t;
      WordsSnoc(s[1..], t);
    } else {
      var n := FieldEnd(s, Blank);
      FieldEndIs(w, Blank, n);
      assert w[..n] == s[..n] && w[n..] == s[n..] + [SPACE] + t;
      WordsSnoc(s[n..], t);
      Assoc([s[..n]], Words(s[n..]), [t]);
    }
  }

  lemma {:induction false} SplitJoinedWords(f: seq<Str>)
    requires |f| > 0 && forall k :: 0 <= k < |f| ==> IsWord(f[k])
    ensures Words(JoinWith(f, [SPACE])) == f
  {
    var n := |f| - 1;
    if n == 0 {
      OneWordOnly(f[0]);
    } else {
      SplitJoinedWords(f[..n]);
      WordsSnoc(JoinWith(f[..n], [SPACE]), f[n]);
    }
  }

  /** The fields that can be told apart in a record put together with this separator. */
  ghost predicate Apart(f: seq<Str>, sep: int) {
    if sep == SPACE then forall k :: 0 <= k < |f| ==> IsWord(f[k])
    else f != [[]] && forall k :: 0 <= k < |f| ==> Free(f[k], sep)
  }

  /** Splitting a record that was put together gives the fields back if and only if they can be told apart. */
  lemma SplitJoinedIff(f: seq<Str>, sep: int)
    requires |f| > 0
    ensures Split(JoinWith(f, [sep]), [sep]) == f <==> Apart(f, sep)
  {
    hide Pieces, Words, JoinWith;
    var s := JoinWith(f, [sep]);
    JoinEmpty(f, sep);
    if sep == SPACE {
      WordsAreWords(s);
      if Apart(f, sep) { SplitJoinedWords(f); }
    } else {
      PiecesFree(s, sep);
      if Apart(f, sep) { SplitJoined(f, sep); }
    }
  }

  lemma JoinEmpty(f: seq<Str>, sep: int)
    requires |f| > 0
    ensures JoinWith(f, [sep]) == [] <==> f == [[]]
  {
  }

  /** So after an assignment to a field, with one separator for input and output, splitting the new `$0`
      gives the fields that were there, if and only if they can be told apart. */
  lemma FieldSurvives(r: Record, i: int, s: Str, sep: int)
    requires i >= 1
    ensures var w := WithField(r, i, s, [sep]);
            Split(w.text, [sep]) == w.fields <==> Apart(w.fields, sep)
  {
    SplitJoinedIff(WithField(r, i, s, [sep]).fields, sep);
  }

  // --- assignments ---

  /** Fields put together: the first, the output separator, and the others put together. */
  lemma {:induction false} JoinedFrom(f: seq<Str>, ofs: Str)
    ensures |f| == 1 ==> JoinWith(f, ofs) == f[0]
    ensures |f| >= 2 ==> JoinWith(f, ofs) == f[0] + ofs + JoinWith(f[1..], ofs)
    decreases |f|
  {
    if |f| >= 2 {
      var front, d := f[..|f| - 1], f[|f| - 1];
      if |f| == 2 {
        assert f[1..] == [d];
        assert JoinWith(front, ofs) == f[0];
      } else {
        JoinedFrom(front, ofs);
        assert f[1..][..|f| - 2] == front[1..] && f[1..][|f| - 2] == d;
        Regroup(f[0], ofs, JoinWith(front[1..], ofs), d);
      }
    }
  }

  lemma Regroup(a: Str, o: Str, m: Str, d: Str)
    ensures a + o + m + o + d == a + o + (m + o + d)
  {
  }

  /** An assignment to field `i` changes that field and no other; the fields it adds before it are empty, and
      the record is all fields put together. */
  lemma FieldAssigned(r: Record, i: int, s: Str, ofs: Str, j: int)
    requires i >= 1 && j >= 1
    ensures var w := WithField(r, i, s, ofs);
            && FieldOf(w, j) == (if j == i then s else if j <= |r.fields| then r.fields[j - 1] else [])
            && |w.fields| == (if i > |r.fields| then i else |r.fields|) && w.text == JoinWith(w.fields, ofs)
  {
    hide JoinWith;
    ExtendedAt(r.fields, i);
  }

  // --- what the fields of a record are ---

  /** The fields with what stands before, between and after them. */
  function Woven(gaps: seq<Str>, f: seq<Str>): Str
    requires |gaps| == |f| + 1
  {
    if f == [] then gaps[0] else gaps[0] + f[0] + Woven(gaps[1..], f[1..])
  }

  /** A blank (32), a tab (9) or a newline (10). */
  ghost predicate OnlyBlanks(s: Str) { forall k :: 0 <= k < |s| ==> s[k] == 32 || s[k] == 9 || s[k] == 10 }

  ghost predicate NoBlanks(s: Str) { forall k :: 0 <= k < |s| ==> s[k] != 32 && s[k] != 9 && s[k] != 10 }

  /** With a blank for separator: no field is empty or has a blank, a tab or a newline in it, there is at least
      one of them between two fields, and nothing else is left out of the record. */
  lemma {:induction false} BlankFields(s: Str) returns (gaps: seq<Str>)
    ensures |gaps| == |Split(s, [32])| + 1 && Woven(gaps, Split(s, [32])) == s
    ensures forall k :: 0 <= k < |gaps| ==> OnlyBlanks(gaps[k])
    ensures forall k :: 0 < k < |gaps| - 1 ==> gaps[k] != []
    ensures forall k :: 0 <= k < |Split(s, [32])| ==> Split(s, [32])[k] != [] && NoBlanks(Split(s, [32])[k])
    ensures s != [] && NoBlanks(s[..1]) ==> gaps[0] == []
    decreases |s|
  {
    if s == [] {
      gaps := [[]];
    } else if Blank(s[0]) {
      gaps := BlankFields(s[1..]);
      WovenMore(s[..1], gaps, Words(s[1..]));
      gaps := gaps[0 := s[..1] + gaps[0]];
      assert s == s[..1] + s[1..];
    } else {
      var n := FieldEnd(s, Blank);
      var f := Words(s[n..]);
      gaps := BlankFields(s[n..]);
      if n == |s| {
        assert f == [];
      } else {
        FirstGap(s[n..], gaps, f);
      }
      WovenField(s[..n], gaps, f);
      assert s == s[..n] + s[n..];
      gaps := [[]] + gaps;
    }
  }

  lemma WovenMore(a: Str, gaps: seq<Str>, f: seq<Str>)
    requires |gaps| == |f| + 1
    ensures Woven(gaps[0 := a + gaps[0]], f) == a + Woven(gaps, f)
  {
    var more := gaps[0 := a + gaps[0]];
    assert more[1..] == gaps[1..];
    if f != [] { Assoc(a, gaps[0] + f[0], Woven(gaps[1..], f[1..])); }
  }

  lemma WovenField(a: Str, gaps: seq<Str>, f: seq<Str>)
    requires |gaps| == |f| + 1
    ensures Woven([[]] + gaps, [a] + f) == a + Woven(gaps, f)
  {
    hide Woven;
    var g, h := [[]] + gaps, [a] + f;
    WovenFirst(g, h);
    assert g[1..] == gaps && h[1..] == f && g[0] + h[0] == a;
  }

  lemma WovenFirst(gaps: seq<Str>, f: seq<Str>)
    requires |gaps| == |f| + 1 && f != []
    ensures Woven(gaps, f) == gaps[0] + f[0] + Woven(gaps[1..], f[1..])
  {
  }

  /** What begins with a blank begins with a gap. */
  lemma FirstGap(s: Str, gaps: seq<Str>, f: seq<Str>)
    requires s != [] && Blank(s[0]) && |gaps| == |f| + 1 && Woven(gaps, f) == s
    requires forall k :: 0 <= k < |f| ==> f[k] != [] && NoBlanks(f[k])
    ensures gaps[0] != []
  {
    if f != [] && gaps[0] == [] { FirstWoven(gaps, f); }
  }

  lemma FirstWoven(gaps: seq<Str>, f: seq<Str>)
    requires |gaps| == |f| + 1 && f != [] && f[0] != [] && gaps[0] == []
    ensures Woven(gaps, f) != [] && Woven(gaps, f)[0] == f[0][0]
  {
  }

  /** With another separator: no field has it or a newline in it, one of the two stands between two fields, and
      nothing else is left out.  An empty record has no fields. */
  lemma {:induction false} SeparatorFields(s: Str, sep: int) returns (cs: Str)
    requires sep != 32
    ensures s == [] <==> Split(s, [sep]) == []
    ensures s != [] ==> |Split(s, [sep])| == |cs| + 1 && Strung(Split(s, [sep]), cs) == s
    ensures forall k :: 0 <= k < |cs| ==> cs[k] == sep || cs[k] == 10
    ensures forall k :: 0 <= k < |Split(s, [sep])| ==> Free(Split(s, [sep])[k], sep)
  {
    if s == [] {
      cs := [];
    } else {
      PiecesFree(s, sep);
      cs := StrungPieces(s, sep);
    }
  }

  /** The fields with one character between each two. */
  function Strung(f: seq<Str>, cs: Str): Str
    requires |f| == |cs| + 1
  {
    if cs == [] then f[0] else f[0] + [cs[0]] + Strung(f[1..], cs[1..])
  }

  lemma {:induction false} StrungPieces(s: Str, sep: int) returns (cs: Str)
    ensures |Pieces(s, sep)| == |cs| + 1 && Strung(Pieces(s, sep), cs) == s
    ensures forall k :: 0 <= k < |cs| ==> cs[k] == sep || cs[k] == 10
    decreases |s|
  {
    hide Pieces, FieldEnd;
    var n := FieldEnd(s, Stops(sep));
    PieceStep(s, 0, n, sep);
    assert s[0..] == s && s[0..n] == s[..n];
    if n == |s| {
      cs := [];
    } else {
      var more := StrungPieces(s[n + 1..], sep);
      var f := Pieces(s[n + 1..], sep);
      StrungCons(s[..n], s[n], f, more);
      assert s == s[..n] + [s[n]] + s[n + 1..];
      cs := [s[n]] + more;
    }
  }

  lemma StrungCons(a: Str, c: int, f: seq<Str>, cs: Str)
    requires |f| == |cs| + 1
    ensures Strung([a] + f, [c] + cs) == a + [c] + Strung(f, cs)
  {
    assert ([a] + f)[1..] == f && ([c] + cs)[1..] == cs;
  }
}
