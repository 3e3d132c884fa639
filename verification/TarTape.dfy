/** The blocking of cmd/tar.c: blocks are gathered into records of `nblock`, and cut out of them again. */
module TarTape {
  import opened Wrappers

  type Block = seq<int>

  const NBLOCK: int := 40

  /** The blocks of a tape, record after record. */
  function Flat(records: seq<seq<Block>>): seq<Block> {
    if records == [] then [] else Flat(records[..|records| - 1]) + records[|records| - 1]
  }

  lemma FlatSnoc(records: seq<seq<Block>>, r: seq<Block>)
    ensures Flat(records + [r]) == Flat(records) + r
  {
    assert (records + [r])[..|records|] == records;
  }

  lemma {:induction false} FlatCons(r: seq<Block>, records: seq<seq<Block>>)
    ensures Flat([r] + records) == r + Flat(records)
    decreases |records|
  {
    if records == [] {
      assert ([r] + records)[..0] == [];
      assert [r] + records == [r];
    } else {
      var n := |records| - 1;
      assert ([r] + records)[..n + 1] == [r] + records[..n];
      FlatCons(r, records[..n]);
    }
  }

  class Writer {
    const tbuf: array<Block>
    var nblock: int
    var recno: int
    var first: bool
    var mt: seq<seq<Block>>

    constructor (nblock: nat)
      requires nblock <= NBLOCK
      ensures Valid() && this.nblock == nblock && mt == [] && recno == 0 && fresh(tbuf)
    {
      this.nblock, recno, first, mt := nblock, 0, false, [];
      tbuf := new Block[NBLOCK](_ => []);
    }

    ghost predicate Valid()
      reads this
    {
      && tbuf.Length == NBLOCK && 0 <= nblock <= NBLOCK && 0 <= recno
          && (if nblock == 0 then recno == 0 && mt == [] else recno <= nblock)
      && forall k :: 0 <= k < |mt| ==> |mt[k]| == nblock
    }

    /** All blocks written, on the tape or still in the buffer. */
    ghost function Stream(): seq<Block>
      requires Valid()
      reads this, tbuf
    {
      Flat(mt) + tbuf[..recno]
    }

    /** `write(mt, tbuf, TBLOCK * nblock)`, if the buffer is full. */
    method WriteFull()
      requires Valid() && nblock > 0
      modifies this`mt, this`recno
      ensures Valid() && recno < nblock && Stream() == old(Stream())
    {
      if recno >= nblock {
        FlatSnoc(mt, tbuf[..nblock]);
        mt := mt + [tbuf[..nblock]];
        recno := 0;
      }
    }

    /** writetape */
    method WriteTape(buffer: Block)
      requires Valid()
      modifies this, tbuf
      ensures Valid() && nblock == (if old(nblock) == 0 then 1 else old(nblock))
      ensures Stream() == old(Stream()) + [buffer]
    {
      hide Flat;
      first := true;
      if nblock == 0 {
        nblock := 1;
      }
      WriteFull();
      ghost var was := tbuf[..recno];
      tbuf[recno] := buffer;
      recno := recno + 1;
      assert tbuf[..recno] == was + [buffer];
      WriteFull();
    }

    /** flushtape: the buffer goes out whole, whatever is behind the last block. */
    method FlushTape()
      requires Valid() && nblock > 0
      modifies this
      ensures |Flat(mt)| >= |old(Stream())| && Flat(mt)[..|old(Stream())|] == old(Stream()) && mt != []
      ensures nblock == old(nblock) && forall k :: 0 <= k < |mt| ==> |mt[k]| == nblock
    {
      FlatSnoc(mt, tbuf[..nblock]);
      assert tbuf[..nblock][..recno] == tbuf[..recno];
      mt := mt + [tbuf[..nblock]];
    }
  }

  // --- reading ---

  /** The reader between two calls: the records left on the tape, the buffer, and the place in it. */
  datatype State = State(rest: seq<seq<Block>>, tbuf: seq<Block>, nblock: int, recno: int, first: bool)

  datatype Result = Failed | Read(buffer: Block, next: State)

  /** `read` from a tape into the buffer: one record, if it is not longer than asked for. */
  function Filled(s: State, j: int): (State, int)
    requires |s.tbuf| == NBLOCK && 0 <= j <= NBLOCK
  {
    if s.rest == [] || j == 0 then (s, 0)
    else if |s.rest[0]| > j then (s, -1)
    else (s.(rest := s.rest[1..], tbuf := s.rest[0] + s.tbuf[|s.rest[0]|..]), |s.rest[0]|)
  }

  /** readtape */
  function ReadStep(s: State): (r: Result)
    requires |s.tbuf| == NBLOCK && 0 <= s.nblock <= NBLOCK && 0 <= s.recno < NBLOCK + 1
    ensures r.Read? ==> |r.next.tbuf| == NBLOCK && 0 <= r.next.nblock <= NBLOCK && 0 < r.next.recno <= NBLOCK
  {
    if s.recno >= s.nblock || !s.first then
      var j := if !s.first && s.nblock == 0 then NBLOCK else s.nblock;
      var (t, i) := Filled(s, j);
      if i < 0 then Failed
      else
        var n := if !s.first && i != s.nblock && i != 1 then i else s.nblock;
        Read(t.tbuf[0], t.(nblock := n, recno := 1, first := true))
    else Read(s.tbuf[s.recno], s.(recno := s.recno + 1, first := true))
  }

  /** When does a blocking factor fit records of `r` blocks?  It is the same, or it is zero or larger, and
      the records are longer than one block. */
  predicate Suits(nblock: int, r: int) {
    nblock == r || (r != 1 && r <= (if nblock == 0 then NBLOCK else nblock))
  }

  /** A tape of records of `r` blocks each. */
  ghost predicate Records(mt: seq<seq<Block>>, r: int) {
    forall k :: 0 <= k < |mt| ==> |mt[k]| == r
  }

  /** A reader that is in step with records of `r` blocks. */
  ghost predicate InStep(s: State, r: int) {
    && |s.tbuf| == NBLOCK && 0 < r <= NBLOCK && Records(s.rest, r)
    && (if s.first then s.nblock == r && 0 <= s.recno <= r
        else 0 <= s.nblock <= NBLOCK && Suits(s.nblock, r) && s.recno == 0)
  }

  /** The blocks it has still to return. */
  ghost function Left(s: State): seq<Block> {
    (if s.first && 0 <= s.recno <= s.nblock <= |s.tbuf| then s.tbuf[s.recno..s.nblock] else []) + Flat(s.rest)
  }

  /** A call inside a record. */
  lemma ReadsOn(s: State, r: int)
    requires InStep(s, r) && s.first && s.recno < s.nblock
    ensures var x := ReadStep(s);
            x.Read? && InStep(x.next, r) && x.next.first && Left(s) == [x.buffer] + Left(x.next)
  {
    hide Flat, Suits;
    var x := ReadStep(s);
    assert s.tbuf[s.recno..s.nblock] == [x.buffer] + s.tbuf[s.recno + 1..s.nblock];
  }

  /** What a call that needs a new record leaves. */
  lemma NewRecord(s: State, r: int)
    requires InStep(s, r) && (s.recno >= s.nblock || !s.first) && s.rest != []
    ensures |s.rest[0]| == r && 0 < r <= |s.tbuf|
    ensures ReadStep(s) == Read(s.rest[0][0], State(s.rest[1..], s.rest[0] + s.tbuf[r..], r, 1, true))
  {
  }

  /** A call that reads the next record. */
  lemma ReadsRecord(s: State, r: int)
    requires InStep(s, r) && (s.recno >= s.nblock || !s.first) && Left(s) != []
    ensures var x := ReadStep(s);
            x.Read? && InStep(x.next, r) && x.next.first && Left(s) == [x.buffer] + Left(x.next)
  {
    hide Flat, Suits, ReadStep, Left, InStep;
    NoRecords();
    LeftAtEnd(s, r);
    NewRecord(s, r);
    FlatCons(s.rest[0], s.rest[1..]);
    assert s.rest == [s.rest[0]] + s.rest[1..];
    LeftInRecord(s, r);
    assert s.rest[0] == [s.rest[0][0]] + s.rest[0][1..];
    assert [s.rest[0][0]] + (s.rest[0][1..] + Flat(s.rest[1..])) == s.rest[0] + Flat(s.rest[1..]);
  }

  /** Between two records what is left are the records still on the tape. */
  lemma LeftAtEnd(s: State, r: int)
    requires InStep(s, r) && (s.recno >= s.nblock || !s.first)
    ensures Left(s) == Flat(s.rest)
  {
    hide Flat, Suits;
  }

  /** After the first block of a record what is left is the rest of it, and the records behind it. */
  lemma LeftInRecord(s: State, r: int)
    requires InStep(s, r) && s.rest != [] && |s.rest[0]| == r
    ensures var t := State(s.rest[1..], s.rest[0] + s.tbuf[r..], r, 1, true);
            InStep(t, r) && Left(t) == s.rest[0][1..] + Flat(s.rest[1..])
  {
    hide Flat, Suits;
    assert (s.rest[0] + s.tbuf[r..])[1..r] == s.rest[0][1..];
  }

  /** Every call returns the next block of the tape. */
  lemma ReadsNext(s: State, r: int)
    requires InStep(s, r) && Left(s) != []
    ensures var x := ReadStep(s);
            x.Read? && InStep(x.next, r) && x.next.first && Left(s) == [x.buffer] + Left(x.next)
  {
    hide Left, ReadStep, InStep;
    if s.recno >= s.nblock || !s.first {
      ReadsRecord(s, r);
    } else {
      ReadsOn(s, r);
    }
  }

  lemma NoRecords()
    ensures Flat([]) == []
  {
  }

  function Begin(mt: seq<seq<Block>>, tbuf: seq<Block>, nblock: int): State { State(mt, tbuf, nblock, 0, false) }

  /** A blocking factor that does not suit the tape already fails to give back two records. */
  lemma Unsuited(a: seq<Block>, b: seq<Block>, tbuf: seq<Block>, nblock: int, r: int)
    requires 0 <= nblock <= NBLOCK && 0 < r <= NBLOCK && !Suits(nblock, r) && |tbuf| == NBLOCK
    requires |a| == |b| == r && a[0] != b[0] && tbuf[1] != b[0]
    ensures var x := ReadStep(Begin([a, b], tbuf, nblock));
            r == 1 ==> x.Read? && x.buffer == a[0] && ReadStep(x.next).Read? && ReadStep(x.next).buffer != b[0]
    ensures r != 1 ==> ReadStep(Begin([a, b], tbuf, nblock)).Failed?
  {
  }

  /** What `n` calls return, unless one of them fails. */
  function Reads(s: State, n: nat): Option<seq<Block>>
    requires |s.tbuf| == NBLOCK && 0 <= s.nblock <= NBLOCK && 0 <= s.recno <= NBLOCK
    decreases n
  {
    if n == 0 then Some([])
    else
      match ReadStep(s)
      case Failed => None
      case Read(buffer, next) =>
        var rest := Reads(next, n - 1);
        if rest.None? then None else Some([buffer] + rest.value)
  }

  /** A reader begun with this blocking factor reads back every tape of records of `r` blocks. */
  ghost predicate Restores(nblock: int, r: int)
    requires 0 <= nblock <= NBLOCK
  {
    forall mt, tbuf :: Records(mt, r) && |tbuf| == NBLOCK ==>
      Reads(Begin(mt, tbuf, nblock), |Flat(mt)|) == Some(Flat(mt))
  }

  lemma {:induction false} ReadsAll(s: State, r: int)
    requires InStep(s, r) && |s.tbuf| == NBLOCK && 0 <= s.recno <= NBLOCK && 0 <= s.nblock <= NBLOCK
    ensures Reads(s, |Left(s)|) == Some(Left(s))
    decreases |Left(s)|
  {
    hide Left, InStep;
    if Left(s) == [] {
    } else {
      ReadsNext(s, r);
      ReadsAll(ReadStep(s).next, r);
    }
  }

  lemma LeftAtBegin(mt: seq<seq<Block>>, tbuf: seq<Block>, nblock: int)
    ensures Left(Begin(mt, tbuf, nblock)) == Flat(mt)
  {
  }

  lemma ReadsTwo(s: State, n: nat, x: Block, y: Block)
    requires |s.tbuf| == NBLOCK && 0 <= s.nblock <= NBLOCK && 0 <= s.recno <= NBLOCK && n >= 2
    requires ReadStep(s).Read? && ReadStep(ReadStep(s).next).Read? && ReadStep(ReadStep(s).next).buffer != y
    ensures Reads(s, n).Some? ==> |Reads(s, n).value| >= 2 && Reads(s, n).value[1] != y
  {
    hide ReadStep;
    assert Reads(ReadStep(s).next, n - 1).Some? ==> Reads(ReadStep(s).next, n - 1).value[0] != y;
  }

  lemma FlatTwo(a: seq<Block>, b: seq<Block>)
    ensures Flat([a, b]) == a + b
  {
    assert [a, b] == [a] + [b];
    assert [a] == [] + [a];
    FlatSnoc([a], b);
    FlatSnoc([], a);
  }

  /** A tape on which an unsuitable blocking factor goes wrong. */
  lemma NotRestored(nblock: int, r: int)
    requires 0 <= nblock <= NBLOCK && 0 < r <= NBLOCK && !Suits(nblock, r)
    ensures !Restores(nblock, r)
  {
    hide Flat;
    var a, b: seq<Block>, tbuf: seq<Block> := seq(r, _ => [1]), seq(r, _ => [2]), seq(NBLOCK, _ => [0]);
    var mt := [a, b];
    var s := Begin(mt, tbuf, nblock);
    Unsuited(a, b, tbuf, nblock, r);
    FlatTwo(a, b);
    assert Records(mt, r);
    hide ReadStep;
    if r == 1 {
      ReadsTwo(s, 2, a[0], b[0]);
    }
    assert Reads(s, |Flat(mt)|) != Some(Flat(mt));
  }

  /** Exactly the blocking factors that suit the records give every tape back. */
  lemma SuitsIff(nblock: int, r: int)
    requires 0 <= nblock <= NBLOCK && 0 < r <= NBLOCK
    ensures Suits(nblock, r) <==> Restores(nblock, r)
  {
    if Suits(nblock, r) {
      forall mt, tbuf | Records(mt, r) && |tbuf| == NBLOCK
        ensures Reads(Begin(mt, tbuf, nblock), |Flat(mt)|) == Some(Flat(mt))
      {
        LeftAtBegin(mt, tbuf, nblock);
        ReadsAll(Begin(mt, tbuf, nblock), r);
      }
    } else {
      NotRestored(nblock, r);
    }
  }

  class Reader {
    const tbuf: array<Block>
    var nblock: int
    var recno: int
    var first: bool
    var rest: seq<seq<Block>>

    constructor (mt: seq<seq<Block>>, nblock: nat)
      requires nblock <= NBLOCK
      ensures Valid() && fresh(tbuf) && Abs().rest == mt && Abs().nblock == nblock && !Abs().first && Abs().recno == 0
    {
      this.nblock, recno, first, rest := nblock, 0, false, mt;
      tbuf := new Block[NBLOCK](_ => []);
    }

    ghost predicate Valid()
      reads this
    {
      tbuf.Length == NBLOCK && 0 <= nblock <= NBLOCK && 0 <= recno <= NBLOCK
    }

    ghost function Abs(): State
      reads this, tbuf
    {
      State(rest, tbuf[..], nblock, recno, first)
    }

    /** `read(mt, tbuf, TBLOCK * j)` */
    method ReadRecord(j: int) returns (i: int)
      requires Valid() && 0 <= j <= NBLOCK
      modifies this`rest, tbuf
      ensures (Abs(), i) == Filled(old(Abs()), j)
    {
      if rest == [] || j == 0 {
        return 0;
      }
      var r := rest[0];
      if |r| > j {
        return -1;
      }
      i := 0;
      while i < |r|
        invariant 0 <= i <= |r| && rest == old(rest)
        invariant forall k :: 0 <= k < NBLOCK ==> tbuf[k] == if k < i then r[k] else old(tbuf[k])
      {
        tbuf[i] := r[i];
        i := i + 1;
      }
      rest := rest[1..];
      assert tbuf[..] == r + old(tbuf[..])[|r|..];
    }

    /** readtape */
    method ReadTape() returns (ok: bool, buffer: Block)
      requires Valid()
      modifies this, tbuf
      ensures var x := ReadStep(old(Abs()));
              Valid() && (ok <==> x.Read?) && (ok ==> buffer == x.buffer && Abs() == x.next)
    {
      if recno >= nblock || !first {
        var j := if !first && nblock == 0 then NBLOCK else nblock;
        var i := ReadRecord(j);
        if i < 0 {
          return false, [];
        }
        if !first {
          if i != nblock && i != 1 {
            nblock := i;
          }
        }
        recno := 0;
      }
      first := true;
      buffer := tbuf[recno];
      recno := recno + 1;
      ok := true;
    }
  }
}
