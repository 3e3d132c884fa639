/** `getblk` and `clrbuf` of cmd/frec.c: logical blocks are cut out of larger tape blocks, which they may
    straddle. */
module Deblocking {
  const INITIO: int := -1

  /** Where logical block `k` starts. */
  function At(start: int, k: int, bsize: int): int { start + k * bsize }

  lemma AtNext(start: int, k: int, bsize: int)
    ensures At(start, k + 1, bsize) == At(start, k, bsize) + bsize && At(start, 0, bsize) == start
  {
  }

  class Reader {
    const tape: seq<int>
    const blksize: int
    const bsize: int
    const ibuf: array<int>
    const lbbuf: array<int>
    var pos: int
    var bufoff: int
    var curb: int
    /** Where the reading started, and how many logical blocks have been returned since. */
    ghost var start: int
    ghost var count: int

    constructor (tape: seq<int>, blksize: int, bsize: int)
      requires 0 < bsize <= blksize
      ensures Valid() && this.tape == tape && this.blksize == blksize && this.bsize == bsize
      ensures pos == start == 0 && count == 0 && bufoff == INITIO && curb == -1 && fresh(ibuf) && fresh(lbbuf)
    {
      this.tape, this.blksize, this.bsize := tape, blksize, bsize;
      ibuf, lbbuf := new int[blksize](_ => 0), new int[bsize](_ => 0);
      pos, bufoff, curb, start, count := 0, INITIO, -1, 0, 0;
    }

    /** What is in `ibuf` from `bufoff` on is the next on the tape after the blocks returned. */
    ghost predicate Valid()
      reads this, ibuf
    {
      && 0 < bsize <= blksize == ibuf.Length && lbbuf.Length == bsize && ibuf != lbbuf
      && count >= 0
      && (if bufoff == INITIO then count == 0 && 0 <= start == pos <= |tape| else StandsAt(At(start, count, bsize)))
    }

    /** The next block starts inside `ibuf`, or right after it, at the place `at` of the tape. */
    ghost predicate StandsAt(at: int)
      reads this`bufoff, this`start, this`pos, ibuf
    {
      && 0 < bufoff <= blksize == ibuf.Length && 0 <= start <= start + blksize <= pos <= |tape|
      && ibuf[..] == tape[pos - blksize..pos] && pos - blksize + bufoff == at
    }

    lemma Standing()
      requires Valid()
      ensures 0 < bsize <= blksize && bufoff <= blksize && 0 <= pos
      ensures bufoff != INITIO ==> 0 < bufoff && pos - blksize + bufoff == At(start, count, bsize)
      ensures bufoff == INITIO ==> pos == At(start, count, bsize)
    {
    }

    /** clrbuf: the next block is read from where the tape stands. */
    method ClrBuf()
      requires Valid()
      modifies this
      ensures Valid() && bufoff == INITIO && start == pos == old(pos) && count == 0 && curb == old(curb)
    {
      bufoff := INITIO;
      start, count := pos, 0;
      AtNext(start, 0, bsize);
    }

    /** `read(g_fpi, g_ibuf, g_blksize)`; a short read ends the program. */
    method Read() returns (ok: bool)
      requires 0 <= pos <= |tape| && ibuf.Length == blksize
      modifies this`pos, ibuf
      ensures ok <==> old(pos) + blksize <= |tape|
      ensures ok ==> pos == old(pos) + blksize && ibuf[..] == tape[pos - blksize..pos]
      ensures !ok ==> pos == old(pos) && ibuf[..] == old(ibuf[..])
    {
      if pos + blksize > |tape| {
        return false;
      }
      Copy(ibuf, 0, tape[pos..pos + blksize]);
      pos := pos + blksize;
      return true;
    }

    /** The bytes `from` on of the tape, one logical block of them, are at `off` in `buf`. */
    ghost predicate Holds(buf: array<int>, off: int, from: int)
      reads buf
    {
      && 0 <= bsize && 0 <= off && off + bsize <= buf.Length && 0 <= from && from + bsize <= |tape|
      && buf[off..off + bsize] == tape[from..from + bsize]
    }

    /** A logical block that starts at the end of one tape block and ends in the next. */
    method Straddle(ghost from: int) returns (ok: bool)
      requires Valid() && bufoff != INITIO && 0 < blksize - bufoff < bsize && from == pos - blksize + bufoff
      modifies this`pos, this`bufoff, ibuf, lbbuf
      ensures ok <==> old(pos) + blksize <= |tape|
      ensures ok ==> bufoff != INITIO && StandsAt(from + bsize) && Holds(lbbuf, 0, from)
    {
      hide At, Holds, Written;
      var part := blksize - bufoff;
      ghost var was, first, b0 := pos, ibuf[..], lbbuf[..];
      Copy(lbbuf, 0, ibuf[bufoff..blksize]);
      ghost var b1 := lbbuf[..];
      ok := Read();
      if !ok {
        return;
      }
      ghost var second := ibuf[..];
      Copy(lbbuf, part, ibuf[..bsize - part]);
      Straddled(b0, b1, lbbuf[..], first, second, tape, was, blksize, part);
      HoldsAll(from);
      bufoff := bsize - part;
    }

    lemma HoldsAll(from: int)
      requires lbbuf.Length == bsize && 0 <= from && from + bsize <= |tape| && lbbuf[..] == tape[from..from + bsize]
      ensures Holds(lbbuf, 0, from)
    {
      assert lbbuf[0..bsize] == lbbuf[..];
    }

    /** A logical block that lies in the tape block at hand. */
    method Within()
      requires Valid() && bufoff != INITIO && bufoff + bsize <= blksize
      modifies this`bufoff
      ensures bufoff != INITIO && StandsAt(pos - blksize + old(bufoff) + bsize)
      ensures Holds(ibuf, old(bufoff), pos - blksize + old(bufoff))
    {
      hide At;
      Cut(tape, pos - blksize, blksize, bufoff, bufoff + bsize);
      assert ibuf[bufoff..bufoff + bsize] == ibuf[..][bufoff..bufoff + bsize];
      bufoff := bufoff + bsize;
    }

    /** A logical block at the start of a new tape block. */
    method Refill() returns (ok: bool)
      requires Valid()
      modifies this`pos, this`bufoff, ibuf
      ensures ok <==> old(pos) + blksize <= |tape|
      ensures ok ==> bufoff != INITIO && StandsAt(old(pos) + bsize) && Holds(ibuf, 0, old(pos))
    {
      hide At;
      ok := Read();
      if !ok {
        return;
      }
      bufoff := bsize;
      Cut(tape, pos - blksize, blksize, 0, bsize);
      assert ibuf[0..bsize] == ibuf[..][0..bsize];
    }

    /** getblk: the next logical block, as a place in one of the buffers.  The k-th block since clrbuf, for
        every k, is the k-th stretch of `bsize` bytes of the tape. */
    method GetBlk() returns (ok: bool, buf: array<int>, off: int)
      requires Valid()
      modifies this, ibuf, lbbuf
      ensures start == old(start)
      ensures ok ==> Valid() && count == old(count) + 1 && curb == old(curb) + 1 && bufoff != INITIO
                     && Holds(buf, off, At(start, count - 1, bsize))
      ensures !ok ==> old(pos) + blksize > |tape| && (old(bufoff) == INITIO || old(bufoff) + bsize > blksize)
    {
      hide At, Holds, StandsAt;
      ghost var from := At(start, count, bsize);
      Standing();
      AtNext(start, count, bsize);
      if blksize - bufoff < bsize || bufoff == INITIO {
        if blksize - bufoff == 0 || bufoff == INITIO {
          ok := Refill();
          buf, off := ibuf, 0;
          if !ok {
            return;
          }
        } else {
          ok := Straddle(from);
          buf, off := lbbuf, 0;
          if !ok {
            return;
          }
        }
      } else {
        ok, buf, off := true, ibuf, bufoff;
        Within();
      }
      curb := curb + 1;
      count := count + 1;
    }
  }

  lemma Straddled(b0: seq<int>, b1: seq<int>, b: seq<int>, first: seq<int>, second: seq<int>, t: seq<int>, was: int,
      n: int, part: int)
    requires 0 < part < |b0| <= n && 0 <= was - n && was + n <= |t| && first == t[was - n..was]
        && second == t[was..was + n]
    requires b1 == Written(b0, 0, first[n - part..n]) && b == Written(b1, part, second[..|b0| - part])
    ensures b == t[was - part..was - part + |b0|]
  {
    hide Written;
    Cut(t, was - n, n, n - part, n);
    Cut(t, was, n, 0, |b0| - part);
    assert second[..|b0| - part] == second[0..|b0| - part];
    TwoParts(b0, first[n - part..n], second[..|b0| - part]);
    Meet(t, was - part, was, was - part + |b0|);
  }

  lemma TwoParts(b0: seq<int>, x: seq<int>, y: seq<int>)
    requires |x| + |y| == |b0|
    ensures Written(Written(b0, 0, x), |x|, y) == x + y
  {
    assert Written(b0, 0, x)[..|x|] == x;
  }

  lemma Meet(t: seq<int>, i: int, j: int, k: int)
    requires 0 <= i <= j <= k <= |t|
    ensures t[i..j] + t[j..k] == t[i..k]
  {
  }

  function Written(b: seq<int>, at: int, s: seq<int>): (r: seq<int>)
    requires 0 <= at && at + |s| <= |b|
    ensures |r| == |b|
  {
    b[..at] + s + b[at + |s|..]
  }

  /** memcpy */
  method Copy(a: array<int>, at: int, s: seq<int>)
    requires 0 <= at && at + |s| <= a.Length
    modifies a
    ensures a[..] == Written(old(a[..]), at, s)
  {
    ghost var was := a[..];
    var i := 0;
    while i < |s|
      invariant 0 <= i <= |s|
      invariant forall k :: 0 <= k < a.Length ==> a[k] == if at <= k < at + i then s[k - at] else was[k]
    {
      a[at + i] := s[i];
      i := i + 1;
    }
  }

  lemma Cut(t: seq<int>, p: int, n: int, i: int, j: int)
    requires 0 <= p && 0 <= i <= j <= n && p + n <= |t|
    ensures t[p..p + n][i..j] == t[p + i..p + j]
  {
    var a, b := t[p..p + n][i..j], t[p + i..p + j];
    assert |a| == |b|;
    forall k | 0 <= k < |a| ensures a[k] == b[k] {
      assert a[k] == t[p..p + n][i + k] == t[p + (i + k)];
    }
  }
}
