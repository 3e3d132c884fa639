/** `compile` of head_m88k/regexp.h: it fills the buffer byte by byte, sets bits of a class in place, and
    goes back to the last instruction to give it its STAR or RNGE bits. */
module EdCompile {
  import opened EdProgram
  import opened EdParse

  datatype Result = Failed(code: int) | Returned(end: int)

  /** How one turn of the main loop ends. */
  datatype Turned = Erred(code: int) | Ended | Continues

  lemma ItemBytes(op: int, arg: seq<int>)
    ensures Bytes(Item(op, arg, [])) == [op] + arg
  {
  }

  lemma Append(a: seq<int>, b: seq<int>, i: int, x: int)
    requires 0 <= i < |a| && |b| == |a| && b == a[i := x]
    ensures b[..i] == a[..i] && b[..i + 1] == a[..i] + [x]
  {
  }

  /** A narrow set needs only the first 16 bytes. */
  lemma NarrowBytes(s: set<int>, b: seq<int>)
    requires Narrow(s) && |b| == 32 && b[..16] == Bitmap(s, 16) && forall k :: 16 <= k < 32 ==> b[k] == 0
    ensures b == Bitmap(s, 32)
  {
    forall k | 0 <= k < 32 ensures b[k] == Bitmap(s, 32)[k] {
      if k < 16 {
        assert b[k] == b[..16][k];
      } else {
        HighByte(s, k);
      }
    }
  }

  lemma HighByte(s: set<int>, k: int)
    requires Narrow(s) && k >= 16
    ensures ByteOf(s, k) == 0
  {
  }

  lemma NoItems()
    ensures Flatten(START.items) == []
  {
  }

  class Compiler {
    const instring: seq<int>
    const eof: int
    const sed: bool
    const buf: array<int>
    const endbuf: int
    var sp: int
    var ep: int
    var lastep: int
    var bracket: seq<int>
    var closed: int
    var nbra: int
    var circf: bool
    var nodelim: bool

    constructor (instring: seq<int>, eof: int, sed: bool, buf: array<int>, endbuf: int)
      requires 0 <= endbuf < buf.Length
      ensures this.instring == instring && this.eof == eof && this.sed == sed && this.buf == buf
          && this.endbuf == endbuf
      ensures sp == 0 && ep == 0 && !nodelim && !circf
    {
      this.instring, this.eof, this.sed, this.buf, this.endbuf := instring, eof, sed, buf, endbuf;
      sp, ep, lastep, bracket, closed, nbra, circf, nodelim := 0, 0, -1, [], 0, 0, false, false;
    }

    predicate Valid()
      reads this
    {
      0 <= endbuf < buf.Length && 0 <= sp && 0 <= ep
    }

    /** The buffer holds the instructions of `st`. */
    ghost predicate Written(st: State)
      reads this, buf
    {
      && Valid() && ep <= buf.Length
      && buf[..ep] == Flatten(st.items)
      && bracket == st.open && closed == st.closed && nbra == st.nbra
    }

    /** ... and `lastep` is where the last of them starts, -1 for none. */
    ghost predicate Holds(st: State)
      reads this, buf
    {
      Written(st) && lastep == if st.items == [] then -1 else |Flatten(st.items[..|st.items| - 1])|
    }

    method GetC() returns (c: int)
      requires 0 <= sp
      modifies this`sp
      ensures sp == old(sp) + 1 && c == At(instring, old(sp))
    {
      c := At(instring, sp);
      sp := sp + 1;
    }

    /** `*ep++ = b` */
    method Put(b: int)
      requires Valid() && ep < buf.Length
      modifies this`ep, buf
      ensures ep == old(ep) + 1 && buf[..ep] == old(buf[..ep]) + [b]
    {
      ghost var was := buf[..];
      buf[ep] := b;
      ep := ep + 1;
      Append(was, buf[..], ep - 1, b);
    }

    // --- classes ---

    /** A class under construction: the code before it, its opcode, and the bits of `s` from `ep` on. */
    ghost predicate Drawn(was: seq<int>, op: int, s: set<int>, n: nat)
      reads this`ep, buf
    {
      && 0 <= endbuf < buf.Length && ep == |was| + 1 && ep + n <= buf.Length
      && buf[..ep] == was + [op] && buf[ep..ep + n] == Bitmap(s, n)
    }

    lemma DrawnAgain(was: seq<int>, op: int, s: set<int>, n: nat, b: seq<int>, i: int, x: int)
      requires |b| == buf.Length && ep == |was| + 1 && ep + n <= |b| && b[..ep] == was + [op]
          && b[ep..ep + n] == Bitmap(s, n)
      requires 0 <= i < n && buf[..] == b[ep + i := x]
      ensures buf[..ep] == was + [op] && buf[ep..ep + n] == Bitmap(s, n)[i := x]
    {
      hide Bitmap;
      assert buf[..ep] == buf[..][..ep] == b[..ep];
      assert buf[ep..ep + n] == buf[..][ep..ep + n] == b[ep..ep + n][i := x];
    }

    /** PLACE */
    method Place(c: int, n: nat, ghost was: seq<int>, ghost op: int, ghost s: set<int>)
      requires 0 <= c < 8 * n && Drawn(was, op, s, n)
      modifies buf
      ensures Drawn(was, op, s + {c}, n)
    {
      hide Bitmap, OrBit;
      ghost var b := buf[..];
      assert b[ep..ep + n][c / 8] == b[ep + c / 8];
      buf[ep + c / 8] := OrBit(buf[ep + c / 8], c % 8);
      DrawnAgain(was, op, s, n, b, c / 8, buf[ep + c / 8]);
      PlaceBit(s, n, c);
    }

    /** The bytes from `ep + from` up to `ep + n` are cleared. */
    method Clear(from: int, n: int)
      requires 0 <= from <= n && 0 <= ep && ep + n <= buf.Length
      modifies buf
      ensures buf[..ep + from] == old(buf[..ep + from])
      ensures forall k :: ep + from <= k < ep + n ==> buf[k] == 0
    {
      var i := from;
      while i < n
        invariant from <= i <= n
        invariant buf[..ep + from] == old(buf[..ep + from])
        invariant forall k :: ep + from <= k < ep + i ==> buf[k] == 0
      {
        ghost var b := buf[..ep + from];
        buf[ep + i] := 0;
        assert buf[..ep + from] == b;
        i := i + 1;
      }
    }

    /** The first character with the eighth bit: the class becomes a wide one. */
    method Widen(ghost was: seq<int>, ghost s: set<int>)
      requires Drawn(was, CCL, s, 16) && Narrow(s) && ep + 32 < endbuf
      modifies buf
      ensures Drawn(was, CXCL, s, 32)
    {
      hide Bitmap;
      ghost var b := buf[..];
      buf[ep - 1] := CXCL;
      ghost var b1 := buf[..];
      Clear(16, 32);
      assert buf[..ep + 16] == b1[..ep + 16];
      assert buf[..ep] == buf[..ep + 16][..ep] == b1[..ep] == b[..ep][ep - 1 := CXCL] == was + [CXCL];
      assert buf[ep..ep + 32][..16] == buf[..ep + 16][ep..] == b[ep..ep + 16];
      NarrowBytes(s, buf[ep..ep + 32]);
    }

    /** `while(lc < c) PLACE(lc++)` */
    method PlaceRange(lc: int, c: int, n: nat, ghost was: seq<int>, ghost op: int, ghost s: set<int>) returns (l: int)
      requires 0 <= lc < 256 && 0 <= c < 256 && (c < 128 || n == 32) && n >= 16 && Drawn(was, op, s, n)
      modifies buf
      ensures Drawn(was, op, s + Between(lc, c), n)
    {
      hide Bitmap;
      l := lc;
      assert s + Between(lc, lc) == s;
      while l < c
        invariant lc <= l && (lc <= c ==> l <= c) && (l > lc ==> l <= c)
        invariant Drawn(was, op, s + Between(lc, l), n)
      {
        Place(l, n, was, op, s + Between(lc, l));
        assert s + Between(lc, l) + {l} == s + Between(lc, l + 1);
        l := l + 1;
      }
      assert Between(lc, l) == Between(lc, c);
    }

    /** Members of the class, from the first one on; `false` and an error number, or the bits are drawn. */
    method ReadMembers(c0: int, neg: bool, ghost was: seq<int>) returns (code: int, wide: bool, ghost s: set<int>)
      requires Drawn(was, CCL, {}, 16) && sp > 0 && c0 == At(instring, sp - 1) && IsPattern(instring)
          && ep + 16 < endbuf
      modifies this`sp, buf
      ensures var r := Members(instring, old(sp) - 1, 0, {}, false, ep + 32 < endbuf);
              && (r.BadClass? ==> code == r.code)
              && (r.ClassRead? ==>
                    && code == 0 && sp == r.next && s == r.members && wide == r.wide && (wide ==> ep + 32 < endbuf)
                    && Drawn(was, if wide then CXCL else CCL, s, if wide then 32 else 16))
    {
      hide Bitmap, Between, Drawn, IsText;
      var c, lc := c0, 0;
      wide, s, code := false, {}, 0;
      ghost var roomy := ep + 32 < endbuf;
      while true
        invariant sp > 0 && c == At(instring, sp - 1) && 0 <= lc < 256 && (wide ==> roomy) && (!wide ==> Narrow(s))
        invariant Drawn(was, if wide then CXCL else CCL, s, if wide then 32 else 16)
        invariant Members(instring, sp - 1, lc, s, wide, roomy) == Members(instring, old(sp) - 1, 0, {}, false, roomy)
        decreases |instring| - sp
      {
        Character(instring, sp - 1);
        Character(instring, sp);
        if c == 0 || c == NEWLINE {
          code := 49;
          return;
        }
        if c >= 128 && !wide {
          if ep + 32 >= endbuf {
            code := 50;
            return;
          }
          Widen(was, s);
          wide := true;
        }
        if c == MINUS && lc != 0 {
          c := GetC();
          if c == RBRACKET {
            Place(MINUS, if wide then 32 else 16, was, if wide then CXCL else CCL, s);
            s := s + {MINUS};
            return;
          }
          if c >= 128 && !wide {
            if ep + 32 >= endbuf {
              code := 50;
              return;
            }
            Widen(was, s);
            wide := true;
          }
          var l := PlaceRange(lc, c, if wide then 32 else 16, was, if wide then CXCL else CCL, s);
          NarrowRange(s, lc, c);
          s := s + Between(lc, c);
        }
        lc := c;
        Place(c, if wide then 32 else 16, was, if wide then CXCL else CCL, s);
        s := s + {c};
        c := GetC();
        if c == RBRACKET {
          return;
        }
      }
    }

    lemma NarrowRange(s: set<int>, a: int, b: int)
      ensures Narrow(s) && b < 128 ==> Narrow(s + Between(a, b))
    {
    }

    lemma Character(pat: seq<int>, i: int)
      requires IsPattern(pat)
      ensures 0 <= At(pat, i) < 256 && (At(pat, i) != 0 ==> 0 <= i < |pat|)
    {
    }

    /** Case `[`. */
    method ReadClass() returns (code: int)
      requires Valid() && IsPattern(instring) && ep < endbuf
      modifies this`sp, this`ep, buf
      ensures var neg := At(instring, old(sp)) == CARET;
              var r := Members(instring, if neg then old(sp) + 1 else old(sp), 0, {}, false, old(ep) + 33 < endbuf);
              if old(ep) + 17 >= endbuf then code == 50
              else if r.BadClass? then code == r.code
              else code == 0 && sp == r.next && 0 <= ep <= endbuf
                   && buf[..ep] == old(buf[..ep]) + Bytes(ClassItem(neg, r.members, r.wide))
    {
      hide Bitmap, IsText, Members, Bytes;
      if ep + 17 >= endbuf {
        return 50;
      }
      ghost var was := buf[..ep];
      Put(CCL);
      Clear(0, 16);
      EmptyBits(buf[ep..ep + 16]);
      var c := GetC();
      var neg := c == CARET;
      if neg {
        c := GetC();
      }
      ghost var s;
      var wide;
      code, wide, s := ReadMembers(c, neg, was);
      if code == 0 {
        Close(neg, wide, was, s);
      }
    }

    lemma EmptyBits(b: seq<int>)
      requires |b| == 16 && forall k :: 0 <= k < 16 ==> b[k] == 0
      ensures b == Bitmap({}, 16)
    {
    }

    /** The end of a class: a negated one is complemented, or given the opcode that negates. */
    method Close(neg: bool, wide: bool, ghost was: seq<int>, ghost s: set<int>)
      requires Drawn(was, if wide then CXCL else CCL, s, if wide then 32 else 16)
      requires ep + (if wide then 32 else 16) <= endbuf
      modifies this`ep, buf
      ensures 0 <= ep <= endbuf && buf[..ep] == was + Bytes(ClassItem(neg, s, wide))
    {
      hide Bitmap, Drawn, Bytes, Chars;
      ghost var x := ClassItem(neg, s, wide);
      if neg {
        if wide {
          ComplementWide(was, s);
        } else {
          NegateNarrow(was, s);
        }
      }
      Finished(was, x, if neg then (if wide then Chars() - s - {0} else s + {0}) else s);
      ep := ep + (if wide then 32 else 16);
    }

    lemma Finished(was: seq<int>, x: Item, s: set<int>)
      requires Drawn(was, x.op, s, |x.arg|) && x == Item(x.op, Bitmap(s, |x.arg|), [])
      ensures 0 <= ep && ep + |x.arg| <= buf.Length && buf[..ep + |x.arg|] == was + Bytes(x)
    {
      hide Bitmap;
      Join(buf[..], ep, was + [x.op], x.arg);
      ItemBytes(x.op, x.arg);
      assert was + ([x.op] + x.arg) == was + [x.op] + x.arg;
    }

    /** A wide class is complemented, but for NUL. */
    method ComplementWide(ghost was: seq<int>, ghost s: set<int>)
      requires Drawn(was, CXCL, s, 32)
      modifies buf
      ensures Drawn(was, CXCL, Chars() - s - {0}, 32)
    {
      hide Bitmap, Chars;
      Complement(was, s);
      ClearNul(Chars() - s, 32);
      ghost var b := buf[..];
      assert b[ep..ep + 32][0] == b[ep];
      buf[ep] := buf[ep] - buf[ep] % 2;
      DrawnAgain(was, CXCL, Chars() - s, 32, b, 0, buf[ep]);
    }

    /** A narrow one gets the opcode that negates, and NUL. */
    method NegateNarrow(ghost was: seq<int>, ghost s: set<int>)
      requires Drawn(was, CCL, s, 16)
      modifies buf
      ensures Drawn(was, NCCL, s + {0}, 16)
    {
      hide Bitmap;
      ghost var b := buf[..];
      buf[ep - 1] := NCCL;
      assert buf[ep..ep + 16] == b[ep..ep + 16];
      assert buf[..ep] == b[..ep][ep - 1 := NCCL] == was + [NCCL];
      Place(0, 16, was, NCCL, s);
    }

    lemma Join(b: seq<int>, e: int, x: seq<int>, y: seq<int>)
      requires e == |x| && e + |y| <= |b| && b[..e] == x && b[e..e + |y|] == y
      ensures b[..e + |y|] == x + y
    {
      assert b[..e + |y|] == b[..e] + b[e..e + |y|];
    }

    /** `ep[i] ^= 0377` for all 32 bytes. */
    method Complement(ghost was: seq<int>, ghost s: set<int>)
      requires Drawn(was, CXCL, s, 32)
      modifies buf
      ensures Drawn(was, CXCL, Chars() - s, 32)
    {
      hide Bitmap;
      ghost var b := buf[..];
      var i := 0;
      while i < 32
        invariant 0 <= i <= 32
        invariant forall k :: 0 <= k < buf.Length ==> buf[k] == if ep <= k < ep + i then 255 - b[k] else b[k]
      {
        buf[ep + i] := 255 - buf[ep + i];
        i := i + 1;
      }
      assert buf[..ep] == b[..ep];
      forall k | 0 <= k < 32 ensures buf[ep..ep + 32][k] == Bitmap(Chars() - s, 32)[k] {
        assert b[ep + k] == b[ep..ep + 32][k];
        ComplementAt(s, k);
      }
    }

    lemma ComplementAt(s: set<int>, k: int)
      requires 0 <= k < 32
      ensures Bitmap(Chars() - s, 32)[k] == 255 - Bitmap(s, 32)[k]
    {
      ByteComplement(s, k);
    }

    // --- intervals ---

    /** A decimal number; `c` is the character after it. */
    method ReadNumber() returns (code: int, i: int, c: int)
      requires 0 <= sp
      modifies this`sp
      ensures var n := Digits(instring, old(sp), 0);
              && (n.BadNumber? ==> code == n.code)
              && (n.Number? ==> code == 0 && i == n.value && sp == n.next + 1 && c == At(instring, n.next))
    {
      hide At;
      c := GetC();
      i, code := 0, 0;
      while true
        invariant sp > 0 && c == At(instring, sp - 1)
        invariant Digits(instring, sp - 1, i) == Digits(instring, old(sp), 0)
        decreases |instring| - sp
      {
        assert At(instring, sp - 1) != 0 ==> sp - 1 < |instring| by { AtEnd(instring, sp - 1); }
        if ZERO <= c && c <= NINE {
          i := 10 * i + c - ZERO;
        } else {
          code := 16;
          return;
        }
        c := GetC();
        if c == BACKSLASH || c == COMMA {
          if i > 255 {
            code := 11;
          }
          return;
        }
      }
    }

    lemma AtEnd(pat: seq<int>, i: int)
      ensures At(pat, i) != 0 ==> 0 <= i < |pat|
    {
    }

    lemma LastTwo(b: seq<int>, e: int, was: seq<int>, low: int, high: int)
      requires e == |was| + 2 <= |b| && b[..e] == was + [low] + [high]
      ensures b[e - 2] == low && b[e - 1] == high
    {
      assert b[e - 2] == b[..e][e - 2] && b[e - 1] == b[..e][e - 1];
    }

    /** The bounds of an interval go into the buffer, one byte each. */
    method ReadBounds() returns (code: int)
      requires Valid() && ep < endbuf
      modifies this`sp, this`ep, buf
      ensures var b := Bounds(instring, old(sp));
              && (b.BadInterval? ==> code == b.code)
              && (b.Interval? ==>
                    code == 0 && sp == b.next && ep == old(ep) + 2
                    && buf[..ep] == old(buf[..ep]) + [b.low, b.high])
    {
      hide Digits;
      ghost var was := buf[..ep];
      var i, c;
      code, i, c := ReadNumber();
      if code != 0 {
        return;
      }
      Put(i);
      ghost var low, high := i, 0;
      if c == COMMA {
        c := GetC();
        if c == BACKSLASH {
          Put(255);
          high := 255;
        } else {
          sp := sp - 1;
          code, i, c := ReadNumber();
          if code != 0 {
            return;
          }
          Put(i);
          high := i;
          if c == COMMA {
            return 44;
          }
        }
        var e := GetC();
        if e != RBRACE {
          return 45;
        }
        LastTwo(buf[..], ep, was, low, high);
        if buf[ep - 1] < buf[ep - 2] {
          return 46;
        }
      } else {
        var e := GetC();
        if e != RBRACE {
          return 45;
        }
        Put(i);
      }
    }

    // --- the main loop ---

    lemma SetByte(b: seq<int>, i: int, front: seq<int>, op: int, rest: seq<int>, op1: int)
      requires i == |front| && b == front + ([op] + rest)
      ensures i < |b| && b[i] == op && b[i := op1] == front + ([op1] + rest)
    {
    }

    /** `*lastep |= ...`: the byte at `lastep` is the opcode of the last instruction. */
    lemma LastOpcode(st: State, op: int)
      requires Holds(st) && st.items != []
      ensures var x := Last(st.items);
              && 0 <= lastep < ep && buf[lastep] == x.op
              && buf[..ep][lastep := op] == Flatten(SetLast(st.items, x.(op := op)))
    {
      hide Flatten;
      var x := Last(st.items);
      FlattenLast(st.items, x.(op := op));
      assert Bytes(x) == [x.op] + (x.arg + x.tail) && Bytes(x.(op := op)) == [op] + (x.arg + x.tail);
      SetByte(buf[..ep], lastep, Flatten(st.items[..|st.items| - 1]), x.op, x.arg + x.tail, op);
      assert buf[lastep] == buf[..ep][lastep];
    }

    /** One instruction more. */
    lemma Added(st: State, was: seq<int>, x: Item)
      requires was == Flatten(st.items)
      ensures Flatten(Add(st, x).items) == was + Bytes(x)
      ensures Add(st, x).items[..|st.items|] == st.items
    {
      FlattenSnoc(st.items, x);
    }

    /** An instruction of one byte. */
    method PutOne(op: int, ghost st: State)
      requires Written(st) && ep < endbuf && lastep == ep
      modifies this`ep, buf
      ensures Holds(Add(st, Item(op, [], [])))
    {
      hide Flatten;
      Added(st, buf[..ep], Item(op, [], []));
      Put(op);
    }

    /** An instruction of two bytes. */
    method PutTwo(op: int, arg: int, ghost st: State)
      requires Written(st) && ep < endbuf && lastep == ep
      modifies this`ep, buf
      ensures Holds(Add(st, Item(op, [arg], [])))
    {
      hide Flatten;
      Added(st, buf[..ep], Item(op, [arg], []));
      Put(op);
      Put(arg);
    }

    /** `defchar` */
    method DefChar(c: int, ghost st: State)
      requires Written(st) && ep < endbuf
      modifies this`ep, this`lastep, buf
      ensures Holds(Literal(st, c))
    {
      lastep := ep;
      PutTwo(CCHR, c, st);
    }

    /** Case `*`. */
    method Star(ghost st: State) returns (ghost st1: State)
      requires Holds(st) && ep < endbuf && sp > 0
      modifies this`ep, this`lastep, buf
      ensures Holds(st1)
      ensures st1 == if st.items == [] || Last(st.items).op == CBRA || Last(st.items).op == CKET
          then Literal(st, ASTERISK)
                     else st.(items := SetLast(st.items, Last(st.items).(op := WithStar(Last(st.items).op))))
    {
      hide Flatten;
      if st.items != [] { LastOpcode(st, WithStar(Last(st.items).op)); }
      if lastep == -1 || buf[lastep] == CBRA || buf[lastep] == CKET {
        DefChar(ASTERISK, st);
        return Literal(st, ASTERISK);
      }
      ghost var b := buf[..];
      buf[lastep] := WithStar(buf[lastep]);
      assert buf[..ep] == b[..ep][lastep := buf[lastep]];
      st1 := st.(items := SetLast(st.items, Last(st.items).(op := WithStar(Last(st.items).op))));
    }

    /** `\{` after an instruction. */
    method Range(ghost st: State) returns (code: int)
      requires Holds(st) && ep < endbuf && st.items != []
      modifies this`sp, this`ep, buf
      ensures var b := Bounds(instring, old(sp));
              var x := Last(st.items);
              && (b.BadInterval? ==> code == b.code)
              && (b.Interval? ==>
                    && code == 0 && sp == b.next
                    && Holds(st.(items := SetLast(st.items, Item(WithRange(x.op), x.arg, x.tail + [b.low, b.high])))))
    {
      hide Flatten, Bounds;
      ghost var x := Last(st.items);
      ghost var y := x.(op := WithRange(x.op));
      LastOpcode(st, y.op);
      ghost var b := buf[..];
      buf[lastep] := WithRange(buf[lastep]);
      assert buf[..ep] == b[..ep][lastep := buf[lastep]];
      code := ReadBounds();
      if code == 0 {
        ghost var r := Bounds(instring, old(sp));
        ghost var z := Item(y.op, x.arg, x.tail + [r.low, r.high]);
        FlattenLast(st.items, y);
        FlattenLast(st.items, z);
        assert Bytes(z) == Bytes(y) + [r.low, r.high];
      }
    }

    /** The state after one turn is what the specification says. */
    ghost predicate Agrees(t: Turned, m: Move, st: State)
      reads this, buf
    {
      match m
      case Fail(code) => t == Erred(code)
      case Done(delim, next) =>
        && t == Ended && sp == next && nodelim == delim
        && 0 <= ep <= buf.Length && buf[..ep] == Flatten(st.items) + [CCEOF] && nbra == st.nbra
      case Go(next, st1) => t == Continues && sp == next && Holds(st1) && !nodelim
    }

    /** `\\(` */
    method Open(ghost st: State) returns (t: Turned)
      requires Written(st) && ep < endbuf && lastep == ep
      modifies this`ep, this`bracket, this`nbra, buf
      ensures if st.nbra >= NBRA then t == Erred(43)
              else t == Continues
                   && Holds(Add(st, Item(CBRA, [st.nbra], [])).(open := st.open + [st.nbra], nbra := st.nbra + 1))
    {
      hide Flatten;
      if nbra >= NBRA {
        return Erred(43);
      }
      PutTwo(CBRA, nbra, st);
      bracket := bracket + [nbra];
      nbra := nbra + 1;
      return Continues;
    }

    /** `\\)` */
    method CloseGroup(ghost st: State) returns (t: Turned)
      requires Written(st) && ep < endbuf && lastep == ep
      modifies this`ep, this`bracket, this`closed, buf
      ensures if st.open == [] then t == Erred(42)
              else var n := |st.open| - 1;
                   && t == Continues
                   && Holds(Add(st, Item(CKET, [st.open[n]], [])).(open := st.open[..n], closed := st.closed + 1))
    {
      hide Flatten;
      if bracket == [] {
        return Erred(42);
      }
      PutTwo(CKET, bracket[|bracket| - 1], st);
      bracket := bracket[..|bracket| - 1];
      closed := closed + 1;
      return Continues;
    }

    /** After a backslash. */
    method Escaped(ghost st: State) returns (t: Turned)
      requires Written(st) && ep < endbuf && !nodelim && (if At(instring, sp) == LBRACE then Holds(st)
          else lastep == ep)
      modifies this, buf
      ensures Agrees(t, Escape(instring, old(sp), st), st) && circf == old(circf)
    {
      hide Flatten, Bounds, At, Bytes, Literal, Add, SetLast, Size;
      var c := GetC();
      if c == LPAREN {
        t := Open(st);
        return;
      } else if c == RPAREN {
        t := CloseGroup(st);
        return;
      } else if c == LBRACE {
        if lastep == -1 {
          DefChar(LBRACE, st);
        } else {
          var code := Range(st);
          return if code != 0 then Erred(code) else Continues;
        }
      } else if c == NEWLINE {
        return Erred(36);
      } else if c == SMALL_N {
        DefChar(NEWLINE, st);
      } else if ONE <= c && c <= NINE {
        if c - ONE >= closed {
          return Erred(25);
        }
        PutTwo(CBACK, c - ONE, st);
      } else {
        DefChar(c, st);
      }
      return Continues;
    }

    /** After a `[`. */
    method Bracketed(ghost st: State) returns (t: Turned)
      requires Written(st) && ep < endbuf && lastep == ep && IsPattern(instring) && sp > 0 && !nodelim
      requires At(instring, sp - 1) == LBRACKET && eof != LBRACKET
      modifies this`sp, this`ep, buf
      ensures Agrees(t, Next(instring, old(sp) - 1, st, eof, sed, endbuf), st)
    {
      hide Flatten, IsText, Members, ClassItem;
      var code := ReadClass();
      if code != 0 {
        return Erred(code);
      }
      ghost var neg := At(instring, old(sp)) == CARET;
      ghost var r := Members(instring, if neg then old(sp) + 1 else old(sp), 0, {}, false, old(ep) + 33 < endbuf);
      Added(st, old(buf[..ep]), ClassItem(neg, r.members, r.wide));
      return Continues;
    }

    /** One turn of the main loop. */
    method Turn(ghost st: State) returns (t: Turned)
      requires Holds(st) && IsPattern(instring) && !nodelim
      modifies this, buf
      ensures Agrees(t, Next(instring, old(sp), st, eof, sed, endbuf), st) && circf == old(circf)
    {
      hide Flatten, IsText, Escape, Members;
      if ep >= endbuf {
        return Erred(50);
      }
      var c := GetC();
      if c != ASTERISK && (c != BACKSLASH || At(instring, sp) != LBRACE) {
        lastep := ep;
      }
      if c == eof {
        Put(CCEOF);
        return if bracket != [] then Erred(42) else Ended;
      }
      if c == NEWLINE {
        if sed {
          return Erred(36);
        }
        sp := sp - 1;
        Put(CCEOF);
        nodelim := true;
        return if bracket != [] then Erred(42) else Ended;
      }
      t := Instruction(c, st);
    }

    lemma WrittenSize(st: State)
      requires Written(st)
      ensures Valid() && Size(st) == ep
    {
      hide Flatten;
    }

    /** The cases of the main loop that put an instruction into the buffer, or change the last one. */
    method Instruction(c: int, ghost st: State) returns (t: Turned)
      requires Written(st) && ep < endbuf && IsPattern(instring) && !nodelim && sp > 0
      requires c == At(instring, sp - 1) && c != eof && c != NEWLINE
      requires if c == ASTERISK || (c == BACKSLASH && At(instring, sp) == LBRACE) then Holds(st) else lastep == ep
      modifies this, buf
      ensures Agrees(t, Next(instring, old(sp) - 1, st, eof, sed, endbuf), st) && circf == old(circf)
    {
      hide Flatten, IsText, IsPattern, Escape, Members, ClassItem, Add, Literal, SetLast, Last, WithStar, Holds,
          Written,
           Size;
      WrittenSize(st);
      if c == DOT {
        PutOne(CDOT, st);
      } else if c == ASTERISK {
        ghost var st1 := Star(st);
      } else if c == DOLLAR && (At(instring, sp) == eof || At(instring, sp) == NEWLINE) {
        PutOne(CDOL, st);
      } else if c == LBRACKET {
        t := Bracketed(st);
        return;
      } else if c == BACKSLASH {
        t := Escaped(st);
        return;
      } else {
        DefChar(c, st);
      }
      return Continues;
    }

    /** The result and the buffer are what the specification says. */
    ghost predicate Gives(spec: Outcome, r: Result)
      reads this, buf
    {
      match spec
      case Error(code) => r == Failed(code)
      case Kept(delim) => r == Returned(0) && nodelim == delim
      case Compiled(anchored, items, groups, delim, next) =>
        && r == Returned(|Flatten(items)| + 1) && |Flatten(items)| + 1 <= buf.Length
        && buf[..|Flatten(items)| + 1] == Flatten(items) + [CCEOF]
        && circf == anchored && nbra == groups && nodelim == delim && sp == next
    }

    /** The main loop. */
    method Loop() returns (r: Result)
      requires Holds(START) && !nodelim && IsPattern(instring)
      modifies this, buf
      ensures var spec := Parse(instring, old(sp), START, old(circf), eof, sed, endbuf); !spec.Kept? && Gives(spec, r)
    {
      hide IsText, Next, Flatten, At;
      ghost var st := START;
      ghost var begin, anchored := sp, circf;
      while true
        invariant Holds(st) && circf == anchored && !nodelim
        invariant Parse(instring, sp, st, anchored, eof, sed, endbuf)
            == Parse(instring, begin, START, anchored, eof, sed, endbuf)
        decreases if sp < |instring| then |instring| - sp else 0, endbuf - Size(st)
      {
        NextProgress(instring, sp, st, eof, sed, endbuf);
        ghost var m := Next(instring, sp, st, eof, sed, endbuf);
        var t := Turn(st);
        if t.Erred? {
          return Failed(t.code);
        }
        if t == Ended {
          return Returned(ep);
        }
        st := m.st;
      }
    }

    /** compile: the buffer afterwards holds the instructions the pattern stands for, or the error is the
        one the specification gives. */
    method Compile() returns (r: Result)
      requires 0 <= endbuf < buf.Length && sp == 0 && ep == 0 && !nodelim && IsPattern(instring)
      modifies this, buf
      ensures var spec := EdParse.Compile(instring, eof, sed, endbuf, old(buf[0]) == 0);
              Gives(spec, r) && (spec.Kept? ==> buf[..] == old(buf[..]))
    {
      hide IsText, Next, Flatten, At, Parse;
      var c := GetC();
      if c == eof || c == NEWLINE {
        if c == NEWLINE {
          sp := sp - 1;
          nodelim := true;
        }
        if buf[ep] == 0 && !sed {
          return Failed(41);
        }
        return Returned(ep);
      }
      lastep, bracket, circf, closed, nbra := -1, [], false, 0, 0;
      if c == CARET {
        circf := true;
      } else {
        sp := sp - 1;
      }
      NoItems();
      r := Loop();
    }
  }
}
