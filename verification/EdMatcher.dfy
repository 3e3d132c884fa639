/** `advance` and `step` of head_m88k/regexp.h: the program is read byte by byte, the text character by
    character, and a repetition calls `advance` again for what comes after it. */
module EdMatcher {
  import opened Wrappers
  import opened EdProgram

  /** The bytes from `e` on are these instructions and the end of the program. */
  ghost predicate CodeAt(code: seq<int>, e: int, items: seq<Item>) {
    var n := |Flatten(items)|;
    0 <= e && e + n < |code| && code[e..e + n] == Flatten(items) && code[e + n] == CCEOF
  }

  ghost predicate Runnable(code: seq<int>, e: int, items: seq<Item>) {
    CodeAt(code, e, items) && Meaningful(items) && Safe(Pieces(items))
  }

  /** The operand and the interval in the bytes of one instruction. */
  lemma BytesAt(code: seq<int>, e: int, x: Item)
    requires 0 <= e && e + |Bytes(x)| <= |code| && code[e..e + |Bytes(x)|] == Bytes(x)
    ensures code[e] == x.op
    ensures code[e + 1..e + 1 + |x.arg|] == x.arg
    ensures code[e + 1 + |x.arg|..e + |Bytes(x)|] == x.tail
    ensures |Bytes(x)| == 1 + |x.arg| + |x.tail|
  {
    assert Bytes(x) == [x.op] + (x.arg + x.tail);
    SplitAt(code, e, [x.op], x.arg + x.tail);
    SplitAt(code, e + 1, x.arg, x.tail);
  }

  lemma CodeRest(code: seq<int>, e: int, items: seq<Item>)
    requires CodeAt(code, e, items) && items != []
    ensures 0 <= e && e + |Bytes(items[0])| < |code| && code[e..e + |Bytes(items[0])|] == Bytes(items[0])
    ensures CodeAt(code, e + |Bytes(items[0])|, items[1..])
  {
    hide Bytes;
    SplitAt(code, e, Bytes(items[0]), Flatten(items[1..]));
  }

  /** The first instruction, operand and interval in the bytes, and the rest after them. */
  lemma FirstInstruction(code: seq<int>, e: int, items: seq<Item>)
    requires Runnable(code, e, items) && items != []
    ensures var x := items[0];
            && e + |Bytes(x)| < |code| && code[e] == x.op
            && code[e + 1..e + 1 + |x.arg|] == x.arg
            && code[e + 1 + |x.arg|..e + |Bytes(x)|] == x.tail
            && Runnable(code, e + |Bytes(x)|, items[1..])
    ensures Pieces(items)[0] == Meaning(items[0]).value && Pieces(items)[1..] == Pieces(items[1..])
    ensures StopsAtNul(Pieces(items)[0])
  {
    hide Flatten, Bytes, Meaning, StopsAtNul, CodeAt, Pieces, Meaningful, Safe;
    CodeRest(code, e, items);
    BytesAt(code, e, items[0]);
    PiecesRest(items);
  }

  lemma SplitAt(code: seq<int>, e: int, x: seq<int>, y: seq<int>)
    requires 0 <= e && e + |x| + |y| <= |code|
    ensures code[e..e + |x| + |y|] == x + y <==> code[e..e + |x|] == x && code[e + |x|..e + |x| + |y|] == y
    ensures x != [] && code[e..e + |x|] == x ==> code[e] == x[0]
  {
    var c := code[e..e + |x| + |y|];
    assert code[e..e + |x|] == c[..|x|] && code[e + |x|..e + |x| + |y|] == c[|x|..];
    assert c == c[..|x|] + c[|x|..];
    if x != [] && code[e..e + |x|] == x { assert code[e] == code[e..e + |x|][0]; }
  }

  lemma PiecesRest(items: seq<Item>)
    requires Meaningful(items) && Safe(Pieces(items)) && items != []
    ensures Pieces(items)[0] == Meaning(items[0]).value && Pieces(items)[1..] == Pieces(items[1..])
    ensures StopsAtNul(Pieces(items)[0]) && Meaningful(items[1..]) && Safe(Pieces(items[1..]))
  {
    var ps, rest := Pieces(items), items[1..];
    assert StopsAtNul(ps[0]);
    assert ps[1..] == Pieces(rest);
    forall i | 0 <= i < |rest| ensures StopsAtNul(Pieces(rest)[i]) {
      assert Pieces(rest)[i] == ps[i + 1];
    }
  }

  lemma EndOfProgram(code: seq<int>, e: int, items: seq<Item>)
    requires Runnable(code, e, items)
    ensures 0 <= e < |code| && (code[e] == CCEOF <==> items == [])
  {
    if items != [] { FirstInstruction(code, e, items); }
  }

  /** A run of fitting characters ends before the NUL. */
  lemma {:induction false} RunStops(s: Single, t: seq<int>, i: int, n: int)
    requires IsText(t) && !Fits(s, 0) && 0 <= i < |t| && n >= 0
    ensures i + RunLength(s, t, i, n) < |t|
    decreases n
  {
    if n > 0 && Fits(s, t[i]) { RunStops(s, t, i + 1, n - 1); }
  }

  function Width(base: int): int {
    if base == CCHR then 1 else if base == CDOT then 0 else if base == CXCL then 32 else 16
  }

  /** What the first instruction means, opcode by opcode, and how many bytes it takes. */
  lemma Decoded(items: seq<Item>)
    requires items != [] && Meaningful(items) && Safe(Pieces(items))
    ensures Pieces(items) != []
    ensures var x, p := items[0], Pieces(items)[0];
            var s := SingleOf(x.op - x.op % 4, x.arg);
            && (x.op == CDOL ==> p == End && |x.arg| == 0 && |x.tail| == 0)
            && (x.op == CBRA || x.op == CKET || x.op == CBACK ==>
                  && |x.arg| == 1 && 0 <= x.arg[0] < NGROUPS && |x.tail| == 0
                  && p == if x.op == CBRA then Enter(x.arg[0]) else if x.op == CKET then Leave(x.arg[0])
                          else Again(x.arg[0]))
            && (x.op != CDOL && x.op != CBRA && x.op != CKET && x.op != CBACK ==>
                  && s.Some? && |x.arg| == Width(x.op - x.op % 4) && !Fits(s.value, 0)
                  && (x.op % 4 == 0 ==> p == Once(s.value) && |x.tail| == 0)
                  && (x.op % 4 == STAR ==> p == Any(s.value) && |x.tail| == 0)
                  && (x.op % 4 != 0 && x.op % 4 != STAR ==>
                        |x.tail| == 2 && 0 <= x.tail[0] <= x.tail[1] < 256
                            && p == Times(s.value, x.tail[0], x.tail[1])))
  {
    hide Fits;
    assert StopsAtNul(Pieces(items)[0]) && Meaning(items[0]).Some?;
  }

  /** One step of the specification. */
  lemma GreedyStep(ps: seq<Piece>, t: seq<int>, x: Place)
    requires ps != [] && 0 <= x.at < |t|
    ensures ps[0].Once? ==>
              Greedy(ps, t, x) == if Fits(ps[0].s, t[x.at]) then Greedy(ps[1..], t, x.Ahead(1)) else None
    ensures ps[0].Any? ==>
              Greedy(ps, t, x) == GiveBack(ps, t, x.groups, x.at, x.at + RunLength(ps[0].s, t, x.at, |t| - x.at))
    ensures ps[0].Times? && 0 <= ps[0].low <= Upper(ps[0].low, ps[0].high) ==>
              var s, low, lo := ps[0].s, ps[0].low, x.at + ps[0].low;
              Greedy(ps, t, x) ==
                if RunLength(s, t, x.at, low) < low then None
                else GiveBack(ps, t, x.groups, lo, lo + RunLength(s, t, lo, Upper(low, ps[0].high) - low))
    ensures ps[0].End? ==> Greedy(ps, t, x) == if t[x.at] == 0 then Greedy(ps[1..], t, x) else None
    ensures ps[0].Enter? ==> Greedy(ps, t, x) == Greedy(ps[1..], t, x.Entered(ps[0].n))
    ensures ps[0].Leave? ==> Greedy(ps, t, x) == Greedy(ps[1..], t, x.Left(ps[0].n))
    ensures ps[0].Again? ==>
              Greedy(ps, t, x) ==
                if Repeats(t, x, ps[0].n) then Greedy(ps[1..], t, x.Ahead(GroupLength(x.groups, ps[0].n))) else None
  {
    hide Fits, GiveBack, RunLength;
  }

  lemma GreedyEnd(ps: seq<Piece>, t: seq<int>, x: Place)
    requires ps == [] && 0 <= x.at < |t|
    ensures Greedy(ps, t, x) == Some(x)
  {
  }

  // --- the groups on the way ---

  /** The groups entered and left so far lie before `l`. */
  ghost predicate Bounded(g: Groups, open: set<int>, done: set<int>, l: int) {
    && |g.starts| == |g.ends| == NGROUPS
    && (forall n :: n in open ==> 0 <= n < NGROUPS && 0 <= g.starts[n] <= l)
    && (forall n :: n in done ==> 0 <= n < NGROUPS && 0 <= g.starts[n] <= g.ends[n] <= l)
  }

  /** What a search that failed has written does no harm. */
  lemma BoundedSame(ps: seq<Piece>, g: Groups, h: Groups, open: set<int>, done: set<int>, l: int, m: int)
    requires Scoped(ps, open, done) && SameBut(g, h, ps) && Bounded(g, open, done, l) && l <= m
    ensures Bounded(h, open, done, m)
  {
    hide Scoped, Enters, Leaves;
    forall n | n in open + done ensures !Enters(ps, n) && (n in done ==> !Leaves(ps, n)) {
      NotWritten(ps, open, done, n);
    }
  }

  lemma BoundedLater(g: Groups, open: set<int>, done: set<int>, l: int, m: int)
    requires Bounded(g, open, done, l) && l <= m
    ensures Bounded(g, open, done, m)
  {
  }

  ghost predicate Within(qs: seq<Piece>, ps: seq<Piece>) {
    forall n :: (Enters(qs, n) ==> Enters(ps, n)) && (Leaves(qs, n) ==> Leaves(ps, n))
  }

  lemma WithinRest(qs: seq<Piece>, ps: seq<Piece>)
    requires qs != [] && Within(qs, ps)
    ensures Within(qs[1..], ps)
  {
    hide Enters, Leaves;
    forall n ensures (Enters(qs[1..], n) ==> Enters(ps, n)) && (Leaves(qs[1..], n) ==> Leaves(ps, n)) {
      WritesRest(qs, n);
    }
  }

  lemma SameCompose(g: Groups, h: Groups, k: Groups, ps: seq<Piece>, qs: seq<Piece>)
    requires SameBut(g, h, ps) && SameBut(h, k, qs) && Within(qs, ps)
    ensures SameBut(g, k, ps)
  {
    hide Enters, Leaves;
  }

  lemma SameWiden(g: Groups, h: Groups, ps: seq<Piece>)
    requires ps != [] && SameBut(g, h, ps[1..])
    ensures SameBut(g, h, ps)
  {
    hide Enters, Leaves;
    forall n ensures (Enters(ps[1..], n) ==> Enters(ps, n)) && (Leaves(ps[1..], n) ==> Leaves(ps, n)) {
      WritesRest(ps, n);
    }
  }

  /** Entering or leaving a group, as the first of `qs` does. */
  lemma Written(qs: seq<Piece>, ps: seq<Piece>, g0: Groups, x: Place, open: set<int>, done: set<int>)
    requires qs != [] && Scoped(qs, open, done) && Bounded(x.groups, open, done, x.at) && 0 <= x.at
    requires SameBut(g0, x.groups, ps) && Within(qs, ps)
    ensures qs[0].Enter? ==>
              var n, g := qs[0].n, x.Entered(qs[0].n).groups;
              && 0 <= n < NGROUPS && Scoped(qs[1..], open + {n}, done) && Bounded(g, open + {n}, done, x.at)
              && SameBut(g0, g, ps)
    ensures qs[0].Leave? ==>
              var n, g := qs[0].n, x.Left(qs[0].n).groups;
              && 0 <= n < NGROUPS && Scoped(qs[1..], open - {n}, done + {n})
              && Bounded(g, open - {n}, done + {n}, x.at) && SameBut(g0, g, ps)
  {
    if qs[0].Enter? {
      assert Enters(qs, qs[0].n);
    } else if qs[0].Leave? {
      assert Leaves(qs, qs[0].n);
    }
    hide Enters, Leaves;
  }

  lemma ScopedRest(qs: seq<Piece>, open: set<int>, done: set<int>)
    requires qs != [] && Scoped(qs, open, done)
    ensures !qs[0].Enter? && !qs[0].Leave? ==> Scoped(qs[1..], open, done)
    ensures qs[0].Again? ==> qs[0].n in done
  {
  }

  /** A text of the length of the group that is not at the end of the text. */
  lemma RepeatsIn(t: seq<int>, x: Place, n: int, open: set<int>, done: set<int>)
    requires IsText(t) && 0 <= x.at < |t| && Bounded(x.groups, open, done, x.at) && n in done
    ensures Known(t, x.groups, n) && x.groups.ends[n] <= x.at
    ensures Repeats(t, x, n) ==> 0 <= GroupLength(x.groups, n) && x.at + GroupLength(x.groups, n) < |t|
  {
    var b, m := x.groups.starts[n], GroupLength(x.groups, n);
    if Repeats(t, x, n) && m > 0 {
      assert t[x.at..x.at + m][m - 1] == t[b..b + m][m - 1];
      assert t[x.at + m - 1] == t[b + m - 1];
    }
  }

  /** braslist and braelist before the first match. */
  const BLANK: Groups := Groups(seq(NGROUPS, _ => 0), seq(NGROUPS, _ => 0))

  class Matcher {
    const text: seq<int>
    const code: seq<int>
    const braslist: array<int>
    const braelist: array<int>
    var loc1: int
    var loc2: int

    constructor (text: seq<int>, code: seq<int>)
      ensures this.text == text && this.code == code && Ready() && fresh(braslist) && fresh(braelist)
      ensures Env() == BLANK
    {
      this.text, this.code := text, code;
      braslist, braelist := new int[NGROUPS](_ => 0), new int[NGROUPS](_ => 0);
      loc1, loc2 := 0, 0;
    }

    predicate Ready() { braslist.Length == braelist.Length == NGROUPS && braslist != braelist }

    /** The test of one character, as the cases of `advance` spell it. */
    method Test(base: int, e: int, c: int, ghost s: Single) returns (b: bool)
      requires 0 <= e && e + Width(base) <= |code| && 0 <= c < 256
      requires SingleOf(base, code[e..e + Width(base)]) == Some(s)
      ensures b <==> Fits(s, c)
    {
      if base == CCHR {
        b := c == code[e];
      } else if base == CDOT {
        b := c != 0;
      } else {
        var there := c / 8 < Width(base) && HasBit(code[e + c / 8], c % 8);
        if base == CXCL {
          b := there;
        } else {
          var neg := base == NCCL;
          b := (c < 128 && there) != neg;
        }
      }
    }

    ghost function Env(): Groups
      reads braslist, braelist
    {
      Groups(braslist[..], braelist[..])
    }

    /** `ecmp(text + b, text + l, count)` */
    method Ecmp(b: int, l: int, count: int) returns (same: bool)
      requires IsText(text) && 0 <= b && 0 <= count && b + count <= l < |text|
      ensures same <==> l + count <= |text| && text[l..l + count] == text[b..b + count]
    {
      var k := 0;
      while k < count
        invariant 0 <= k <= count && l + k < |text| && text[l..l + k] == text[b..b + k]
      {
        if text[l + k] != text[b + k] {
          assert l + count <= |text| ==> text[l..l + count][k] != text[b..b + count][k];
          return false;
        }
        assert text[l..l + k + 1] == text[l..l + k] + [text[l + k]];
        assert text[b..b + k + 1] == text[b..b + k] + [text[b + k]];
        k := k + 1;
      }
      return true;
    }

    /** Case CBRA. */
    method SetStart(n: int, l: int)
      requires Ready() && 0 <= n < NGROUPS
      modifies braslist
      ensures Env() == Place(l, old(Env())).Entered(n).groups
    {
      braslist[n] := l;
    }

    /** Case CKET. */
    method SetEnd(n: int, l: int)
      requires Ready() && 0 <= n < NGROUPS
      modifies braelist
      ensures Env() == Place(l, old(Env())).Left(n).groups
    {
      braelist[n] := l;
    }

    /** Case CBACK: does the text of the group stand at `l`, and how long is it? */
    method SameText(n: int, l: int, ghost open: set<int>, ghost done: set<int>) returns (same: bool, ct: int)
      requires Ready() && IsText(text) && 0 <= l < |text| && Bounded(Env(), open, done, l) && n in done
      ensures same <==> Repeats(text, Place(l, Env()), n)
      ensures ct == GroupLength(Env(), n) >= 0 && (same ==> l + ct < |text|)
    {
      RepeatsIn(text, Place(l, Env()), n, open, done);
      var bbeg := braslist[n];
      ct := braelist[n] - bbeg;
      same := Ecmp(bbeg, l, ct);
    }

    /** The tail of every repetition: from one past the last character taken, back to `curlp`. */
    method GiveBackFrom(curlp: int, end: int, ep: int, ghost items: seq<Item>, ghost open: set<int>,
        ghost done: set<int>)
      returns (r: bool)
      requires Ready() && IsText(text) && items != [] && Runnable(code, ep, items[1..])
      requires Meaningful(items) && Pieces(items)[1..] == Pieces(items[1..])
      requires Scoped(Pieces(items[1..]), open, done) && Bounded(Env(), open, done, curlp)
      requires 0 <= curlp < end <= |text|
      modifies this`loc2, braslist, braelist
      ensures var g := GiveBack(Pieces(items), text, old(Env()), curlp, end - 1);
              r == g.Some? && (r ==> g.value == Place(loc2, Env()))
      ensures SameBut(old(Env()), Env(), Pieces(items[1..]))
      decreases |items|, 0
    {
      hide Greedy, Pieces, Scoped, SameBut, IsText, Bounded, Meaning, Safe;
      ghost var g0, rest := Env(), Pieces(items[1..]);
      var lp := end;
      Unwritten(g0, rest);
      while true
        invariant curlp < lp <= end && SameBut(g0, Env(), rest)
        invariant GiveBack(Pieces(items), text, g0, curlp, lp - 1) == GiveBack(Pieces(items), text, g0, curlp, end - 1)
        decreases lp
      {
        lp := lp - 1;
        ghost var g1 := Env();
        BoundedSame(rest, g0, g1, open, done, curlp, lp);
        GreedySame(rest, text, Place(lp, g0), Place(lp, g1), open, done);
        r := Advance(lp, ep, items[1..], open, done);
        WithinSelf(rest);
        SameCompose(g0, g1, Env(), rest, rest);
        if r || lp == curlp {
          return;
        }
      }
    }

    /** The characters from `lp` on that fit, `most` at most; one past the character that ended the run. */
    method TakeRun(base: int, e: int, lp: int, most: int, ghost s: Single) returns (end: int)
      requires IsText(text) && 0 <= lp < |text| && 0 <= most
      requires 0 <= e && e + Width(base) <= |code| && SingleOf(base, code[e..e + Width(base)]) == Some(s)
      requires !Fits(s, 0)
      ensures end == lp + RunLength(s, text, lp, most) + 1 <= |text|
    {
      RunStops(s, text, lp, most);
      var l, size := lp, most;
      while size != 0
        invariant 0 <= size && lp <= l < |text| && l + size == lp + most
        invariant l + RunLength(s, text, l, size) == lp + RunLength(s, text, lp, most)
        decreases size
      {
        size := size - 1;
        var fits := Test(base, e, text[l], s);
        l := l + 1;
        if !fits {
          return l;
        }
      }
      return l + 1;
    }

    /** advance: does the program from `ep` on match at `lp`?  If so `loc2` is the end, and the groups are
        those of the match. */
    method Advance(lp: int, ep: int, ghost items: seq<Item>, ghost open: set<int>, ghost done: set<int>)
      returns (r: bool)
      requires Ready() && IsText(text) && 0 <= lp < |text| && Runnable(code, ep, items)
      requires Scoped(Pieces(items), open, done) && Bounded(Env(), open, done, lp)
      modifies this`loc2, braslist, braelist
      ensures var g := Greedy(Pieces(items), text, Place(lp, old(Env())));
              r == g.Some? && (r ==> g.value == Place(loc2, Env()))
      ensures SameBut(old(Env()), Env(), Pieces(items))
      decreases |items|, 2
    {
      hide Meaning, SingleOf, Fits, Flatten, CodeAt, Bytes, Safe, Meaningful, StopsAtNul, Width, Greedy, GiveBack,
          RunLength, Scoped, SameBut, Bounded, Within, Repeats, IsText, GroupLength;
      var l, e := lp, ep;
      ghost var its, o, d, g0, ps := items, open, done, Env(), Pieces(items);
      Unwritten(g0, ps);
      WithinSelf(ps);
      while true
        invariant 0 <= l < |text| && Runnable(code, e, its) && |its| <= |items|
        invariant Scoped(Pieces(its), o, d) && Bounded(Env(), o, d, l)
        invariant SameBut(g0, Env(), ps) && Within(Pieces(its), ps)
        invariant Greedy(Pieces(its), text, Place(l, Env())) == Greedy(ps, text, Place(lp, g0))
        decreases |its|
      {
        EndOfProgram(code, e, its);
        ghost var x, qs := Place(l, Env()), Pieces(its);
        var op := code[e];
        if op == CCEOF {
          GreedyEnd(qs, text, x);
          loc2 := l;
          return true;
        }
        FirstInstruction(code, e, its);
        Decoded(its);
        GreedyStep(qs, text, x);
        ScopedRest(qs, o, d);
        WithinRest(qs, ps);
        e := e + 1;
        if op == CDOL {
          if text[l] != 0 {
            return false;
          }
        } else if op == CBRA {
          Written(qs, ps, g0, x, o, d);
          assert code[e] == code[e..e + 1][0] == qs[0].n;
          SetStart(code[e], l);
          o := o + {qs[0].n};
          e := e + 1;
        } else if op == CKET {
          Written(qs, ps, g0, x, o, d);
          assert code[e] == code[e..e + 1][0] == qs[0].n;
          SetEnd(code[e], l);
          o, d := o - {qs[0].n}, d + {qs[0].n};
          e := e + 1;
        } else if op == CBACK {
          assert code[e] == code[e..e + 1][0] == qs[0].n;
          var same, ct := SameText(code[e], l, o, d);
          if !same {
            return false;
          }
          BoundedLater(Env(), o, d, l, l + ct);
          l, e := l + ct, e + 1;
        } else {
          var base := op - op % 4;
          ghost var s := SingleOf(base, its[0].arg).value;
          if op % 4 == 0 {
            TextAt(text, l);
            var fits := Test(base, e, text[l], s);
            if !fits {
              return false;
            }
            BoundedLater(Env(), o, d, l, l + 1);
            NotLast(text, l, s);
            l, e := l + 1, e + Width(base);
          } else {
            r := Repeat(op, base, l, e, s, its, o, d);
            SameCompose(g0, x.groups, Env(), ps, qs);
            return;
          }
        }
        its := its[1..];
      }
    }

    /** The cases with STAR or RNGE bits. */
    method Repeat(op: int, base: int, lp: int, e: int, ghost s: Single, ghost items: seq<Item>,
        ghost open: set<int>, ghost done: set<int>)
      returns (r: bool)
      requires Ready() && IsText(text) && 0 <= lp < |text| && items != [] && Meaningful(items) && Safe(Pieces(items))
      requires base == op - op % 4 && items[0].op == op && SingleOf(base, items[0].arg) == Some(s) && !Fits(s, 0)
      requires op % 4 != 0 && op != CBRA
      requires Scoped(Pieces(items), open, done) && Bounded(Env(), open, done, lp)
      requires 0 <= e && e + Width(base) + |items[0].tail| <= |code|
      requires code[e..e + Width(base)] == items[0].arg
      requires code[e + Width(base)..e + Width(base) + |items[0].tail|] == items[0].tail
      requires Runnable(code, e + Width(base) + |items[0].tail|, items[1..]) && Pieces(items)[1..] == Pieces(items[1..])
      modifies this`loc2, braslist, braelist
      ensures var g := Greedy(Pieces(items), text, Place(lp, old(Env())));
              r == g.Some? && (r ==> g.value == Place(loc2, Env()))
      ensures SameBut(old(Env()), Env(), Pieces(items))
      decreases |items|, 1
    {
      hide Meaning, SingleOf, Fits, Flatten, CodeAt, Bytes, Safe, Meaningful, StopsAtNul, Width, Greedy, GiveBack,
          RunLength, Pieces, Scoped, SameBut, Bounded, Runnable;
      Decoded(items);
      ghost var g0 := Env();
      GreedyStep(Pieces(items), text, Place(lp, g0));
      ScopedRest(Pieces(items), open, done);
      Unwritten(g0, Pieces(items));
      if op % 4 == STAR {
        var end := TakeRun(base, e, lp, |text| - lp, s);
        r := GiveBackFrom(lp, end, e + Width(base), items, open, done);
        SameWiden(g0, Env(), Pieces(items));
      } else {
        assert items[0].tail == code[e + Width(base)..e + Width(base) + 2];
        var low := code[e + Width(base)];
        var top := code[e + Width(base) + 1];
        var size := if top == 255 then 20000 else top - low;
        var curlp := TakeRun(base, e, lp, low, s);
        curlp := curlp - 1;
        if curlp - lp < low {
          return false;
        }
        var end := TakeRun(base, e, curlp, size, s);
        BoundedLater(g0, open, done, lp, curlp);
        r := GiveBackFrom(curlp, end, e + Width(base) + 2, items, open, done);
        SameWiden(g0, Env(), Pieces(items));
      }
    }

    /** The loop of step for a pattern that begins with the character `c`. */
    method StepFast(c: int, ghost items: seq<Item>) returns (r: bool)
      requires Ready() && IsText(text) && Runnable(code, 0, items) && Scoped(Pieces(items), {}, {})
      requires Pieces(items) != [] && Pieces(items)[0] == Once(Chr(c))
      modifies this`loc1, this`loc2, braslist, braelist
      ensures IsLeast(Pieces(items), text, |text|, r, loc1, loc2, old(Env()), Env())
    {
      hide Greedy, Pieces, IsText, SameBut, Scoped;
      TextEnds(text);
      ghost var g0 := Env();
      Unwritten(g0, Pieces(items));
      var p1 := 0;
      while true
        invariant 0 <= p1 < |text| && forall i :: 0 <= i < p1 ==> Greedy(Pieces(items), text, Place(i, g0)).None?
        invariant SameBut(g0, Env(), Pieces(items))
        decreases |text| - p1
      {
        if text[p1] == c {
          r := TryAt(p1, g0, items);
          if r {
            loc1 := p1;
            return;
          }
        } else {
          OtherCharacter(Pieces(items), text, Place(p1, g0), c);
        }
        p1 := p1 + 1;
        if text[p1 - 1] == 0 {
          assert p1 == |text|;
          return false;
        }
      }
    }

    /** The loop of step for any other pattern. */
    method StepPlain(ghost items: seq<Item>) returns (r: bool)
      requires Ready() && IsText(text) && Runnable(code, 0, items) && Scoped(Pieces(items), {}, {})
      modifies this`loc1, this`loc2, braslist, braelist
      ensures IsLeast(Pieces(items), text, |text|, r, loc1, loc2, old(Env()), Env())
    {
      hide Greedy, Pieces, IsText, SameBut, Scoped;
      TextEnds(text);
      ghost var g0 := Env();
      Unwritten(g0, Pieces(items));
      var p1 := 0;
      while true
        invariant 0 <= p1 < |text| && forall i :: 0 <= i < p1 ==> Greedy(Pieces(items), text, Place(i, g0)).None?
        invariant SameBut(g0, Env(), Pieces(items))
        decreases |text| - p1
      {
        r := TryAt(p1, g0, items);
        if r {
          loc1 := p1;
          return;
        }
        p1 := p1 + 1;
        if text[p1 - 1] == 0 {
          assert p1 == |text|;
          return false;
        }
      }
    }

    /** `advance` from the start of the program; what earlier tries left in the groups does not matter. */
    method TryAt(p1: int, ghost g0: Groups, ghost items: seq<Item>) returns (r: bool)
      requires Ready() && IsText(text) && Runnable(code, 0, items) && Scoped(Pieces(items), {}, {})
      requires 0 <= p1 < |text| && SameBut(g0, Env(), Pieces(items))
      modifies this`loc2, braslist, braelist
      ensures var g := Greedy(Pieces(items), text, Place(p1, g0));
              r == g.Some? && (r ==> g.value == Place(loc2, Env()))
      ensures SameBut(g0, Env(), Pieces(items))
    {
      hide Greedy, Pieces, IsText, SameBut, Scoped, Within;
      ghost var g1, ps := Env(), Pieces(items);
      GreedySame(ps, text, Place(p1, g0), Place(p1, g1), {}, {});
      r := Advance(p1, 0, items, {}, {});
      WithinSelf(ps);
      SameCompose(g0, g1, Env(), ps, ps);
    }

    /** step: the least start at which `advance` succeeds, with the test of the first character first. */
    method Step(circf: bool, ghost items: seq<Item>) returns (r: bool)
      requires Ready() && IsText(text) && Runnable(code, 0, items) && Scoped(Pieces(items), {}, {})
      modifies this`loc1, this`loc2, braslist, braelist
      ensures IsLeast(Pieces(items), text, if circf then 1 else |text|, r, loc1, loc2, old(Env()), Env())
    {
      hide Greedy, Pieces, Scoped, IsText, SameBut;
      TextEnds(text);
      if circf {
        loc1 := 0;
        r := Advance(0, 0, items, {}, {});
        return;
      }
      EndOfProgram(code, 0, items);
      if code[0] == CCHR {
        FirstCharacter(code, items);
        r := StepFast(code[1], items);
      } else {
        r := StepPlain(items);
      }
    }
  }

  lemma FirstCharacter(code: seq<int>, items: seq<Item>)
    requires Runnable(code, 0, items) && code[0] == CCHR
    ensures |code| > 1 && Pieces(items) != [] && Pieces(items)[0] == Once(Chr(code[1]))
  {
    EndOfProgram(code, 0, items);
    FirstInstruction(code, 0, items);
    Decoded(items);
    assert code[1] == code[1..2][0];
  }

  lemma Unwritten(g: Groups, ps: seq<Piece>)
    requires |g.starts| == |g.ends| == NGROUPS
    ensures SameBut(g, g, ps)
  {
  }

  lemma WithinSelf(ps: seq<Piece>)
    ensures Within(ps, ps)
  {
  }

  lemma TextAt(t: seq<int>, l: int)
    requires IsText(t) && 0 <= l < |t|
    ensures 0 <= t[l] < 256
  {
  }

  lemma NotLast(t: seq<int>, l: int, s: Single)
    requires IsText(t) && 0 <= l < |t| && Fits(s, t[l]) && !Fits(s, 0)
    ensures l + 1 < |t|
  {
  }

  lemma TextEnds(t: seq<int>)
    requires IsText(t)
    ensures |t| > 0 && forall i :: 0 <= i < |t| ==> (t[i] == 0 <==> i == |t| - 1)
  {
  }

  /** Of the starts before `n`, `loc1` is the least at which the search succeeds, and `loc2` and `after`
      are the end and the groups it finds there; or it succeeds at none of them. */
  ghost predicate IsLeast(ps: seq<Piece>, t: seq<int>, n: int, found: bool, loc1: int, loc2: int,
      before: Groups, after: Groups)
    requires n <= |t|
  {
    if found then
      && 0 <= loc1 < n && Greedy(ps, t, Place(loc1, before)) == Some(Place(loc2, after))
      && forall i :: 0 <= i < loc1 ==> Greedy(ps, t, Place(i, before)).None?
    else
      forall i :: 0 <= i < n ==> Greedy(ps, t, Place(i, before)).None?
  }

  /** A pattern that begins with a character fails where another one stands. */
  lemma OtherCharacter(ps: seq<Piece>, t: seq<int>, x: Place, c: int)
    requires ps != [] && ps[0] == Once(Chr(c)) && 0 <= x.at < |t| && t[x.at] != c
    ensures Greedy(ps, t, x).None?
  {
  }
}
