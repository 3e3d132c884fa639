/** How `compile` of head_m88k/regexp.h reads a pattern: which instructions it makes of it, which
    characters a bracketed class stands for, and which error it reports. */
module EdParse {
  import opened Wrappers
  import opened EdProgram

  const NEWLINE: int := 10
  const DOLLAR: int := 36
  const LPAREN: int := 40
  const RPAREN: int := 41
  const ASTERISK: int := 42
  const COMMA: int := 44
  const MINUS: int := 45
  const DOT: int := 46
  const ZERO: int := 48
  const ONE: int := 49
  const NINE: int := 57
  const LBRACKET: int := 91
  const BACKSLASH: int := 92
  const RBRACKET: int := 93
  const CARET: int := 94
  const SMALL_N: int := 110
  const LBRACE: int := 123
  const RBRACE: int := 125

  const NBRA: int := 9

  /** A pattern is a C string: past its end there is nothing but NULs. */
  function At(pat: seq<int>, i: int): int {
    if 0 <= i < |pat| then pat[i] else 0
  }

  // --- bitmaps ---

  function BitIf(s: set<int>, c: int): int { if c in s then 1 else 0 }

  function ByteOf(s: set<int>, k: int): int {
    BitIf(s, 8 * k) + 2 * BitIf(s, 8 * k + 1) + 4 * BitIf(s, 8 * k + 2) + 8 * BitIf(s, 8 * k + 3)
    + 16 * (BitIf(s, 8 * k + 4) + 2 * BitIf(s, 8 * k + 5) + 4 * BitIf(s, 8 * k + 6) + 8 * BitIf(s, 8 * k + 7))
  }

  /** The characters of `s` as a bitmap of `n` bytes. */
  function Bitmap(s: set<int>, n: nat): (b: seq<int>)
    ensures |b| == n
  {
    seq(n, k => ByteOf(s, k))
  }

  function Bit(j: int): int {
    match j
    case 0 => 1
    case 1 => 2
    case 2 => 4
    case 3 => 8
    case 4 => 16
    case 5 => 32
    case 6 => 64
    case _ => 128
  }

  /** `b |= bittab[j]` */
  function OrBit(b: int, j: int): int {
    if HasBit(b, j) then b else b + Bit(j)
  }

  lemma Half(d: int, h: int)
    requires 0 <= d <= 1
    ensures (d + 2 * h) % 2 == d && (d + 2 * h) / 2 == h
  {
  }

  lemma Halves(b: int)
    ensures b / 4 == b / 2 / 2 && b / 8 == b / 2 / 2 / 2 && b / 16 == b / 2 / 2 / 2 / 2
  {
  }

  lemma LowBits(b0: int, b1: int, b2: int, b3: int, h: int)
    requires 0 <= b0 <= 1 && 0 <= b1 <= 1 && 0 <= b2 <= 1 && 0 <= b3 <= 1
    ensures var b := b0 + 2 * b1 + 4 * b2 + 8 * b3 + 16 * h;
            && b % 2 == b0 && b / 2 % 2 == b1 && b / 4 % 2 == b2 && b / 8 % 2 == b3 && b / 16 == h
  {
    var h1 := b3 + 2 * h;
    var h2 := b2 + 2 * h1;
    var h3 := b1 + 2 * h2;
    Half(b3, h);
    Half(b2, h1);
    Half(b1, h2);
    Half(b0, h3);
    Halves(b0 + 2 * h3);
  }

  lemma HighBits(b: int, h: int)
    requires b / 16 == h
    ensures b / 32 == h / 2 && b / 64 == h / 4 && b / 128 == h / 8
  {
  }

  lemma ByteBit(s: set<int>, k: int, j: int)
    requires 0 <= j < 8
    ensures HasBit(ByteOf(s, k), j) <==> 8 * k + j in s
  {
    hide HasBit;
    var b0, b1, b2, b3 := BitIf(s, 8 * k), BitIf(s, 8 * k + 1), BitIf(s, 8 * k + 2), BitIf(s, 8 * k + 3);
    var b4, b5, b6, b7 := BitIf(s, 8 * k + 4), BitIf(s, 8 * k + 5), BitIf(s, 8 * k + 6), BitIf(s, 8 * k + 7);
    if j < 4 {
      LowBit(b0, b1, b2, b3, b4 + 2 * b5 + 4 * b6 + 8 * b7, j);
    } else {
      LowBits(b0, b1, b2, b3, b4 + 2 * b5 + 4 * b6 + 8 * b7);
      HighBit(ByteOf(s, k), j);
      LowBit(b4, b5, b6, b7, 0, j - 4);
    }
  }

  /** The lower four bits of a number, and the others. */
  lemma LowBit(b0: int, b1: int, b2: int, b3: int, h: int, j: int)
    requires 0 <= b0 <= 1 && 0 <= b1 <= 1 && 0 <= b2 <= 1 && 0 <= b3 <= 1 && 0 <= j < 4
    ensures HasBit(b0 + 2 * b1 + 4 * b2 + 8 * b3 + 16 * h, j) <==> [b0, b1, b2, b3][j] == 1
  {
    LowBits(b0, b1, b2, b3, h);
  }

  lemma HighBit(b: int, j: int)
    requires 4 <= j < 8
    ensures HasBit(b, j) <==> HasBit(b / 16, j - 4)
  {
    HighBits(b, b / 16);
  }

  /** A bitmap decodes to the set it was made from. */
  lemma BitmapDecodes(s: set<int>, n: nat, c: int)
    ensures IsThere(Bitmap(s, n), c) <==> 0 <= c < 8 * n && c in s
  {
    if 0 <= c < 8 * n {
      hide HasBit, ByteOf;
      assert Bitmap(s, n)[c / 8] == ByteOf(s, c / 8);
      ByteBit(s, c / 8, c % 8);
      assert 8 * (c / 8) + c % 8 == c;
    }
  }

  lemma ByteWith(s: set<int>, k: int, j: int)
    requires 0 <= j < 8
    ensures ByteOf(s + {8 * k + j}, k) == OrBit(ByteOf(s, k), j)
  {
    hide HasBit;
    ByteBit(s, k, j);
  }

  lemma ByteWithout(s: set<int>, k: int, c: int)
    requires c < 8 * k || c >= 8 * k + 8
    ensures ByteOf(s + {c}, k) == ByteOf(s, k)
  {
  }

  /** PLACE: setting one bit puts one character into the set. */
  lemma PlaceBit(s: set<int>, n: nat, c: int)
    requires 0 <= c < 8 * n
    ensures var b := Bitmap(s, n); Bitmap(s + {c}, n) == b[c / 8 := OrBit(b[c / 8], c % 8)]
  {
    hide HasBit, ByteOf, OrBit;
    var b := Bitmap(s, n);
    assert 8 * (c / 8) + c % 8 == c;
    ByteWith(s, c / 8, c % 8);
    forall k | 0 <= k < n && k != c / 8 ensures Bitmap(s + {c}, n)[k] == b[k] {
      ByteWithout(s, k, c);
    }
  }

  function Chars(): set<int> { set c: int | 0 <= c < 256 && IsByte(c) }

  lemma ByteComplement(s: set<int>, k: int)
    requires 0 <= k < 32
    ensures ByteOf(Chars() - s, k) == 255 - ByteOf(s, k)
  {
    forall c: int | 0 <= c < 256 ensures BitIf(Chars() - s, c) == 1 - BitIf(s, c) {}
  }

  /** Clearing bit 0 takes the NUL out. */
  lemma ClearNul(s: set<int>, n: nat)
    requires n > 0
    ensures var b := Bitmap(s, n); Bitmap(s - {0}, n) == b[0 := b[0] - b[0] % 2]
  {
    hide ByteOf;
    var b := Bitmap(s, n);
    FirstByteLess(s);
    forall k | 0 < k < n ensures Bitmap(s - {0}, n)[k] == b[k] {
      ByteLess(s, k);
    }
  }

  lemma FirstByteLess(s: set<int>)
    ensures ByteOf(s - {0}, 0) == ByteOf(s, 0) - ByteOf(s, 0) % 2
  {
    LowBits(BitIf(s, 0), BitIf(s, 1), BitIf(s, 2), BitIf(s, 3),
        BitIf(s, 4) + 2 * BitIf(s, 5) + 4 * BitIf(s, 6) + 8 * BitIf(s, 7));
  }

  lemma ByteLess(s: set<int>, k: int)
    requires k > 0
    ensures ByteOf(s - {0}, k) == ByteOf(s, k)
  {
  }

  // --- bracketed classes ---

  datatype ClassRead = BadClass(code: int) | ClassRead(members: set<int>, wide: bool, next: int)

  function Between(a: int, b: int): set<int> { set c: int | a <= c < b && IsByte(c) }

  /** The members from `i` on, up to the `]`; a `-` after a member starts a range, and the first character
      with the eighth bit makes the bitmap a wide one. */
  function Members(pat: seq<int>, i: int, lc: int, s: set<int>, wide: bool, roomy: bool): (r: ClassRead)
    requires i >= 0
    ensures if r.BadClass? then r.code == 49 || (r.code == 50 && !roomy) else r.next > i
    decreases |pat| - i, 0
  {
    var c := At(pat, i);
    if c == 0 || c == NEWLINE then BadClass(49)
    else if c >= 128 && !wide && !roomy then BadClass(50)
    else if c == MINUS && lc != 0 then
      var d := At(pat, i + 1);
      if d == RBRACKET then ClassRead(s + {MINUS}, wide, i + 2)
      else if d >= 128 && !wide && !roomy then BadClass(50)
      else MoreMembers(pat, i + 2, d, s + Between(lc, d) + {d}, wide || d >= 128, roomy)
    else MoreMembers(pat, i + 1, c, s + {c}, wide || c >= 128, roomy)
  }

  function MoreMembers(pat: seq<int>, i: int, lc: int, s: set<int>, wide: bool, roomy: bool): (r: ClassRead)
    requires i >= 0
    ensures if r.BadClass? then r.code == 49 || (r.code == 50 && !roomy) else r.next > i
    decreases |pat| - i, 1
  {
    if At(pat, i) == RBRACKET then ClassRead(s, wide, i + 1) else Members(pat, i, lc, s, wide, roomy)
  }

  /** The opcode and the bitmap that stand for a set of characters or, negated, for all others but the NUL. */
  function ClassItem(neg: bool, s: set<int>, wide: bool): Item {
    if wide then Item(CXCL, Bitmap(if neg then Chars() - s - {0} else s, 32), [])
    else if neg then Item(NCCL, Bitmap(s + {0}, 16), [])
    else Item(CCL, Bitmap(s, 16), [])
  }

  ghost predicate Narrow(s: set<int>) { forall c: int :: c in s ==> c < 128 }

  /** What compile makes of a class is a test for exactly the members, or exactly the others. */
  lemma ClassMeans(neg: bool, s: set<int>, wide: bool, c: int)
    requires 0 <= c < 256 && (!wide ==> Narrow(s))
    ensures var x := ClassItem(neg, s, wide);
            && SingleOf(x.op, x.arg).Some? && x.op % 4 == 0
            && (Fits(SingleOf(x.op, x.arg).value, c) <==> if neg then c !in s && c != 0 else c in s)
  {
    hide Bitmap, IsThere;
    if wide {
      BitmapDecodes(if neg then Chars() - s - {0} else s, 32, c);
    } else {
      BitmapDecodes(if neg then s + {0} else s, 16, c);
    }
  }

  /** A class is narrow only when all its members are. */
  lemma {:induction false} NarrowMembers(pat: seq<int>, i: int, lc: int, s: set<int>, wide: bool, roomy: bool)
    requires i >= 0 && IsPattern(pat) && (!wide ==> Narrow(s))
    ensures var r := Members(pat, i, lc, s, wide, roomy);
            r.ClassRead? && !r.wide ==> Narrow(r.members)
    decreases |pat| - i
  {
    var c := At(pat, i);
    if c == 0 || c == NEWLINE || (c >= 128 && !wide && !roomy) {
    } else if c == MINUS && lc != 0 {
      var d := At(pat, i + 1);
      if d != RBRACKET && !(d >= 128 && !wide && !roomy) && At(pat, i + 2) != RBRACKET {
        NarrowMembers(pat, i + 2, d, s + Between(lc, d) + {d}, wide || d >= 128, roomy);
      }
    } else if At(pat, i + 1) != RBRACKET {
      NarrowMembers(pat, i + 1, c, s + {c}, wide || c >= 128, roomy);
    }
  }

  /** A class never holds the NUL, unless a range was left open at the end of the pattern. */
  lemma {:induction false} NoNulMember(pat: seq<int>, i: int, lc: int, s: set<int>, wide: bool, roomy: bool)
    requires i >= 0 && IsPattern(pat) && lc >= 0 && 0 !in s
    ensures var r := Members(pat, i, lc, s, wide, roomy); r.ClassRead? ==> 0 !in r.members && i < r.next < |pat|
    decreases |pat| - i
  {
    var c := At(pat, i);
    if c == 0 || c == NEWLINE || (c >= 128 && !wide && !roomy) {
    } else if c == MINUS && lc != 0 {
      var d := At(pat, i + 1);
      if d != RBRACKET && !(d >= 128 && !wide && !roomy) && At(pat, i + 2) != RBRACKET {
        if d == 0 {
          assert At(pat, i + 2) == 0;
          assert Members(pat, i + 2, 0, s + Between(lc, 0) + {0}, wide, roomy).BadClass?;
        } else {
          NoNulMember(pat, i + 2, d, s + Between(lc, d) + {d}, wide || d >= 128, roomy);
        }
      }
    } else if At(pat, i + 1) != RBRACKET {
      NoNulMember(pat, i + 1, c, s + {c}, wide || c >= 128, roomy);
    }
  }

  ghost predicate IsPattern(pat: seq<int>) { IsText(pat) }

  // --- intervals ---

  datatype Number = BadNumber(code: int) | Number(value: int, next: int)

  predicate IsDigit(c: int) { ZERO <= c <= NINE }

  /** Digits up to a `\` or a comma; `next` is the index of that character. */
  function Digits(pat: seq<int>, i: int, acc: int): (n: Number)
    requires i >= 0
    ensures n.BadNumber? ==> n.code == 11 || n.code == 16
    ensures n.Number? ==> n.value <= 255 && i < n.next < |pat| && (pat[n.next] == BACKSLASH || pat[n.next] == COMMA)
    decreases |pat| - i
  {
    var c := At(pat, i);
    if !IsDigit(c) then BadNumber(16)
    else
      var v, d := 10 * acc + c - ZERO, At(pat, i + 1);
      if d == BACKSLASH || d == COMMA then (if v > 255 then BadNumber(11) else Number(v, i + 1))
      else Digits(pat, i + 1, v)
  }

  datatype Interval = BadInterval(code: int) | Interval(low: int, high: int, next: int)

  /** The bounds after `\{`, up to and including the `\}`. */
  function Bounds(pat: seq<int>, i: int): (b: Interval)
    requires i >= 0
    ensures b.BadInterval? ==> b.code == 11 || b.code == 16 || 44 <= b.code <= 46
    ensures b.Interval? ==> b.low <= b.high <= 255 && i < b.next
  {
    var m := Digits(pat, i, 0);
    if m.BadNumber? then BadInterval(m.code)
    else if At(pat, m.next) == BACKSLASH then
      if At(pat, m.next + 1) != RBRACE then BadInterval(45) else Interval(m.value, m.value, m.next + 2)
    else if At(pat, m.next + 1) == BACKSLASH then
      if At(pat, m.next + 2) != RBRACE then BadInterval(45) else Interval(m.value, 255, m.next + 3)
    else
      var n := Digits(pat, m.next + 1, 0);
      if n.BadNumber? then BadInterval(n.code)
      else if At(pat, n.next) == COMMA then BadInterval(44)
      else if At(pat, n.next + 1) != RBRACE then BadInterval(45)
      else if n.value < m.value then BadInterval(46)
      else Interval(m.value, n.value, n.next + 2)
  }

  // --- patterns ---

  /** What compile has so far: the instructions, the groups still open, how many are closed and opened. */
  datatype State = State(items: seq<Item>, open: seq<int>, closed: int, nbra: int)

  datatype Outcome =
    | Error(code: int)
    | Kept(nodelim: bool)
    | Compiled(circf: bool, items: seq<Item>, nbra: int, nodelim: bool, next: int)

  datatype Move = Fail(code: int) | Done(nodelim: bool, next: int) | Go(next: int, st: State)

  function Size(st: State): nat { |Flatten(st.items)| }

  function Add(st: State, x: Item): State { st.(items := st.items + [x]) }

  function Literal(st: State, c: int): State { Add(st, Item(CCHR, [c], [])) }

  function Last(items: seq<Item>): Item
    requires items != []
  {
    items[|items| - 1]
  }

  function SetLast(items: seq<Item>, x: Item): seq<Item>
    requires items != []
  {
    items[..|items| - 1] + [x]
  }

  /** `op |= STAR` and `op |= RNGE` */
  function WithStar(op: int): int { if op % 4 == 1 || op % 4 == 3 then op else op + 1 }
  function WithRange(op: int): int { op - op % 4 + RNGE }

  /** After a backslash at `i - 1`. */
  function Escape(pat: seq<int>, i: int, st: State): (m: Move)
    requires i >= 0
    ensures !m.Done? && (m.Go? ==> m.next > i)
  {
    var c := At(pat, i);
    if c == LPAREN then
      if st.nbra >= NBRA then Fail(43)
      else Go(i + 1, Add(st, Item(CBRA, [st.nbra], [])).(open := st.open + [st.nbra], nbra := st.nbra + 1))
    else if c == RPAREN then
      if st.open == [] then Fail(42)
      else
        var n := |st.open| - 1;
        Go(i + 1, Add(st, Item(CKET, [st.open[n]], [])).(open := st.open[..n], closed := st.closed + 1))
    else if c == LBRACE then
      if st.items == [] then Go(i + 1, Literal(st, LBRACE))
      else
        var b := Bounds(pat, i + 1);
        if b.BadInterval? then Fail(b.code)
        else
          var x := Last(st.items);
          Go(b.next, st.(items := SetLast(st.items, Item(WithRange(x.op), x.arg, x.tail + [b.low, b.high]))))
    else if c == NEWLINE then Fail(36)
    else if c == SMALL_N then Go(i + 1, Literal(st, NEWLINE))
    else if ONE <= c <= NINE then
      if c - ONE >= st.closed then Fail(25) else Go(i + 1, Add(st, Item(CBACK, [c - ONE], [])))
    else Go(i + 1, Literal(st, c))
  }

  /** One turn of the main loop, at `i`. */
  function Next(pat: seq<int>, i: int, st: State, eof: int, sed: bool, endbuf: int): Move
    requires i >= 0
  {
    var c := At(pat, i);
    if Size(st) >= endbuf then Fail(50)
    else if c == eof then (if st.open != [] then Fail(42) else Done(false, i + 1))
    else if c == DOT then Go(i + 1, Add(st, Item(CDOT, [], [])))
    else if c == NEWLINE then (if sed then Fail(36) else if st.open != [] then Fail(42) else Done(true, i))
    else if c == ASTERISK then
      if st.items == [] || Last(st.items).op == CBRA || Last(st.items).op == CKET then Go(i + 1, Literal(st, ASTERISK))
      else
        var x := Last(st.items);
        Go(i + 1, st.(items := SetLast(st.items, x.(op := WithStar(x.op)))))
    else if c == DOLLAR && (At(pat, i + 1) == eof || At(pat, i + 1) == NEWLINE) then
      Go(i + 1, Add(st, Item(CDOL, [], [])))
    else if c == LBRACKET then
      if Size(st) + 17 >= endbuf then Fail(50)
      else
        var neg := At(pat, i + 1) == CARET;
        var r := Members(pat, if neg then i + 2 else i + 1, 0, {}, false, Size(st) + 33 < endbuf);
        if r.BadClass? then Fail(r.code) else Go(r.next, Add(st, ClassItem(neg, r.members, r.wide)))
    else if c == BACKSLASH then Escape(pat, i + 1, st)
    else Go(i + 1, Literal(st, c))
  }

  lemma {:induction false} FlattenSnoc(items: seq<Item>, x: Item)
    ensures Flatten(items + [x]) == Flatten(items) + Bytes(x)
  {
    hide Bytes;
    if items == [] {
      assert [x] == [] + [x];
    } else {
      assert (items + [x])[1..] == items[1..] + [x];
      FlattenSnoc(items[1..], x);
    }
  }

  lemma FlattenLast(items: seq<Item>, x: Item)
    requires items != []
    ensures Flatten(items) == Flatten(items[..|items| - 1]) + Bytes(Last(items))
    ensures Flatten(SetLast(items, x)) == Flatten(items[..|items| - 1]) + Bytes(x)
  {
    hide Bytes, Flatten;
    var front := items[..|items| - 1];
    FlattenSnoc(front, Last(items));
    FlattenSnoc(front, x);
    Front(items);
  }

  lemma Front<T>(s: seq<T>)
    requires s != []
    ensures s == s[..|s| - 1] + [s[|s| - 1]]
  {
  }

  /** Every turn reads on, and past the end of the pattern every turn fills the buffer. */
  lemma NextProgress(pat: seq<int>, i: int, st: State, eof: int, sed: bool, endbuf: int)
    requires i >= 0
    ensures var m := Next(pat, i, st, eof, sed, endbuf);
            m.Go? ==> m.next > i && Size(st) < endbuf && (i >= |pat| ==> Size(m.st) > Size(st))
  {
    hide Members, ClassItem, Flatten;
    FlattenSnoc(st.items, Item(CCHR, [0], []));
  }

  function Parse(pat: seq<int>, i: int, st: State, circf: bool, eof: int, sed: bool, endbuf: int): Outcome
    requires i >= 0
    decreases if i < |pat| then |pat| - i else 0, endbuf - Size(st)
  {
    NextProgress(pat, i, st, eof, sed, endbuf);
    match Next(pat, i, st, eof, sed, endbuf)
    case Fail(code) => Error(code)
    case Done(nodelim, next) => Compiled(circf, st.items, st.nbra, nodelim, next)
    case Go(next, st1) => Parse(pat, next, st1, circf, eof, sed, endbuf)
  }

  const START: State := State([], [], 0, 0)

  /** The whole of compile; `blank` says that the buffer holds no earlier program. */
  function Compile(pat: seq<int>, eof: int, sed: bool, endbuf: int, blank: bool): Outcome {
    var c := At(pat, 0);
    if c == eof || c == NEWLINE then (if blank && !sed then Error(41) else Kept(c == NEWLINE))
    else Parse(pat, if c == CARET then 1 else 0, START, c == CARET, eof, sed, endbuf)
  }
}
