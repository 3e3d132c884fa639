/** Patterns as a user means them, how they are spelled, and that `compile` followed by the matcher gives
    each spelled pattern its meaning (head_m88k/regexp.h). */
module EdPattern {
  import opened Sequences
  import opened Wrappers
  import opened EdProgram
  import opened EdParse

  datatype Member = One(c: int) | Span(a: int, b: int)

  datatype Atom = Char(c: int) | AnyChar | Set(neg: bool, members: seq<Member>)

  datatype Count = Just | Star | Exactly(m: int) | AtLeast(m: int) | UpTo(m: int, n: int)

  /** An atom with its count, the beginning and the end of a group, and the text of a group once more. */
  datatype Elem = Rep(atom: Atom, count: Count) | Open(n: int) | Close(n: int) | Ref(n: int)

  datatype Pattern = Pattern(anchored: bool, elems: seq<Elem>, dollar: bool)

  // --- meaning ---

  predicate InMember(m: Member, c: int) {
    match m
    case One(d) => c == d
    case Span(a, b) => a <= c <= b
  }

  predicate InMembers(ms: seq<Member>, c: int) {
    exists k :: 0 <= k < |ms| && InMember(ms[k], c)
  }

  predicate AtomFits(a: Atom, c: int) {
    match a
    case Char(d) => c == d
    case AnyChar => c != 0
    case Set(neg, ms) => if neg then c != 0 && !InMembers(ms, c) else InMembers(ms, c)
  }

  ghost predicate AllAtoms(a: Atom, t: seq<int>, i: int, m: int) {
    0 <= i && 0 <= m && i + m <= |t| && forall k :: i <= k < i + m ==> AtomFits(a, t[k])
  }

  /** How often a user means an atom to repeat. */
  predicate Meant(count: Count, k: int) {
    match count
    case Just => k == 1
    case Star => k >= 0
    case Exactly(m) => k == m
    case AtLeast(m) => k >= m
    case UpTo(m, n) => m <= k <= n
  }

  /** How often a count lets it repeat: an interval without an upper bound stops 20000 later, and so does one
      with the upper bound 255. */
  predicate Allows(count: Count, k: int) {
    match count
    case Just => k == 1
    case Star => k >= 0
    case Exactly(m) => m <= k <= Upper(m, m)
    case AtLeast(m) => m <= k <= Upper(m, 255)
    case UpTo(m, n) => m <= k <= Upper(m, n)
  }

  /** No upper bound, or the one that means none. */
  predicate Endless(count: Count) {
    match count
    case Exactly(m) => m == 255
    case AtLeast(_) => true
    case UpTo(_, n) => n == 255
    case _ => false
  }

  /** A count is taken as it is meant if and only if its upper bound is not left open and is not 255. */
  lemma CountExact(count: Count)
    requires GoodCount(count)
    ensures (forall k :: Allows(count, k) <==> Meant(count, k)) <==> !Endless(count)
  {
    match count
    case Exactly(m) => assert m == 255 ==> Allows(count, 256) && !Meant(count, 256);
    case AtLeast(m) => assert Meant(count, m + 20001) && !Allows(count, m + 20001);
    case UpTo(m, n) => assert n == 255 ==> Allows(count, 256) && !Meant(count, 256);
    case _ =>
  }

  /** From the place `x` to the place `y` of the text stands what the elements, and the `$` if there is
      one, stand for. */
  ghost predicate Denotes(elems: seq<Elem>, dollar: bool, t: seq<int>, x: Place, y: Place)
    decreases |elems|
  {
    if elems == [] then x == y && (dollar ==> 0 <= x.at < |t| && t[x.at] == 0)
    else
      match elems[0]
      case Rep(atom, count) =>
        exists k ::
          Allows(count, k) && AllAtoms(atom, t, x.at, k) && Denotes(elems[1..], dollar, t, x.Ahead(k), y)
      case Open(n) => Denotes(elems[1..], dollar, t, x.Entered(n), y)
      case Close(n) => Denotes(elems[1..], dollar, t, x.Left(n), y)
      case Ref(n) =>
        Repeats(t, x, n) && Denotes(elems[1..], dollar, t, x.Ahead(GroupLength(x.groups, n)), y)
  }

  // --- spelling ---

  function Decimal(n: nat): seq<int> {
    if n < 10 then [ZERO + n] else Decimal(n / 10) + [ZERO + n % 10]
  }

  function SpellMember(m: Member): seq<int> {
    match m
    case One(c) => [c]
    case Span(a, b) => [a, MINUS, b]
  }

  function SpellMembers(ms: seq<Member>): seq<int> {
    if ms == [] then [] else SpellMember(ms[0]) + SpellMembers(ms[1..])
  }

  predicate Special(c: int, eof: int) {
    c == DOT || c == ASTERISK || c == DOLLAR || c == LBRACKET || c == BACKSLASH || c == CARET || c == eof
  }

  function SpellAtom(a: Atom, eof: int): seq<int> {
    match a
    case Char(c) => if c == NEWLINE then [BACKSLASH, SMALL_N] else if Special(c, eof) then [BACKSLASH, c] else [c]
    case AnyChar => [DOT]
    case Set(neg, ms) => [LBRACKET] + (if neg then [CARET] else []) + SpellMembers(ms) + [RBRACKET]
  }

  function SpellCount(count: Count): seq<int> {
    match count
    case Just => []
    case Star => [ASTERISK]
    case Exactly(m) => if m < 0 then [] else [BACKSLASH, LBRACE] + Decimal(m) + [BACKSLASH, RBRACE]
    case AtLeast(m) => if m < 0 then [] else [BACKSLASH, LBRACE] + Decimal(m) + [COMMA, BACKSLASH, RBRACE]
    case UpTo(m, n) =>
      if m < 0 || n < 0 then []
      else [BACKSLASH, LBRACE] + Decimal(m) + [COMMA] + Decimal(n) + [BACKSLASH, RBRACE]
  }

  function SpellElem(e: Elem, eof: int): seq<int> {
    match e
    case Rep(a, n) => SpellAtom(a, eof) + SpellCount(n)
    case Open(_) => [BACKSLASH, LPAREN]
    case Close(_) => [BACKSLASH, RPAREN]
    case Ref(n) => [BACKSLASH, ONE + n]
  }

  function SpellElems(elems: seq<Elem>, dollar: bool, eof: int): seq<int> {
    if elems == [] then (if dollar then [DOLLAR, eof] else [eof])
    else SpellElem(elems[0], eof) + SpellElems(elems[1..], dollar, eof)
  }

  /** The spelling, with the delimiter that ends it. */
  function Spell(p: Pattern, eof: int): seq<int> {
    (if p.anchored then [CARET] else []) + SpellElems(p.elems, p.dollar, eof)
  }

  // --- which patterns have a spelling ---

  predicate IsChar(c: int) { 0 < c < 256 }

  /** A member can be spelled: `]` has to come first, and `-` first or last. */
  predicate GoodMember(m: Member, first: bool, last: bool) {
    match m
    case One(c) => IsChar(c) && c != NEWLINE && (first || (c != RBRACKET && (c != MINUS || last)))
    case Span(a, b) => 0 < a <= b < 256 && a != NEWLINE && b != RBRACKET && (first || (a != RBRACKET && a != MINUS))
  }

  predicate GoodMembers(ms: seq<Member>) {
    forall k :: 0 <= k < |ms| ==> GoodMember(ms[k], k == 0, k == |ms| - 1)
  }

  predicate GoodAtom(a: Atom) {
    match a
    case Char(c) => IsChar(c)
    case AnyChar => true
    case Set(neg, ms) =>
      ms != [] && (neg || SpellMember(ms[0])[0] != CARET) && GoodMembers(ms)
  }

  predicate GoodCount(count: Count) {
    match count
    case Exactly(m) => 0 <= m <= 255
    case AtLeast(m) => 0 <= m <= 255
    case UpTo(m, n) => 0 <= m <= n <= 255
    case _ => true
  }

  /** How the groups stand after an element. */
  function OpenAfter(e: Elem, open: seq<int>): seq<int> {
    match e
    case Open(n) => open + [n]
    case Close(_) => if open == [] then [] else open[..|open| - 1]
    case _ => open
  }

  function NumberAfter(e: Elem, nbra: nat): nat {
    if e.Open? then nbra + 1 else nbra
  }

  /** The groups are balanced, numbered in the order in which they begin, and no more than nine; and of a
      back-reference it is asked, as compile does, that more groups have ended than its number. */
  predicate Good(elems: seq<Elem>, open: seq<int>, nbra: nat) {
    if elems == [] then open == []
    else
      match elems[0]
      case Rep(a, n) => GoodAtom(a) && GoodCount(n) && Good(elems[1..], open, nbra)
      case Open(n) => n == nbra < NBRA && Good(elems[1..], open + [n], nbra + 1)
      case Close(n) => open != [] && n == open[|open| - 1] && Good(elems[1..], open[..|open| - 1], nbra)
      case Ref(n) => 0 <= n < nbra - |open| && n < NBRA && Good(elems[1..], open, nbra)
  }

  /** No back-reference stands inside its own group. */
  predicate RefsClosed(elems: seq<Elem>, open: seq<int>) {
    elems == [] || ((elems[0].Ref? ==> elems[0].n !in open) && RefsClosed(elems[1..], OpenAfter(elems[0], open)))
  }

  predicate GoodPattern(p: Pattern) {
    Good(p.elems, [], 0) && (p.anchored || p.dollar || p.elems != [])
  }

  /** A delimiter that is not part of the notation. */
  predicate GoodEof(eof: int) {
    && 0 <= eof < 256 && eof != NEWLINE && eof != LPAREN && eof != RPAREN && eof != LBRACE && eof != SMALL_N
    && !(ONE <= eof <= NINE) && !Special(eof, -1)
  }

  // --- the instructions a pattern should get ---

  function MemberSet(m: Member): set<int> {
    match m
    case One(c) => {c}
    case Span(a, b) => {a} + Between(a, b) + {b}
  }

  function MembersSet(ms: seq<Member>): set<int> {
    if ms == [] then {} else MembersSet(ms[..|ms| - 1]) + MemberSet(ms[|ms| - 1])
  }

  predicate WideMember(m: Member) {
    match m
    case One(c) => c >= 128
    case Span(a, b) => b >= 128
  }

  predicate Wide(ms: seq<Member>) { exists k :: 0 <= k < |ms| && WideMember(ms[k]) }

  function AtomItem(a: Atom): Item {
    match a
    case Char(c) => Item(CCHR, [c], [])
    case AnyChar => Item(CDOT, [], [])
    case Set(neg, ms) => ClassItem(neg, MembersSet(ms), Wide(ms))
  }

  function Counted(x: Item, count: Count): Item {
    match count
    case Just => x
    case Star => x.(op := WithStar(x.op))
    case Exactly(m) => Item(WithRange(x.op), x.arg, x.tail + [m, m])
    case AtLeast(m) => Item(WithRange(x.op), x.arg, x.tail + [m, 255])
    case UpTo(m, n) => Item(WithRange(x.op), x.arg, x.tail + [m, n])
  }

  function Code(elems: seq<Elem>, dollar: bool): seq<Item> {
    if elems == [] then (if dollar then [Item(CDOL, [], [])] else [])
    else [ElemItem(elems[0])] + Code(elems[1..], dollar)
  }

  function ElemItem(e: Elem): Item {
    match e
    case Rep(a, n) => Counted(AtomItem(a), n)
    case Open(n) => Item(CBRA, [n], [])
    case Close(n) => Item(CKET, [n], [])
    case Ref(n) => Item(CBACK, [n], [])
  }

  // --- reading a spelling back ---

  ghost predicate Has(pat: seq<int>, i: int, w: seq<int>) {
    0 <= i && i + |w| <= |pat| && pat[i..i + |w|] == w
  }

  lemma HasSplit(pat: seq<int>, i: int, a: seq<int>, b: seq<int>)
    requires Has(pat, i, a + b)
    ensures Has(pat, i, a) && Has(pat, i + |a|, b)
  {
    var w := pat[i..i + |a + b|];
    assert pat[i..i + |a|] == w[..|a|] && pat[i + |a|..i + |a| + |b|] == w[|a|..];
  }

  lemma HasAt(pat: seq<int>, i: int, w: seq<int>, k: int)
    requires Has(pat, i, w) && 0 <= k < |w|
    ensures 0 <= i && At(pat, i + k) == w[k]
  {
    assert pat[i..i + |w|][k] == pat[i + k];
  }

  function Fold(ds: seq<int>, acc: int): int {
    if ds == [] then acc else Fold(ds[1..], 10 * acc + ds[0] - ZERO)
  }

  lemma {:induction false} FoldSnoc(ds: seq<int>, d: int, acc: int)
    ensures Fold(ds + [d], acc) == 10 * Fold(ds, acc) + d - ZERO
  {
    if ds == [] {
      assert [d][1..] == [];
      assert ds + [d] == [d];
    } else {
      assert (ds + [d])[1..] == ds[1..] + [d];
      FoldSnoc(ds[1..], d, 10 * acc + ds[0] - ZERO);
    }
  }

  lemma {:induction false} DecimalFolds(n: nat)
    ensures Fold(Decimal(n), 0) == n && Decimal(n) != []
    ensures forall k :: 0 <= k < |Decimal(n)| ==> IsDigit(Decimal(n)[k])
  {
    if n >= 10 {
      DecimalFolds(n / 10);
      FoldSnoc(Decimal(n / 10), ZERO + n % 10, 0);
    } else {
      var d := [ZERO + n];
      assert d[1..] == [];
      assert Fold(d, 0) == Fold(d[1..], n);
    }
  }

  lemma {:induction false} DigitsFold(pat: seq<int>, i: int, ds: seq<int>, acc: int)
    requires Has(pat, i, ds) && ds != [] && forall k :: 0 <= k < |ds| ==> IsDigit(ds[k])
    requires At(pat, i + |ds|) == BACKSLASH || At(pat, i + |ds|) == COMMA
    ensures Digits(pat, i, acc) == if Fold(ds, acc) > 255 then BadNumber(11) else Number(Fold(ds, acc), i + |ds|)
    decreases |ds|
  {
    HasAt(pat, i, ds, 0);
    if |ds| == 1 {
      assert ds[1..] == [];
    } else {
      HasAt(pat, i, ds, 1);
      assert ds == [ds[0]] + ds[1..];
      HasSplit(pat, i, [ds[0]], ds[1..]);
      DigitsFold(pat, i + 1, ds[1..], 10 * acc + ds[0] - ZERO);
    }
  }

  lemma NumberRead(pat: seq<int>, i: int, n: nat)
    requires n <= 255 && Has(pat, i, Decimal(n))
    requires At(pat, i + |Decimal(n)|) == BACKSLASH || At(pat, i + |Decimal(n)|) == COMMA
    ensures Digits(pat, i, 0) == Number(n, i + |Decimal(n)|)
  {
    hide Has, Decimal;
    DecimalFolds(n);
    DigitsFold(pat, i, Decimal(n), 0);
  }

  /** The bytes of the interval that a count is spelled with. */
  function Limits(count: Count): (int, int) {
    match count
    case Exactly(m) => (m, m)
    case AtLeast(m) => (m, 255)
    case UpTo(m, n) => (m, n)
    case _ => (0, 0)
  }

  lemma LowRead(pat: seq<int>, i: int, m: nat, rest: seq<int>)
    requires m <= 255 && Has(pat, i, [BACKSLASH, LBRACE] + (Decimal(m) + rest))
    requires rest != [] && (rest[0] == BACKSLASH || rest[0] == COMMA)
    ensures 0 <= i && At(pat, i) == BACKSLASH && At(pat, i + 1) == LBRACE
    ensures Digits(pat, i + 2, 0) == Number(m, i + 2 + |Decimal(m)|) && Has(pat, i + 2 + |Decimal(m)|, rest)
  {
    hide Has, At, Digits, Decimal;
    var open := [BACKSLASH, LBRACE];
    HasSplit(pat, i, open, Decimal(m) + rest);
    HasAt(pat, i, open, 0);
    HasAt(pat, i, open, 1);
    HasSplit(pat, i + 2, Decimal(m), rest);
    HasAt(pat, i + 2 + |Decimal(m)|, rest, 0);
    NumberRead(pat, i + 2, m);
  }

  lemma HighRead(pat: seq<int>, e: int, n: nat)
    requires n <= 255 && Has(pat, e, [COMMA] + (Decimal(n) + [BACKSLASH, RBRACE]))
    ensures At(pat, e) == COMMA && At(pat, e + 1) != BACKSLASH && At(pat, e + 2 + |Decimal(n)|) == RBRACE
    ensures var f := e + 1 + |Decimal(n)|; Digits(pat, e + 1, 0) == Number(n, f) && At(pat, f) == BACKSLASH
  {
    hide Has, At, Digits, Decimal;
    var d, close, comma := Decimal(n), [BACKSLASH, RBRACE], [COMMA];
    HasSplit(pat, e, comma, d + close);
    HasAt(pat, e, comma, 0);
    HasSplit(pat, e + 1, d, close);
    HasAt(pat, e + 1 + |d|, close, 0);
    HasAt(pat, e + 1 + |d|, close, 1);
    NumberRead(pat, e + 1, n);
    DecimalFolds(n);
    HasAt(pat, e + 1, d, 0);
  }

  lemma CountSpelling(m: nat)
    ensures SpellCount(Exactly(m)) == [BACKSLASH, LBRACE] + (Decimal(m) + [BACKSLASH, RBRACE])
    ensures SpellCount(AtLeast(m)) == [BACKSLASH, LBRACE] + (Decimal(m) + [COMMA, BACKSLASH, RBRACE])
  {
    hide Decimal;
  }

  lemma ExactlyRead(pat: seq<int>, i: int, m: nat)
    requires m <= 255 && Has(pat, i, SpellCount(Exactly(m)))
    ensures 0 <= i && At(pat, i) == BACKSLASH && At(pat, i + 1) == LBRACE
    ensures Bounds(pat, i + 2) == Interval(m, m, i + |SpellCount(Exactly(m))|)
  {
    hide Has, At, Digits, Decimal, SpellCount;
    var rest, e := [BACKSLASH, RBRACE], i + 2 + |Decimal(m)|;
    CountSpelling(m);
    LowRead(pat, i, m, rest);
    HasAt(pat, e, rest, 0);
    HasAt(pat, e, rest, 1);
  }

  lemma AtLeastRead(pat: seq<int>, i: int, m: nat)
    requires m <= 255 && Has(pat, i, SpellCount(AtLeast(m)))
    ensures 0 <= i && At(pat, i) == BACKSLASH && At(pat, i + 1) == LBRACE
    ensures Bounds(pat, i + 2) == Interval(m, 255, i + |SpellCount(AtLeast(m))|)
  {
    hide Has, At, Digits, Decimal, SpellCount;
    var rest, e := [COMMA, BACKSLASH, RBRACE], i + 2 + |Decimal(m)|;
    CountSpelling(m);
    LowRead(pat, i, m, rest);
    HasAt(pat, e, rest, 0);
    HasAt(pat, e, rest, 1);
    HasAt(pat, e, rest, 2);
  }

  lemma UpToRead(pat: seq<int>, i: int, m: nat, n: nat)
    requires m <= n <= 255 && Has(pat, i, SpellCount(UpTo(m, n)))
    ensures 0 <= i && At(pat, i) == BACKSLASH && At(pat, i + 1) == LBRACE
    ensures Bounds(pat, i + 2) == Interval(m, n, i + |SpellCount(UpTo(m, n))|)
  {
    hide Has, At, Digits, Decimal, SpellCount;
    UpToSpelling(m, n);
    LowRead(pat, i, m, [COMMA] + (Decimal(n) + [BACKSLASH, RBRACE]));
    HighRead(pat, i + 2 + |Decimal(m)|, n);
  }

  lemma BoundsRead(pat: seq<int>, i: int, count: Count)
    requires GoodCount(count) && !count.Just? && !count.Star? && Has(pat, i, SpellCount(count))
    ensures 0 <= i && At(pat, i) == BACKSLASH && At(pat, i + 1) == LBRACE
    ensures Bounds(pat, i + 2) == Interval(Limits(count).0, Limits(count).1, i + |SpellCount(count)|)
  {
    hide Has, At, Bounds, SpellCount;
    match count
    case Exactly(m) => ExactlyRead(pat, i, m);
    case AtLeast(m) => AtLeastRead(pat, i, m);
    case UpTo(m, n) => UpToRead(pat, i, m, n);
    case _ =>
  }

  lemma UpToSpelling(m: nat, n: nat)
    ensures SpellCount(UpTo(m, n))
            == [BACKSLASH, LBRACE] + (Decimal(m) + ([COMMA] + (Decimal(n) + [BACKSLASH, RBRACE])))
  {
    hide Decimal;
  }

  function LastChar(m: Member): int { if m.One? then m.c else m.b }

  lemma MemberRead(pat: seq<int>, i: int, m: Member, last: bool, lc: int, s: set<int>, wide: bool)
    requires lc >= 0 && GoodMember(m, lc == 0, last) && Has(pat, i, SpellMember(m))
    requires last ==> At(pat, i + |SpellMember(m)|) == RBRACKET
    ensures Members(pat, i, lc, s, wide, true)
            == MoreMembers(pat, i + |SpellMember(m)|, LastChar(m), s + MemberSet(m), wide || WideMember(m), true)
    ensures LastChar(m) > 0
  {
    hide Has, At, Between;
    var w := SpellMember(m);
    HasAt(pat, i, w, 0);
    assert i >= 0;
    match m
    case One(c) =>
    case Span(a, b) =>
      HasAt(pat, i, w, 1);
      HasAt(pat, i, w, 2);
      assert s + {a} + Between(a, b) + {b} == s + MemberSet(m);
      var w1 := wide || a >= 128;
      assert MoreMembers(pat, i + 1, a, s + {a}, w1, true) == Members(pat, i + 1, a, s + {a}, w1, true);
      assert Members(pat, i + 1, a, s + {a}, w1, true)
          == MoreMembers(pat, i + 3, b, s + {a} + Between(a, b) + {b}, w1 || b >= 128, true);
  }

  lemma {:induction false} MembersRead(pat: seq<int>, i: int, ms: seq<Member>, k: nat, lc: int)
    requires k < |ms| && lc >= 0 && (k == 0 <==> lc == 0) && GoodMembers(ms)
    requires Has(pat, i, SpellMembers(ms[k..]) + [RBRACKET])
    ensures Members(pat, i, lc, MembersSet(ms[..k]), Wide(ms[..k]), true)
            == ClassRead(MembersSet(ms), Wide(ms), i + |SpellMembers(ms[k..])| + 1)
    decreases |ms| - k
  {
    hide Has, At, MemberSet, WideMember, Members;
    var m, w, rest := ms[k], SpellMember(ms[k]), SpellMembers(ms[k + 1..]);
    assert ms[k..][1..] == ms[k + 1..];
    assert SpellMembers(ms[k..]) + [RBRACKET] == w + (rest + [RBRACKET]);
    HasSplit(pat, i, w, rest + [RBRACKET]);
    HasAt(pat, i + |w|, rest + [RBRACKET], 0);
    MemberRead(pat, i, m, k + 1 == |ms|, lc, MembersSet(ms[..k]), Wide(ms[..k]));
    assert ms[..k + 1][..k] == ms[..k];
    WideSnoc(ms, k);
    if k + 1 == |ms| {
      assert ms[..k + 1] == ms;
    } else {
      assert ms[k + 1..][0] == ms[k + 1];
      MembersRead(pat, i + |w|, ms, k + 1, LastChar(m));
    }
  }

  lemma WideSnoc(ms: seq<Member>, k: nat)
    requires k < |ms|
    ensures Wide(ms[..k + 1]) <==> Wide(ms[..k]) || WideMember(ms[k])
  {
    var a, b := ms[..k], ms[..k + 1];
    if WideMember(ms[k]) { assert WideMember(b[k]); }
    if Wide(a) {
      var j :| 0 <= j < |a| && WideMember(a[j]);
      assert WideMember(b[j]);
    }
    if Wide(b) {
      var j :| 0 <= j < |b| && WideMember(b[j]);
      if j < k { assert WideMember(a[j]); }
    }
  }

  // --- one turn of compile per element ---

  /** The first character of an atom's spelling is not taken for a `*`, an interval or the delimiter. */
  lemma AtomRead(pat: seq<int>, i: int, a: Atom, st: State, eof: int, sed: bool, endbuf: int)
    requires GoodAtom(a) && GoodEof(eof) && Has(pat, i, SpellAtom(a, eof)) && Size(st) + 33 < endbuf
    ensures Next(pat, i, st, eof, sed, endbuf) == Go(i + |SpellAtom(a, eof)|, Add(st, AtomItem(a)))
  {
    hide Has, At, Flatten, ClassItem, MembersSet, Wide, SpellMembers, Members;
    var w := SpellAtom(a, eof);
    HasAt(pat, i, w, 0);
    match a
    case Char(c) => if |w| > 1 { HasAt(pat, i, w, 1); }
    case AnyChar =>
    case Set(neg, ms) => SetRead(pat, i, neg, ms, st, eof, sed, endbuf);
  }

  lemma SetSpelling(neg: bool, ms: seq<Member>, eof: int)
    ensures SpellAtom(Set(neg, ms), eof)
            == (if neg then [LBRACKET, CARET] else [LBRACKET]) + (SpellMembers(ms) + [RBRACKET])
  {
    hide SpellMembers;
  }

  lemma SetHead(pat: seq<int>, i: int, neg: bool, ms: seq<Member>, eof: int)
    requires GoodAtom(Set(neg, ms)) && Has(pat, i, SpellAtom(Set(neg, ms), eof))
    ensures 0 <= i && At(pat, i) == LBRACKET && (neg <==> At(pat, i + 1) == CARET)
    ensures var j := i + (if neg then 2 else 1);
            && Has(pat, j, SpellMembers(ms) + [RBRACKET])
            && i + |SpellAtom(Set(neg, ms), eof)| == j + |SpellMembers(ms)| + 1
  {
    hide Has, At, SpellMembers, SpellMember, SpellAtom, GoodMember;
    var body := SpellMembers(ms) + [RBRACKET];
    var head := if neg then [LBRACKET, CARET] else [LBRACKET];
    SetSpelling(neg, ms, eof);
    HasSplit(pat, i, head, body);
    HasAt(pat, i, head, 0);
    FirstSpelled(ms);
    HasAt(pat, i + |head|, body, 0);
    if neg { HasAt(pat, i, head, 1); }
  }

  lemma SetRead(pat: seq<int>, i: int, neg: bool, ms: seq<Member>, st: State, eof: int, sed: bool, endbuf: int)
    requires GoodAtom(Set(neg, ms)) && GoodEof(eof) && Has(pat, i, SpellAtom(Set(neg, ms), eof))
        && Size(st) + 33 < endbuf
    ensures Next(pat, i, st, eof, sed, endbuf) == Go(i + |SpellAtom(Set(neg, ms), eof)|,
        Add(st, AtomItem(Set(neg, ms))))
  {
    hide Has, At, Flatten, ClassItem, MembersSet, Wide, Members, SpellMember, SpellMembers, SpellAtom, GoodMember;
    SetHead(pat, i, neg, ms, eof);
    assert ms[0..] == ms;
    MembersRead(pat, if neg then i + 2 else i + 1, ms, 0, 0);
    NoMembers(ms);
  }

  lemma FirstSpelled(ms: seq<Member>)
    requires ms != []
    ensures SpellMember(ms[0]) != [] && SpellMembers(ms) != [] && SpellMembers(ms)[0] == SpellMember(ms[0])[0]
  {
  }

  lemma NoMembers(ms: seq<Member>)
    ensures MembersSet(ms[..0]) == {} && !Wide(ms[..0])
  {
  }

  /** A count changes the instruction before it in place. */
  lemma CountRead(pat: seq<int>, i: int, count: Count, st: State, eof: int, sed: bool, endbuf: int)
    requires GoodCount(count) && !count.Just? && GoodEof(eof) && Has(pat, i, SpellCount(count)) && Size(st) < endbuf
    requires st.items != [] && Last(st.items).op != CBRA && Last(st.items).op != CKET
    ensures Next(pat, i, st, eof, sed, endbuf)
            == Go(i + |SpellCount(count)|, st.(items := SetLast(st.items, Counted(Last(st.items), count))))
  {
    hide Has, At, Flatten, Bounds, Decimal;
    if count.Star? {
      HasAt(pat, i, [ASTERISK], 0);
    } else {
      BoundsRead(pat, i, count);
    }
  }

  // --- the whole pattern ---

  lemma AtomItemPlain(a: Atom)
    requires GoodAtom(a)
    ensures var x := AtomItem(a); x.tail == [] && x.op % 4 == 0 && x.op != CKET
  {
    hide Bitmap, MembersSet, Wide;
  }

  lemma SizeAdd(st: State, x: Item)
    ensures Size(Add(st, x)) == Size(st) + |Bytes(x)|
  {
    FlattenSnoc(st.items, x);
  }

  /** A count after an atom becomes part of its instruction. */
  lemma CountedRead(pat: seq<int>, i: int, a: Atom, w: seq<int>, n: Count, st: State, circf: bool, eof: int,
      sed: bool, endbuf: int)
    requires GoodAtom(a) && GoodCount(n) && GoodEof(eof) && 0 <= i && Has(pat, i, w + SpellCount(n))
    requires Next(pat, i, st, eof, sed, endbuf) == Go(i + |w|, Add(st, AtomItem(a)))
    requires Size(st) + |Bytes(Counted(AtomItem(a), n))| + 33 < endbuf
    ensures Parse(pat, i, st, circf, eof, sed, endbuf)
            == Parse(pat, i + |w + SpellCount(n)|, Add(st, Counted(AtomItem(a), n)), circf, eof, sed, endbuf)
  {
    hide Has, Next, AtomItem, Flatten, SpellCount, GoodAtom, GoodCount, GoodEof;
    var x := AtomItem(a);
    var i1, st1 := i + |w|, Add(st, x);
    HasSplit(pat, i, w, SpellCount(n));
    AtomItemPlain(a);
    NextProgress(pat, i, st, eof, sed, endbuf);
    if n.Just? {
      NoCount();
    } else {
      SizeAdd(st, x);
      CountRead(pat, i1, n, st1, eof, sed, endbuf);
      NextProgress(pat, i1, st1, eof, sed, endbuf);
      assert SetLast(st1.items, Counted(x, n)) == st.items + [Counted(x, n)];
    }
  }

  /** An atom and its count are read as one instruction. */
  lemma RepRead(pat: seq<int>, i: int, a: Atom, n: Count, st: State, circf: bool, eof: int, sed: bool, endbuf: int)
    requires GoodAtom(a) && GoodCount(n) && GoodEof(eof) && Has(pat, i, SpellAtom(a, eof) + SpellCount(n))
    requires Size(st) + |Bytes(Counted(AtomItem(a), n))| + 33 < endbuf
    ensures 0 <= i
    ensures Parse(pat, i, st, circf, eof, sed, endbuf)
            == Parse(pat, i + |SpellAtom(a, eof) + SpellCount(n)|, Add(st, Counted(AtomItem(a), n)), circf, eof, sed,
                endbuf)
  {
    hide Has, Next, AtomItem, Flatten, SpellAtom, SpellCount, GoodAtom, GoodCount, GoodEof, Bytes, Counted;
    HasSplit(pat, i, SpellAtom(a, eof), SpellCount(n));
    assert 0 <= i by { StartsInside(pat, i, SpellAtom(a, eof)); }
    AtomRead(pat, i, a, st, eof, sed, endbuf);
    CountedRead(pat, i, a, SpellAtom(a, eof), n, st, circf, eof, sed, endbuf);
  }

  lemma StartsInside(pat: seq<int>, i: int, w: seq<int>)
    requires Has(pat, i, w)
    ensures 0 <= i
  {
  }

  lemma NoCount()
    ensures SpellCount(Just) == []
  {
  }

  /** The groups are counted as compile counts them. */
  predicate Counts(st: State) {
    st.nbra >= 0 && st.closed == st.nbra - |st.open|
  }

  lemma GroupRead(pat: seq<int>, i: int, e: Elem, st: State, eof: int, sed: bool, endbuf: int)
    requires !e.Rep? && GoodEof(eof) && Has(pat, i, SpellElem(e, eof)) && Size(st) < endbuf && GoodElem(e, st)
    requires Counts(st)
    ensures 0 <= i
    ensures Next(pat, i, st, eof, sed, endbuf) == Go(i + 2, AfterElem(e, st))
  {
    hide Has, At, Flatten, Bounds, Members;
    HasAt(pat, i, SpellElem(e, eof), 0);
    HasAt(pat, i, SpellElem(e, eof), 1);
  }

  function Opens(elems: seq<Elem>): nat {
    if elems == [] then 0 else (if elems[0].Open? then 1 else 0) + Opens(elems[1..])
  }

  /** The state of compile after an element. */
  function AfterElem(e: Elem, st: State): State {
    var st1 := Add(st, ElemItem(e));
    match e
    case Open(n) => st1.(open := st.open + [n], nbra := st.nbra + 1)
    case Close(_) => st1.(open := if st.open == [] then [] else st.open[..|st.open| - 1], closed := st.closed + 1)
    case _ => st1
  }

  predicate GoodElem(e: Elem, st: State) {
    match e
    case Rep(a, n) => GoodAtom(a) && GoodCount(n)
    case Open(n) => n == st.nbra < NBRA
    case Close(n) => st.open != [] && n == st.open[|st.open| - 1]
    case Ref(n) => 0 <= n < st.nbra - |st.open| && n < NBRA
  }

  lemma ElemRead(pat: seq<int>, i: int, e: Elem, st: State, circf: bool, eof: int, sed: bool, endbuf: int)
    requires GoodElem(e, st) && Counts(st) && GoodEof(eof) && Has(pat, i, SpellElem(e, eof))
    requires Size(st) + |Bytes(ElemItem(e))| + 33 < endbuf
    ensures 0 <= i
    ensures Parse(pat, i, st, circf, eof, sed, endbuf)
            == Parse(pat, i + |SpellElem(e, eof)|, AfterElem(e, st), circf, eof, sed, endbuf)
  {
    hide Has, At, Next, Flatten, Counted, AtomItem, SpellAtom, SpellCount, GoodAtom, GoodCount, GoodEof, Bytes;
    if e.Rep? {
      RepRead(pat, i, e.atom, e.count, st, circf, eof, sed, endbuf);
    } else {
      GroupRead(pat, i, e, st, eof, sed, endbuf);
      NextProgress(pat, i, st, eof, sed, endbuf);
    }
  }

  lemma CodeStep(elems: seq<Elem>, dollar: bool, st: State)
    requires elems != [] && Counts(st) && Good(elems, st.open, st.nbra)
    ensures var e, st1 := elems[0], AfterElem(elems[0], st);
            && GoodElem(e, st) && Counts(st1) && Good(elems[1..], st1.open, st1.nbra)
            && Code(elems, dollar) == [ElemItem(e)] + Code(elems[1..], dollar)
            && st1.items == st.items + [ElemItem(e)] && st1.nbra + Opens(elems[1..]) == st.nbra + Opens(elems)
  {
    hide GoodAtom, GoodCount, Counted, AtomItem;
  }

  lemma FlattenCons(x: Item, xs: seq<Item>)
    ensures |Flatten([x] + xs)| == |Bytes(x)| + |Flatten(xs)|
  {
    hide Bytes;
    assert ([x] + xs)[1..] == xs;
  }

  /** compile reads every spelled pattern as the instructions meant for it. */
  lemma {:induction false} ParseSpelled(pat: seq<int>, i: int, elems: seq<Elem>, dollar: bool, st: State, circf: bool,
      eof: int, sed: bool, endbuf: int)
    requires Counts(st) && Good(elems, st.open, st.nbra) && GoodEof(eof)
    requires Has(pat, i, SpellElems(elems, dollar, eof))
    requires Size(st) + |Flatten(Code(elems, dollar))| + 33 < endbuf
    ensures 0 <= i
    ensures Parse(pat, i, st, circf, eof, sed, endbuf)
            == Compiled(circf, st.items + Code(elems, dollar), st.nbra + Opens(elems), false,
                        i + |SpellElems(elems, dollar, eof)|)
    decreases |elems|
  {
    hide Has, At, Next, Parse, Flatten, Bytes, ElemItem, AfterElem, GoodElem, GoodEof, SpellElem, Counts;
    if elems == [] {
      EndRead(pat, i, dollar, st, circf, eof, sed, endbuf);
    } else {
      var e, rest, st1 := elems[0], elems[1..], AfterElem(elems[0], st);
      var x := ElemItem(e);
      CodeStep(elems, dollar, st);
      var code := Code(rest, dollar);
      FlattenCons(x, code);
      SizeAdd(st, x);
      HasSplit(pat, i, SpellElem(e, eof), SpellElems(rest, dollar, eof));
      ElemRead(pat, i, e, st, circf, eof, sed, endbuf);
      ParseSpelled(pat, i + |SpellElem(e, eof)|, rest, dollar, st1, circf, eof, sed, endbuf);
      Assoc(st.items, [x], code);
    }
  }

  lemma EndRead(pat: seq<int>, i: int, dollar: bool, st: State, circf: bool, eof: int, sed: bool, endbuf: int)
    requires st.open == [] && GoodEof(eof) && Has(pat, i, SpellElems([], dollar, eof)) && Size(st) + 33 < endbuf
    ensures 0 <= i
    ensures Parse(pat, i, st, circf, eof, sed, endbuf)
            == Compiled(circf, st.items + Code([], dollar), st.nbra, false,
                i + |SpellElems([], dollar, eof)|)
  {
    hide Has, At, Flatten, Members, Bounds, Escape;
    var w := SpellElems([], dollar, eof);
    HasAt(pat, i, w, 0);
    if dollar {
      HasAt(pat, i, w, 1);
      SizeAdd(st, Item(CDOL, [], []));
      NextProgress(pat, i, st, eof, sed, endbuf);
    }
  }

  /** Round trip: compiling the spelling of a pattern gives the pattern's own instructions. */
  lemma CompileSpelled(p: Pattern, eof: int, sed: bool, endbuf: int, blank: bool, rest: seq<int>)
    requires GoodPattern(p) && GoodEof(eof) && |Flatten(Code(p.elems, p.dollar))| + 33 < endbuf
    ensures Compile(Spell(p, eof) + rest, eof, sed, endbuf, blank)
            == Compiled(p.anchored, Code(p.elems, p.dollar), Opens(p.elems), false, |Spell(p, eof)|)
  {
    hide Has, At, Next, Flatten, SpellElems, Code;
    var pat := Spell(p, eof) + rest;
    var w := SpellElems(p.elems, p.dollar, eof);
    var i := if p.anchored then 1 else 0;
    SpellsAt(pat, i, w, rest);
    if p.anchored {
      SpellsAt(pat, 0, Spell(p, eof), rest);
      HasAt(pat, 0, Spell(p, eof), 0);
    } else {
      FirstOfSpelling(pat, p.elems, p.dollar, eof);
    }
    NoSize();
    ParseSpelled(pat, i, p.elems, p.dollar, START, p.anchored, eof, sed, endbuf);
    assert START.items + Code(p.elems, p.dollar) == Code(p.elems, p.dollar);
  }

  lemma NoSize()
    ensures Size(START) == 0
  {
  }

  lemma SpellsAt(pat: seq<int>, i: nat, w: seq<int>, rest: seq<int>)
    requires i <= |pat| && pat[i..] == w + rest
    ensures Has(pat, i, w)
  {
    assert pat[i..i + |w|] == pat[i..][..|w|];
  }

  lemma FirstOfSpelling(pat: seq<int>, elems: seq<Elem>, dollar: bool, eof: int)
    requires Good(elems, [], 0) && GoodEof(eof) && Has(pat, 0, SpellElems(elems, dollar, eof))
        && (dollar || elems != [])
    ensures At(pat, 0) != eof && At(pat, 0) != NEWLINE && At(pat, 0) != CARET
  {
    hide Has, At, SpellCount, SpellMembers;
    HasAt(pat, 0, SpellElems(elems, dollar, eof), 0);
    if elems != [] && elems[0].Rep? {
      assert SpellAtom(elems[0].atom, eof) != [];
      assert SpellElems(elems, dollar, eof)[0] == SpellAtom(elems[0].atom, eof)[0];
    }
  }

  // --- the instructions mean what the pattern means ---

  predicate Legal(ms: seq<Member>) { forall k :: 0 <= k < |ms| ==> GoodMember(ms[k], true, true) }

  lemma {:induction false} MembersSetIff(ms: seq<Member>, c: int)
    requires 0 <= c < 256 && Legal(ms)
    ensures c in MembersSet(ms) <==> InMembers(ms, c)
    decreases |ms|
  {
    if ms != [] {
      var n := |ms| - 1;
      MembersSetIff(ms[..n], c);
      if InMembers(ms[..n], c) {
        var k :| 0 <= k < n && InMember(ms[..n][k], c);
        assert InMember(ms[k], c);
      }
      if InMembers(ms, c) {
        var k :| 0 <= k < |ms| && InMember(ms[k], c);
        if k < n { assert InMember(ms[..n][k], c); }
      }
      assert c in MemberSet(ms[n]) <==> InMember(ms[n], c);
    }
  }

  lemma {:induction false} NarrowSet(ms: seq<Member>)
    requires !Wide(ms) && Legal(ms)
    ensures Narrow(MembersSet(ms))
    decreases |ms|
  {
    if ms != [] {
      var n := |ms| - 1;
      assert !WideMember(ms[n]);
      forall k | 0 <= k < n ensures !WideMember(ms[..n][k]) { assert !WideMember(ms[k]); }
      NarrowSet(ms[..n]);
    }
  }

  function AtomSingle(a: Atom): Option<Single> { SingleOf(AtomItem(a).op, AtomItem(a).arg) }

  /** The test compiled for an atom accepts the characters the atom stands for. */
  lemma AtomMeans(a: Atom, c: int)
    requires GoodAtom(a) && 0 <= c < 256
    ensures AtomSingle(a).Some? && (Fits(AtomSingle(a).value, c) <==> AtomFits(a, c))
    ensures c == 0 ==> !AtomFits(a, c)
  {
    hide Bitmap, IsThere, MembersSet, Wide;
    match a
    case Set(neg, ms) =>
      MembersSetIff(ms, c);
      if !Wide(ms) { NarrowSet(ms); }
      ClassMeans(neg, MembersSet(ms), Wide(ms), c);
      ClassPlain(neg, ms);
    case _ =>
  }

  lemma ClassPlain(neg: bool, ms: seq<Member>)
    ensures var x := AtomItem(Set(neg, ms)); x.op % 4 == 0 && x.tail == []
  {
    hide Bitmap, MembersSet, Wide;
  }

  lemma AllAtomsFit(a: Atom, t: seq<int>, i: int, m: int)
    requires GoodAtom(a) && IsText(t)
    ensures AtomSingle(a).Some? && (AllFit(AtomSingle(a).value, t, i, m) <==> AllAtoms(a, t, i, m))
  {
    hide AtomSingle, AtomFits, Fits, GoodAtom;
    AtomMeans(a, 0);
    if 0 <= i && 0 <= m && i + m <= |t| {
      forall k | i <= k < i + m ensures Fits(AtomSingle(a).value, t[k]) <==> AtomFits(a, t[k]) {
        AtomMeans(a, t[k]);
      }
    }
  }

  /** The piece of an atom and its count. */
  function PieceOf(s: Single, n: Count): Piece {
    match n
    case Just => Piece.Once(s)
    case Star => Any(s)
    case Exactly(m) => Times(s, m, m)
    case AtLeast(m) => Times(s, m, 255)
    case UpTo(m, k) => Times(s, m, k)
  }

  lemma RepMeans(a: Atom, n: Count)
    requires GoodAtom(a) && GoodCount(n)
    ensures AtomSingle(a).Some? && Meaning(Counted(AtomItem(a), n)) == Some(PieceOf(AtomSingle(a).value, n))
  {
    hide AtomItem, GoodAtom, Fits, AtomFits;
    AtomMeans(a, 0);
    AtomItemPlain(a);
  }

  /** The piece of an element. */
  function ElemPiece(e: Elem): Piece
    requires e.Rep? ==> AtomSingle(e.atom).Some?
  {
    match e
    case Rep(a, n) => PieceOf(AtomSingle(a).value, n)
    case Open(n) => Enter(n)
    case Close(n) => Leave(n)
    case Ref(n) => Again(n)
  }

  predicate Numbered(open: seq<int>, nbra: int) {
    nbra <= NBRA && forall k :: 0 <= k < |open| ==> 0 <= open[k] < nbra
  }

  lemma ElemMeans(elems: seq<Elem>, open: seq<int>, nbra: nat)
    requires elems != [] && Good(elems, open, nbra) && Numbered(open, nbra)
    ensures elems[0].Rep? ==> AtomSingle(elems[0].atom).Some?
    ensures Meaning(ElemItem(elems[0])) == Some(ElemPiece(elems[0])) && StopsAtNul(ElemPiece(elems[0]))
  {
    hide Counted, AtomItem, AtomSingle, Fits, GoodAtom, GoodCount, SingleOf;
    match elems[0]
    case Rep(a, n) =>
      RepMeans(a, n);
      AtomMeans(a, 0);
      StopsAt(AtomSingle(a).value, n);
    case _ =>
  }

  lemma GoodRest(elems: seq<Elem>, open: seq<int>, nbra: nat)
    requires elems != [] && Good(elems, open, nbra) && Numbered(open, nbra)
    ensures Good(elems[1..], OpenAfter(elems[0], open), NumberAfter(elems[0], nbra))
    ensures Numbered(OpenAfter(elems[0], open), NumberAfter(elems[0], nbra))
    ensures match elems[0]
            case Rep(_, _) => true
            case Open(n) => n == nbra < NBRA
            case Close(n) => open != [] && n == open[|open| - 1]
            case Ref(n) => 0 <= n < nbra - |open| && n < NBRA
  {
    hide GoodAtom, GoodCount;
  }

  /** The pieces of the rest, and the piece before them. */
  lemma CodePieces(elems: seq<Elem>, dollar: bool, open: seq<int>, nbra: nat)
    requires elems != [] && Good(elems, open, nbra) && Numbered(open, nbra) && Meaningful(Code(elems[1..], dollar))
    ensures elems[0].Rep? ==> AtomSingle(elems[0].atom).Some?
    ensures Meaningful(Code(elems, dollar))
    ensures Pieces(Code(elems, dollar)) == [ElemPiece(elems[0])] + Pieces(Code(elems[1..], dollar))
  {
    hide Meaning, ElemItem, Good, Numbered, AtomSingle, ElemPiece, StopsAtNul;
    ElemMeans(elems, open, nbra);
    var code := Code(elems, dollar);
    assert code[1..] == Code(elems[1..], dollar);
    forall i | 0 <= i < |code| ensures Meaning(code[i]).Some? { assert i > 0 ==> code[i] == code[1..][i - 1]; }
  }

  lemma {:induction false} CodeSafe(elems: seq<Elem>, dollar: bool, open: seq<int>, nbra: nat)
    requires Good(elems, open, nbra) && Numbered(open, nbra)
    ensures var items := Code(elems, dollar); Meaningful(items) && Safe(Pieces(items))
    decreases |elems|
  {
    hide ElemItem, Good, Numbered, AtomSingle, ElemPiece, StopsAtNul, OpenAfter;
    if elems == [] {
      DollarSafe(dollar);
    } else {
      GoodRest(elems, open, nbra);
      CodeSafe(elems[1..], dollar, OpenAfter(elems[0], open), NumberAfter(elems[0], nbra));
      CodePieces(elems, dollar, open, nbra);
      ElemMeans(elems, open, nbra);
      var ps, rest := Pieces(Code(elems, dollar)), Pieces(Code(elems[1..], dollar));
      forall i | 0 <= i < |ps| ensures StopsAtNul(ps[i]) { assert i > 0 ==> ps[i] == rest[i - 1]; }
    }
  }

  lemma DollarSafe(dollar: bool)
    ensures var items := Code([], dollar); Meaningful(items) && Safe(Pieces(items))
    ensures var items := Code([], dollar); Pieces(items) == if dollar then [End] else []
  {
    if dollar {
      var items := Code([], dollar);
      assert items[1..] == [];
      assert Pieces(items) == [End];
    }
  }

  lemma StopsAt(s: Single, n: Count)
    requires !Fits(s, 0)
    ensures StopsAtNul(PieceOf(s, n))
  {
  }

  ghost predicate RepAt(s: Single, n: Count, rest: seq<Piece>, t: seq<int>, x: Place, y: Place, m: int) {
    Allows(n, m) && AllFit(s, t, x.at, m) && Matches(rest, t, x.Ahead(m), y)
  }

  lemma PieceMatches(s: Single, n: Count, ps: seq<Piece>, t: seq<int>, x: Place, y: Place)
    requires ps != [] && ps[0] == PieceOf(s, n) && GoodCount(n)
    ensures Matches(ps, t, x, y) <==> exists m :: RepAt(s, n, ps[1..], t, x, y, m)
  {
    hide AllFit;
    var rest, i := ps[1..], x.at;
    if m :| RepAt(s, n, rest, t, x, y, m) {
      assert AllFit(s, t, i, m) && Matches(rest, t, x.Ahead(m), y);
    }
    if Matches(ps, t, x, y) {
      match n
      case Just => assert RepAt(s, n, rest, t, x, y, 1);
      case Star =>
        var m :| AllFit(s, t, i, m) && Matches(rest, t, x.Ahead(m), y);
        AllFitLength(s, t, i, m);
        assert RepAt(s, n, rest, t, x, y, m);
      case _ =>
        var low, high := ps[0].low, ps[0].high;
        var m :| 0 <= low <= m <= Upper(low, high) && AllFit(s, t, i, m) && Matches(rest, t, x.Ahead(m), y);
        assert RepAt(s, n, rest, t, x, y, m);
    }
  }

  lemma AllFitLength(s: Single, t: seq<int>, i: int, m: int)
    ensures AllFit(s, t, i, m) ==> m >= 0
  {
  }

  lemma RepDenotes(a: Atom, n: Count, ps: seq<Piece>, elems: seq<Elem>, dollar: bool, t: seq<int>, x: Place, y: Place)
    requires GoodAtom(a) && GoodCount(n) && IsText(t) && elems != [] && elems[0] == Rep(a, n)
    requires ps != [] && AtomSingle(a).Some? && ps[0] == PieceOf(AtomSingle(a).value, n)
    requires forall z :: Matches(ps[1..], t, z, y) <==> Denotes(elems[1..], dollar, t, z, y)
    ensures Matches(ps, t, x, y) <==> Denotes(elems, dollar, t, x, y)
  {
    hide Allows, AllAtoms, AtomSingle, GoodAtom, GoodCount, IsText, PieceOf, AllFit, Matches;
    var s, rest := AtomSingle(a).value, elems[1..];
    PieceMatches(s, n, ps, t, x, y);
    forall m
      ensures RepAt(s, n, ps[1..], t, x, y, m) <==>
              Allows(n, m) && AllAtoms(a, t, x.at, m) && Denotes(rest, dollar, t, x.Ahead(m), y)
    {
      AllAtomsFit(a, t, x.at, m);
    }
  }

  lemma EndMeans(dollar: bool, t: seq<int>, x: Place, y: Place)
    ensures Meaningful(Code([], dollar))
    ensures Matches(Pieces(Code([], dollar)), t, x, y) <==> Denotes([], dollar, t, x, y)
  {
    DollarSafe(dollar);
    assert [End][1..] == [];
  }

  /** The compiled instructions match what the pattern stands for. */
  lemma {:induction false} MatchesIffDenotes(elems: seq<Elem>, dollar: bool, open: seq<int>, nbra: nat, t: seq<int>,
      x: Place, y: Place)
    requires Good(elems, open, nbra) && Numbered(open, nbra) && IsText(t)
    ensures Meaningful(Code(elems, dollar))
    ensures Matches(Pieces(Code(elems, dollar)), t, x, y) <==> Denotes(elems, dollar, t, x, y)
    decreases |elems|
  {
    hide ElemItem, AtomSingle, IsText, Numbered, Matches, Pieces, Denotes, Good, OpenAfter;
    if elems == [] {
      EndMeans(dollar, t, x, y);
    } else {
      var rest, open1, nbra1 := elems[1..], OpenAfter(elems[0], open), NumberAfter(elems[0], nbra);
      GoodRest(elems, open, nbra);
      CodeSafe(rest, dollar, open1, nbra1);
      CodePieces(elems, dollar, open, nbra);
      var ps := Pieces(Code(elems, dollar));
      assert ps[1..] == Pieces(Code(rest, dollar));
      forall z ensures Matches(ps[1..], t, z, y) <==> Denotes(rest, dollar, t, z, y) {
        MatchesIffDenotes(rest, dollar, open1, nbra1, t, z, y);
      }
      ElemDenotes(ps, elems, dollar, open, nbra, t, x, y);
    }
  }

  lemma ElemDenotes(ps: seq<Piece>, elems: seq<Elem>, dollar: bool, open: seq<int>, nbra: nat, t: seq<int>,
      x: Place, y: Place)
    requires elems != [] && Good(elems, open, nbra) && IsText(t) && ps != []
    requires elems[0].Rep? ==> AtomSingle(elems[0].atom).Some?
    requires ps[0] == ElemPiece(elems[0])
    requires forall z :: Matches(ps[1..], t, z, y) <==> Denotes(elems[1..], dollar, t, z, y)
    ensures Matches(ps, t, x, y) <==> Denotes(elems, dollar, t, x, y)
  {
    hide AtomSingle, GoodAtom, GoodCount, IsText, PieceOf, AllFit, AllAtoms, Allows, Repeats, GroupLength;
    if elems[0].Rep? {
      RepDenotes(elems[0].atom, elems[0].count, ps, elems, dollar, t, x, y);
    }
  }

  /** The instruction of an atom and a count matches `k` characters if and only if they fit the atom and the
      count allows as many. */
  lemma CountedMatches(a: Atom, n: Count, t: seq<int>, x: Place, k: int)
    requires GoodAtom(a) && GoodCount(n) && IsText(t)
    ensures Meaningful([Counted(AtomItem(a), n)])
    ensures Matches(Pieces([Counted(AtomItem(a), n)]), t, x, x.Ahead(k)) <==> Allows(n, k) && AllAtoms(a, t, x.at, k)
  {
    hide AtomItem, Counted, GoodAtom, GoodCount, IsText, Allows, AllAtoms, Matches, Pieces, Meaning;
    var elems := [Rep(a, n)];
    assert elems[1..] == [] && Code([], false) == [];
    assert Code(elems, false) == [Counted(AtomItem(a), n)];
    MatchesIffDenotes(elems, false, [], 0, t, x, x.Ahead(k));
    forall m ensures Denotes(elems[1..], false, t, x.Ahead(m), x.Ahead(k)) <==> m == k {
      assert x.Ahead(m).at == x.at + m && x.Ahead(k).at == x.at + k;
    }
  }
}
