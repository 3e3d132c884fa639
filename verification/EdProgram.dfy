/** The byte code of the ed-style expressions of head_m88k/regexp.h, and what a program matches. */
module EdProgram {
  import opened Wrappers

  const CBRA: int := 2
  const CCHR: int := 4
  const CDOT: int := 8
  const CCL: int := 12
  const CXCL: int := 16
  const CDOL: int := 20
  const CCEOF: int := 22
  const CKET: int := 24
  const CBACK: int := 36
  const NCCL: int := 40

  const STAR: int := 1
  const RNGE: int := 3

  /** The length of braslist and braelist. */
  const NGROUPS: int := 9

  // --- bitmaps ---

  /** Bit `k` of a byte: `bittab[k]` is 2 to the k. */
  predicate HasBit(b: int, k: int) {
    match k
    case 0 => b % 2 == 1
    case 1 => b / 2 % 2 == 1
    case 2 => b / 4 % 2 == 1
    case 3 => b / 8 % 2 == 1
    case 4 => b / 16 % 2 == 1
    case 5 => b / 32 % 2 == 1
    case 6 => b / 64 % 2 == 1
    case _ => b / 128 % 2 == 1
  }

  predicate IsByte(b: int) { 0 <= b < 256 }

  /** ISTHERE: the bit of `c` in a bitmap. */
  predicate IsThere(bits: seq<int>, c: int) {
    0 <= c < 8 * |bits| && HasBit(bits[c / 8], c % 8)
  }

  // --- programs ---

  /** An instruction as it lies in the buffer: the opcode with its STAR or RNGE bits, its operand, and
      the bytes of the intervals after it. */
  datatype Item = Item(op: int, arg: seq<int>, tail: seq<int>)

  function Bytes(x: Item): (b: seq<int>)
    ensures |b| == 1 + |x.arg| + |x.tail|
  {
    [x.op] + x.arg + x.tail
  }

  function Flatten(items: seq<Item>): seq<int> {
    if items == [] then [] else Bytes(items[0]) + Flatten(items[1..])
  }

  /** What one instruction tests a character for. */
  datatype Single = Chr(c: int) | Dot | Class(kind: int, bits: seq<int>)

  datatype Piece = Once(s: Single) | Any(s: Single) | Times(s: Single, low: int, high: int) | End
    | Enter(n: int) | Leave(n: int) | Again(n: int)

  /** The single test of an opcode without its STAR and RNGE bits. */
  function SingleOf(base: int, arg: seq<int>): Option<Single> {
    if base == CCHR && |arg| == 1 then Some(Chr(arg[0]))
    else if base == CDOT && arg == [] then Some(Dot)
    else if (base == CCL || base == NCCL) && |arg| == 16 then Some(Class(base, arg))
    else if base == CXCL && |arg| == 32 then Some(Class(base, arg))
    else None
  }

  /** What an instruction means; a repeated back-reference and instructions garbled by an interval mean
      nothing here. */
  function Meaning(x: Item): Option<Piece> {
    if x.op == CDOL && x.arg == [] && x.tail == [] then Some(End)
    else if (x.op == CBRA || x.op == CKET || x.op == CBACK) && |x.arg| == 1 && 0 <= x.arg[0] < NGROUPS
        && x.tail == [] then
      Some(if x.op == CBRA then Enter(x.arg[0]) else if x.op == CKET then Leave(x.arg[0]) else Again(x.arg[0]))
    else
      var s := SingleOf(x.op - x.op % 4, x.arg);
      if s.None? then None
      else if x.op % 4 == 0 && x.tail == [] then Some(Once(s.value))
      else if x.op % 4 == STAR && x.tail == [] then Some(Any(s.value))
      else if x.op % 4 == RNGE && |x.tail| == 2 && 0 <= x.tail[0] <= x.tail[1] < 256
          then Some(Times(s.value, x.tail[0], x.tail[1]))
      else None
  }

  predicate Meaningful(items: seq<Item>) {
    forall i :: 0 <= i < |items| ==> Meaning(items[i]).Some?
  }

  function Pieces(items: seq<Item>): (p: seq<Piece>)
    requires Meaningful(items)
    ensures |p| == |items|
  {
    if items == [] then [] else [Meaning(items[0]).value] + Pieces(items[1..])
  }

  // --- what a program matches ---

  /** The subject: characters, and the NUL that ends it. */
  ghost predicate IsText(t: seq<int>) {
    |t| > 0 && t[|t| - 1] == 0 && forall i :: 0 <= i < |t| - 1 ==> 0 < t[i] < 256
  }

  predicate Fits(s: Single, c: int) {
    match s
    case Chr(d) => c == d
    case Dot => c != 0
    case Class(kind, bits) =>
      if kind == CXCL then IsThere(bits, c)
      else if kind == CCL then c < 128 && IsThere(bits, c)
      else !(c < 128 && IsThere(bits, c))
  }

  /** No test accepts the NUL: the matcher relies on this to stop there. */
  predicate StopsAtNul(p: Piece) {
    match p
    case Once(s) => !Fits(s, 0)
    case Any(s) => !Fits(s, 0)
    case Times(s, _, _) => !Fits(s, 0)
    case _ => true
  }

  predicate Safe(ps: seq<Piece>) { forall i :: 0 <= i < |ps| ==> StopsAtNul(ps[i]) }

  /** How many repetitions an interval allows: 255 as the upper number means 20000 more than the lower. */
  function Upper(low: int, high: int): int {
    if high == 255 then low + 20000 else high
  }

  ghost predicate AllFit(s: Single, t: seq<int>, i: int, m: int) {
    0 <= i && 0 <= m && i + m <= |t| && forall k :: i <= k < i + m ==> Fits(s, t[k])
  }

  /** Where each group begins and ends: `braslist` and `braelist`. */
  datatype Groups = Groups(starts: seq<int>, ends: seq<int>)

  function With(s: seq<int>, n: int, i: int): (r: seq<int>)
    ensures |r| == |s|
  {
    if 0 <= n < |s| then s[n := i] else s
  }

  /** A place in the text, and the groups so far. */
  datatype Place = Place(at: int, groups: Groups) {
    function Ahead(m: int): Place { Place(at + m, groups) }
    function Entered(n: int): Place { Place(at, groups.(starts := With(groups.starts, n, at))) }
    function Left(n: int): Place { Place(at, groups.(ends := With(groups.ends, n, at))) }
  }

  /** How long the text of a group is. */
  function GroupLength(g: Groups, n: int): int {
    if 0 <= n < |g.starts| && n < |g.ends| then g.ends[n] - g.starts[n] else 0
  }

  predicate Known(t: seq<int>, g: Groups, n: int) {
    0 <= n < |g.starts| && n < |g.ends| && 0 <= g.starts[n] <= g.ends[n] <= |t|
  }

  /** The text of the group stands here once more. */
  predicate Repeats(t: seq<int>, x: Place, n: int) {
    && Known(t, x.groups, n) && 0 <= x.at && x.at + GroupLength(x.groups, n) <= |t|
    && t[x.at..x.at + GroupLength(x.groups, n)] == t[x.groups.starts[n]..x.groups.ends[n]]
  }

  /** The pieces, one after the other, match from the place `x` to the place `y`. */
  ghost predicate Matches(ps: seq<Piece>, t: seq<int>, x: Place, y: Place)
    decreases |ps|
  {
    if ps == [] then x == y
    else
      match ps[0]
      case Once(s) => AllFit(s, t, x.at, 1) && Matches(ps[1..], t, x.Ahead(1), y)
      case Any(s) => exists m :: AllFit(s, t, x.at, m) && Matches(ps[1..], t, x.Ahead(m), y)
      case Times(s, low, high) =>
        exists m :: 0 <= low <= m <= Upper(low, high) && AllFit(s, t, x.at, m) && Matches(ps[1..], t, x.Ahead(m), y)
      case End => 0 <= x.at < |t| && t[x.at] == 0 && Matches(ps[1..], t, x, y)
      case Enter(n) => Matches(ps[1..], t, x.Entered(n), y)
      case Leave(n) => Matches(ps[1..], t, x.Left(n), y)
      case Again(n) => Repeats(t, x, n) && Matches(ps[1..], t, x.Ahead(GroupLength(x.groups, n)), y)
  }

  /** The number of characters from `i` on that fit, `n` at most. */
  function RunLength(s: Single, t: seq<int>, i: int, n: int): (m: int)
    requires 0 <= i <= |t| && n >= 0
    ensures 0 <= m <= n && i + m <= |t|
    decreases n
  {
    if n == 0 || i == |t| || !Fits(s, t[i]) then 0 else 1 + RunLength(s, t, i + 1, n - 1)
  }

  /** The end the matcher finds, with the groups it leaves: each repetition takes as much as it can and
      gives back one at a time. */
  function Greedy(ps: seq<Piece>, t: seq<int>, x: Place): Option<Place>
    requires 0 <= x.at <= |t|
    decreases |ps|, 0
  {
    if ps == [] then Some(x)
    else
      match ps[0]
      case Once(s) => if x.at < |t| && Fits(s, t[x.at]) then Greedy(ps[1..], t, x.Ahead(1)) else None
      case Any(s) => GiveBack(ps, t, x.groups, x.at, x.at + RunLength(s, t, x.at, |t| - x.at))
      case Times(s, low, high) =>
        if low < 0 || low > Upper(low, high) || RunLength(s, t, x.at, low) < low then None
        else
          var lo := x.at + low;
          GiveBack(ps, t, x.groups, lo, lo + RunLength(s, t, lo, Upper(low, high) - low))
      case End => if x.at < |t| && t[x.at] == 0 then Greedy(ps[1..], t, x) else None
      case Enter(n) => Greedy(ps[1..], t, x.Entered(n))
      case Leave(n) => Greedy(ps[1..], t, x.Left(n))
      case Again(n) => if Repeats(t, x, n) then Greedy(ps[1..], t, x.Ahead(GroupLength(x.groups, n))) else None
  }

  /** The rest of the pieces from `hi`, then `hi - 1`, down to `lo`. */
  function GiveBack(ps: seq<Piece>, t: seq<int>, g: Groups, lo: int, hi: int): Option<Place>
    requires ps != [] && 0 <= lo <= hi <= |t|
    decreases |ps| - 1, 1, hi - lo
  {
    var r := Greedy(ps[1..], t, Place(hi, g));
    if r.Some? || hi == lo then r else GiveBack(ps, t, g, lo, hi - 1)
  }

  lemma NoneFit(s: Single, t: seq<int>, i: int, m: int)
    requires 0 <= i <= |t|
    ensures AllFit(s, t, i, m) ==> 0 <= m <= |t| - i
    ensures m == 0 ==> AllFit(s, t, i, m)
  {
  }

  /** A run that is not empty begins with a character that fits, and the rest of it is a run. */
  lemma FirstFits(s: Single, t: seq<int>, i: int, m: int)
    requires 0 <= i < |t| && m > 0
    ensures AllFit(s, t, i, m) <==> Fits(s, t[i]) && AllFit(s, t, i + 1, m - 1)
  {
    hide Fits;
    if AllFit(s, t, i, m) {
      assert Fits(s, t[i]);
    }
    if Fits(s, t[i]) && AllFit(s, t, i + 1, m - 1) {
      forall j | i <= j < i + m ensures Fits(s, t[j]) {
        assert j == i || i + 1 <= j < i + 1 + (m - 1);
      }
    }
  }

  lemma {:induction false} RunFits(s: Single, t: seq<int>, i: int, n: int)
    requires 0 <= i <= |t| && n >= 0
    ensures forall m :: AllFit(s, t, i, m) && m <= n <==> 0 <= m <= RunLength(s, t, i, n)
    decreases n
  {
    hide AllFit;
    if n > 0 && i < |t| && Fits(s, t[i]) {
      RunFits(s, t, i + 1, n - 1);
    }
    forall m ensures AllFit(s, t, i, m) && m <= n <==> 0 <= m <= RunLength(s, t, i, n) {
      NoneFit(s, t, i, m);
      if i < |t| && m > 0 {
        FirstFits(s, t, i, m);
      }
    }
  }

  /** Soundness: the end found is the end of a match. */
  lemma {:induction false} GreedySound(ps: seq<Piece>, t: seq<int>, x: Place)
    requires 0 <= x.at <= |t| && Greedy(ps, t, x).Some?
    ensures Matches(ps, t, x, Greedy(ps, t, x).value)
    decreases |ps|, 0
  {
    if ps != [] {
      var i := x.at;
      match ps[0]
      case Once(s) => GreedySound(ps[1..], t, x.Ahead(1));
      case Any(s) =>
        RunFits(s, t, i, |t| - i);
        var h := GiveBackSound(ps, t, x.groups, i, i + RunLength(s, t, i, |t| - i));
        assert AllFit(s, t, i, h - i) && x.Ahead(h - i) == Place(h, x.groups);
      case Times(s, low, high) =>
        var more := Upper(low, high) - low;
        RunFits(s, t, i, low);
        RunFits(s, t, i + low, more);
        var h := GiveBackSound(ps, t, x.groups, i + low, i + low + RunLength(s, t, i + low, more));
        assert AllFit(s, t, i, low) && AllFit(s, t, i + low, h - i - low);
        assert AllFit(s, t, i, h - i) && x.Ahead(h - i) == Place(h, x.groups);
      case End => GreedySound(ps[1..], t, x);
      case Enter(n) => GreedySound(ps[1..], t, x.Entered(n));
      case Leave(n) => GreedySound(ps[1..], t, x.Left(n));
      case Again(n) => GreedySound(ps[1..], t, x.Ahead(GroupLength(x.groups, n)));
    }
  }

  lemma {:induction false} GiveBackSound(ps: seq<Piece>, t: seq<int>, g: Groups, lo: int, hi: int) returns (h: int)
    requires ps != [] && 0 <= lo <= hi <= |t| && GiveBack(ps, t, g, lo, hi).Some?
    ensures lo <= h <= hi && Matches(ps[1..], t, Place(h, g), GiveBack(ps, t, g, lo, hi).value)
    decreases |ps| - 1, 1, hi - lo
  {
    if Greedy(ps[1..], t, Place(hi, g)).Some? {
      GreedySound(ps[1..], t, Place(hi, g));
      h := hi;
    } else {
      h := GiveBackSound(ps, t, g, lo, hi - 1);
    }
  }

  /** Completeness: where there is a match, one is found. */
  lemma {:induction false} GreedyComplete(ps: seq<Piece>, t: seq<int>, x: Place, y: Place)
    requires 0 <= x.at <= |t| && Matches(ps, t, x, y)
    ensures Greedy(ps, t, x).Some?
    decreases |ps|, 0
  {
    hide RunLength, Fits, GiveBack;
    if ps != [] {
      var i := x.at;
      match ps[0]
      case Once(s) => GreedyComplete(ps[1..], t, x.Ahead(1), y);
      case Any(s) =>
        var m :| AllFit(s, t, i, m) && Matches(ps[1..], t, x.Ahead(m), y);
        RunFits(s, t, i, |t| - i);
        assert x.Ahead(m) == Place(i + m, x.groups);
        GiveBackComplete(ps, t, x.groups, i, i + RunLength(s, t, i, |t| - i), i + m, y);
      case Times(s, low, high) =>
        var m :| 0 <= low <= m <= Upper(low, high) && AllFit(s, t, i, m) && Matches(ps[1..], t, x.Ahead(m), y);
        TimesInRange(s, t, i, low, high, m);
        assert x.Ahead(m) == Place(i + m, x.groups);
        GiveBackComplete(ps, t, x.groups, i + low, i + low + RunLength(s, t, i + low, Upper(low, high) - low), i + m,
            y);
      case End => GreedyComplete(ps[1..], t, x, y);
      case Enter(n) => GreedyComplete(ps[1..], t, x.Entered(n), y);
      case Leave(n) => GreedyComplete(ps[1..], t, x.Left(n), y);
      case Again(n) => GreedyComplete(ps[1..], t, x.Ahead(GroupLength(x.groups, n)), y);
    }
  }

  lemma TimesInRange(s: Single, t: seq<int>, i: int, low: int, high: int, m: int)
    requires 0 <= i <= |t| && 0 <= low <= m <= Upper(low, high) && AllFit(s, t, i, m)
    ensures RunLength(s, t, i, low) == low
    ensures i + low <= |t| && m - low <= RunLength(s, t, i + low, Upper(low, high) - low)
  {
    RunFits(s, t, i, low);
    assert AllFit(s, t, i, low);
    RunFits(s, t, i + low, Upper(low, high) - low);
    assert AllFit(s, t, i + low, m - low);
  }

  lemma {:induction false} GiveBackComplete(ps: seq<Piece>, t: seq<int>, g: Groups, lo: int, hi: int, h: int, y: Place)
    requires ps != [] && 0 <= lo <= h <= hi <= |t| && Matches(ps[1..], t, Place(h, g), y)
    ensures GiveBack(ps, t, g, lo, hi).Some?
    decreases |ps| - 1, 1, hi - lo
  {
    if h == hi {
      GreedyComplete(ps[1..], t, Place(h, g), y);
    } else if Greedy(ps[1..], t, Place(hi, g)).None? {
      GiveBackComplete(ps, t, g, lo, hi - 1, h, y);
    }
  }

  /** `t[x.at..h]` is the longest run of `lo` to `hi` characters after which the rest matches at all, and
      the search goes on with the rest from `h`. */
  ghost predicate Longest(s: Single, lo: int, hi: int, rest: seq<Piece>, t: seq<int>, x: Place, h: int,
      found: Option<Place>) {
    && 0 <= h <= |t| && lo <= h - x.at <= hi && AllFit(s, t, x.at, h - x.at)
    && Greedy(rest, t, Place(h, x.groups)) == found
    && forall e :: h < e <= x.at + hi && AllFit(s, t, x.at, e - x.at) ==> NoMatch(rest, t, Place(e, x.groups))
  }

  ghost predicate NoMatch(ps: seq<Piece>, t: seq<int>, x: Place) {
    forall y :: !Matches(ps, t, x, y)
  }

  /** Longest first: the end found for `x* rest` is the end found for the rest after the largest number
      of repetitions that lets the rest match at all. */
  lemma LongestFirst(s: Single, rest: seq<Piece>, t: seq<int>, x: Place) returns (h: int)
    requires 0 <= x.at <= |t| && Greedy([Any(s)] + rest, t, x).Some?
    ensures Longest(s, 0, |t| - x.at, rest, t, x, h, Greedy([Any(s)] + rest, t, x))
  {
    hide Matches;
    var ps, i := [Any(s)] + rest, x.at;
    assert ps[1..] == rest;
    RunFits(s, t, i, |t| - i);
    h := GiveBackFirst(ps, t, x.groups, i, i + RunLength(s, t, i, |t| - i));
    NoneMatches(rest, t, x.groups, h, i + RunLength(s, t, i, |t| - i));
  }

  /** And so for an interval, within its bounds. */
  lemma IntervalLongestFirst(s: Single, low: int, high: int, rest: seq<Piece>, t: seq<int>, x: Place) returns (h: int)
    requires 0 <= x.at <= |t| && Greedy([Times(s, low, high)] + rest, t, x).Some?
    ensures Longest(s, low, Upper(low, high), rest, t, x, h, Greedy([Times(s, low, high)] + rest, t, x))
  {
    hide Matches, Upper;
    var ps, i := [Times(s, low, high)] + rest, x.at;
    assert ps[1..] == rest;
    var lo, more := i + low, Upper(low, high) - low;
    RunFits(s, t, i, low);
    RunFits(s, t, lo, more);
    h := GiveBackFirst(ps, t, x.groups, lo, lo + RunLength(s, t, lo, more));
    NoneMatches(rest, t, x.groups, h, lo + RunLength(s, t, lo, more));
    assert AllFit(s, t, i, low) && AllFit(s, t, lo, h - lo);
    forall e | h < e <= i + Upper(low, high) && AllFit(s, t, i, e - i) ensures NoMatch(rest, t, Place(e, x.groups)) {
      assert AllFit(s, t, lo, e - lo);
    }
  }

  /** Where the search finds nothing, nothing matches. */
  lemma NoneMatches(rest: seq<Piece>, t: seq<int>, g: Groups, h: int, hi: int)
    requires 0 <= h && hi <= |t| && forall e :: h < e <= hi ==> Greedy(rest, t, Place(e, g)).None?
    ensures forall e :: h < e <= hi ==> NoMatch(rest, t, Place(e, g))
  {
    hide Greedy, Matches;
    forall e, y | h < e <= hi ensures !Matches(rest, t, Place(e, g), y) {
      assert Greedy(rest, t, Place(e, g)).None?;
      if Matches(rest, t, Place(e, g), y) { GreedyComplete(rest, t, Place(e, g), y); }
    }
  }

  lemma {:induction false} GiveBackFirst(ps: seq<Piece>, t: seq<int>, g: Groups, lo: int, hi: int) returns (h: int)
    requires ps != [] && 0 <= lo <= hi <= |t| && GiveBack(ps, t, g, lo, hi).Some?
    ensures lo <= h <= hi && GiveBack(ps, t, g, lo, hi) == Greedy(ps[1..], t, Place(h, g))
    ensures forall e :: h < e <= hi ==> Greedy(ps[1..], t, Place(e, g)).None?
    decreases hi - lo
  {
    h := hi;
    if Greedy(ps[1..], t, Place(hi, g)).None? {
      h := GiveBackFirst(ps, t, g, lo, hi - 1);
    }
  }

  /** The matcher succeeds exactly where the pieces match some prefix of the rest of the text. */
  lemma GreedyIffMatches(ps: seq<Piece>, t: seq<int>, x: Place)
    requires 0 <= x.at <= |t|
    ensures Greedy(ps, t, x).Some? <==> exists y :: Matches(ps, t, x, y)
    ensures Greedy(ps, t, x).Some? ==> Matches(ps, t, x, Greedy(ps, t, x).value)
  {
    if Greedy(ps, t, x).Some? {
      GreedySound(ps, t, x);
      var y := Greedy(ps, t, x).value;
      assert Matches(ps, t, x, y);
    } else {
      forall y ensures !Matches(ps, t, x, y) {
        if Matches(ps, t, x, y) { GreedyComplete(ps, t, x, y); }
      }
    }
  }

  // --- groups ---

  /** Every group is entered once, left once after that, and referred to only after that.  `open` are the
      groups entered so far, `done` those left. */
  predicate Scoped(ps: seq<Piece>, open: set<int>, done: set<int>) {
    if ps == [] then true
    else
      match ps[0]
      case Enter(n) => 0 <= n < NGROUPS && n !in open && n !in done && Scoped(ps[1..], open + {n}, done)
      case Leave(n) => n in open && n !in done && Scoped(ps[1..], open - {n}, done + {n})
      case Again(n) => n in done && Scoped(ps[1..], open, done)
      case _ => Scoped(ps[1..], open, done)
  }

  predicate Enters(ps: seq<Piece>, n: int) { exists k :: 0 <= k < |ps| && ps[k] == Enter(n) }

  predicate Leaves(ps: seq<Piece>, n: int) { exists k :: 0 <= k < |ps| && ps[k] == Leave(n) }

  /** The two differ at most in what `ps` writes. */
  ghost predicate SameBut(g: Groups, h: Groups, ps: seq<Piece>) {
    && |g.starts| == |g.ends| == |h.starts| == |h.ends| == NGROUPS
    && (forall n :: 0 <= n < NGROUPS && !Enters(ps, n) ==> g.starts[n] == h.starts[n])
    && (forall n :: 0 <= n < NGROUPS && !Leaves(ps, n) ==> g.ends[n] == h.ends[n])
  }

  lemma WritesRest(ps: seq<Piece>, n: int)
    requires ps != []
    ensures Enters(ps, n) <==> ps[0] == Enter(n) || Enters(ps[1..], n)
    ensures Leaves(ps, n) <==> ps[0] == Leave(n) || Leaves(ps[1..], n)
  {
    var rest := ps[1..];
    if Enters(rest, n) {
      var k :| 0 <= k < |rest| && rest[k] == Enter(n);
      assert ps[k + 1] == Enter(n);
    }
    if Leaves(rest, n) {
      var k :| 0 <= k < |rest| && rest[k] == Leave(n);
      assert ps[k + 1] == Leave(n);
    }
    if Enters(ps, n) {
      var k :| 0 <= k < |ps| && ps[k] == Enter(n);
      assert k > 0 ==> rest[k - 1] == Enter(n);
    }
    if Leaves(ps, n) {
      var k :| 0 <= k < |ps| && ps[k] == Leave(n);
      assert k > 0 ==> rest[k - 1] == Leave(n);
    }
  }

  /** A group that is done is not written again, and one that is open not entered again. */
  lemma {:induction false} NotWritten(ps: seq<Piece>, open: set<int>, done: set<int>, n: int)
    requires Scoped(ps, open, done)
    ensures n in open + done ==> !Enters(ps, n)
    ensures n in done ==> !Leaves(ps, n)
    decreases |ps|
  {
    hide Enters, Leaves;
    if ps == [] {
      NothingWritten(n);
    } else {
      WritesRest(ps, n);
      match ps[0]
      case Enter(m) => NotWritten(ps[1..], open + {m}, done, n);
      case Leave(m) => NotWritten(ps[1..], open - {m}, done + {m}, n);
      case _ => NotWritten(ps[1..], open, done, n);
    }
  }

  lemma NothingWritten(n: int)
    ensures !Enters([], n) && !Leaves([], n)
  {
  }

  /** Groups that the pieces write themselves do not matter for what they find. */
  lemma {:induction false} GreedySame(ps: seq<Piece>, t: seq<int>, x: Place, y: Place, open: set<int>, done: set<int>)
    requires Scoped(ps, open, done) && 0 <= x.at == y.at <= |t| && SameBut(x.groups, y.groups, ps)
    ensures Greedy(ps, t, x) == Greedy(ps, t, y)
    decreases |ps|, 0
  {
    hide RunLength, Fits, Enters, Leaves;
    if ps == [] {
      SameAll(x.groups, y.groups);
    } else {
      SameRest(x, y, ps);
      match ps[0]
      case Once(s) => if x.at < |t| && Fits(s, t[x.at]) { GreedySame(ps[1..], t, x.Ahead(1), y.Ahead(1), open, done); }
      case Any(s) =>
        GiveBackSame(ps, t, x.groups, y.groups, x.at, x.at + RunLength(s, t, x.at, |t| - x.at), open, done);
      case Times(s, low, high) =>
        if !(low < 0 || low > Upper(low, high) || RunLength(s, t, x.at, low) < low) {
          var lo := x.at + low;
          GiveBackSame(ps, t, x.groups, y.groups, lo, lo + RunLength(s, t, lo, Upper(low, high) - low), open, done);
        }
      case End => GreedySame(ps[1..], t, x, y, open, done);
      case Enter(n) => GreedySame(ps[1..], t, x.Entered(n), y.Entered(n), open + {n}, done);
      case Leave(n) => GreedySame(ps[1..], t, x.Left(n), y.Left(n), open - {n}, done + {n});
      case Again(n) =>
        NotWritten(ps, open, done, n);
        var m := GroupLength(x.groups, n);
        assert m == GroupLength(y.groups, n);
        if Repeats(t, x, n) { GreedySame(ps[1..], t, x.Ahead(m), y.Ahead(m), open, done); }
    }
  }

  lemma {:induction false} GiveBackSame(ps: seq<Piece>, t: seq<int>, g: Groups, h: Groups, lo: int, hi: int,
      open: set<int>, done: set<int>)
    requires ps != [] && Scoped(ps[1..], open, done) && 0 <= lo <= hi <= |t| && SameBut(g, h, ps[1..])
    ensures GiveBack(ps, t, g, lo, hi) == GiveBack(ps, t, h, lo, hi)
    decreases |ps| - 1, 1, hi - lo
  {
    GreedySame(ps[1..], t, Place(hi, g), Place(hi, h), open, done);
    if lo < hi { GiveBackSame(ps, t, g, h, lo, hi - 1, open, done); }
  }

  lemma SameAll(g: Groups, h: Groups)
    requires SameBut(g, h, [])
    ensures g == h
  {
    forall n | 0 <= n < NGROUPS ensures g.starts[n] == h.starts[n] && g.ends[n] == h.ends[n] { NothingWritten(n); }
  }

  /** What the first piece writes becomes the same. */
  lemma SameRest(x: Place, y: Place, ps: seq<Piece>)
    requires ps != [] && x.at == y.at && SameBut(x.groups, y.groups, ps)
    ensures match ps[0]
            case Enter(n) => SameBut(x.Entered(n).groups, y.Entered(n).groups, ps[1..])
            case Leave(n) => SameBut(x.Left(n).groups, y.Left(n).groups, ps[1..])
            case _ => SameBut(x.groups, y.groups, ps[1..])
  {
    hide Enters, Leaves;
    forall n ensures Enters(ps, n) <==> ps[0] == Enter(n) || Enters(ps[1..], n) { WritesRest(ps, n); }
    forall n ensures Leaves(ps, n) <==> ps[0] == Leave(n) || Leaves(ps[1..], n) { WritesRest(ps, n); }
  }
}
