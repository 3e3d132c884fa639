/** The lazily built automaton of cmd/awk/b.c as a machine on values: at most NSTATES states are
    kept, each a list of positions, with a transition table that is filled as transitions are asked
    for and thrown away when the states run out.  The class in AwkDfa is proved to compute these
    functions; the properties of the machine are proved here and in AwkSearch. */
module AwkCache {
  import opened AwkRegex
  import opened AwkPositions
  import opened AwkAutomaton

  const NSTATES: nat := 16

  type List = seq<Position>

  /** `tab` is gototab (0: not known yet), `posns` the list of each state, `out` whether it accepts.
      State 1 is the state with no positions; slot 0 keeps the start of an anchored search. */
  datatype Cache = Cache(
    tab: seq<seq<int>>, posns: seq<List>, out: seq<bool>, curstat: int, initstat: int, reset: bool)

  ghost function Next(t: Table, l: List, c: Symbol): List {
    Desc(Step(t, Elements(l), c), |t|)
  }

  ghost predicate IsList(t: Table, l: List) {
    l == Desc(Elements(l), |t|)
  }

  /** The first of the states `i..n` with this list, or 0. */
  function Find(posns: seq<List>, l: List, i: int, n: int): (j: int)
    requires 0 < i <= n + 1 && n < |posns|
    ensures j == 0 ==> forall s :: i <= s <= n ==> posns[s] != l
    ensures j != 0 ==> i <= j <= n && posns[j] == l
    decreases n - i
  {
    if i > n then 0 else if posns[i] == l then i else Find(posns, l, i + 1, n)
  }

  function ZeroRow(): seq<int> { seq(NCHARS, _ => 0) }

  ghost predicate Sized(k: Cache) {
    && |k.tab| == |k.posns| == |k.out| == NSTATES
    && (forall s :: 0 <= s < NSTATES ==> |k.tab[s]| == NCHARS)
    && 2 <= k.curstat < NSTATES
  }

  /** cgoto: the transition from `s` on `c`, entered into the table. */
  ghost function Cgoto(t: Table, k: Cache, s: int, c: Symbol): (Cache, int)
    requires Sized(k) && 1 <= s <= k.curstat && 0 <= c < NCHARS
  {
    var next := Next(t, k.posns[s], c);
    var i := Find(k.posns, next, 1, k.curstat);
    if i != 0 then (k.(tab := k.tab[s := k.tab[s][c := i]]), i)
    else
      var full := k.curstat == NSTATES - 1;
      var n := if full then 2 else k.curstat + 1;
      var tab := k.tab[n := ZeroRow()];
      (k.(tab := tab[s := tab[s][c := n]], posns := k.posns[n := next], out := k.out[n := |t| - 1 in next],
          curstat := n, reset := k.reset || full), n)
  }

  /** A transition as the matchers take it: from the table if it is there. */
  ghost function Goto(t: Table, k: Cache, s: int, c: Symbol): (Cache, int)
    requires Sized(k) && 1 <= s <= k.curstat && 0 <= c < NCHARS
  {
    if k.tab[s][c] != 0 then (k, k.tab[s][c]) else Cgoto(t, k, s, c)
  }

  // --- the invariant ---

  ghost predicate Shape(t: Table, k: Cache) {
    && Sound(t) && Sized(k)
    && k.posns[1] == []
    && (forall s :: 1 <= s <= k.curstat ==> IsList(t, k.posns[s]) && (k.out[s] <==> |t| - 1 in k.posns[s]))
    && (forall s, c :: 1 <= s <= k.curstat && 0 <= c < NCHARS ==> 0 <= k.tab[s][c] <= k.curstat)
    && (forall c :: 0 <= c < NCHARS ==> k.tab[1][c] <= 1)
  }

  /** Every transition on a byte that is in the table is the right one. */
  ghost predicate RowsOk(t: Table, k: Cache)
    requires Sized(k)
  {
    forall s, c :: 1 <= s <= k.curstat && 0 <= c < HAT && 0 < k.tab[s][c] < NSTATES ==>
      k.posns[k.tab[s][c]] == Next(t, k.posns[s], c)
  }

  ghost predicate Flushes(t: Table, k: Cache, s: int, c: Symbol)
    requires Sized(k) && 1 <= s <= k.curstat && 0 <= c < NCHARS
  {
    k.tab[s][c] == 0 && k.curstat == NSTATES - 1 && Find(k.posns, Next(t, k.posns[s], c), 1, k.curstat) == 0
  }

  /** The one step that breaks the table.  A new list that finds the table full becomes state 2;
      when it was reached from the old state 2, the transition lands in the row of the new one,
      and says that the new state stays where it is. */
  ghost predicate Clobbers(t: Table, k: Cache, s: int, c: Symbol)
    requires Sized(k) && 1 <= s <= k.curstat && 0 <= c < NCHARS
  {
    var next := Next(t, k.posns[s], c);
    s == 2 && c != HAT && Flushes(t, k, s, c) && Next(t, next, c) != next
  }

  lemma ElementsOfDesc(s: set<Position>, n: nat)
    requires forall p :: p in s ==> 0 <= p < n
    ensures Elements(Desc(s, n)) == s
    ensures forall j :: 0 <= j < |Desc(s, n)| ==> 0 <= Desc(s, n)[j] < n
  {
    DescMembers(s, n);
    var l := Desc(s, n);
    forall j | 0 <= j < |l| ensures 0 <= l[j] < n { assert l[j] in l; }
    forall p | p in s ensures p in Elements(l) { assert p in l; }
  }

  lemma {:induction false} DescOfNone(n: nat)
    ensures Desc({}, n) == []
  {
    if n > 0 { DescOfNone(n - 1); }
  }

  lemma NextIsList(t: Table, l: List, c: Symbol)
    requires Sound(t)
    ensures IsList(t, Next(t, l, c))
    ensures Elements(Next(t, l, c)) == Step(t, Elements(l), c)
    ensures l == [] ==> Next(t, l, c) == []
  {
    StepInTable(t, Elements(l), c);
    ElementsOfDesc(Step(t, Elements(l), c), |t|);
    if l == [] {
      assert Step(t, Elements(l), c) == {};
      DescOfNone(|t|);
    }
  }

  lemma CgotoShape(t: Table, k: Cache, s: int, c: Symbol)
    requires Shape(t, k) && 1 <= s <= k.curstat && 0 <= c < NCHARS
    ensures var (k', s') := Cgoto(t, k, s, c);
            Shape(t, k') && 1 <= s' <= k'.curstat && k'.posns[s'] == Next(t, k.posns[s], c)
  {
    NextIsList(t, k.posns[s], c);
  }

  lemma CgotoRows(t: Table, k: Cache, s: int, c: Symbol)
    requires Shape(t, k) && 1 <= s <= k.curstat && 0 <= c < NCHARS && k.tab[s][c] == 0
    requires RowsOk(t, k)
    ensures RowsOk(t, Cgoto(t, k, s, c).0) <==> !Clobbers(t, k, s, c)
  {
    NextIsList(t, k.posns[s], c);
    var (k', n) := Cgoto(t, k, s, c);
    if Clobbers(t, k, s, c) {
      assert k'.tab[2][c] == 2;
    }
  }

  /** A step of a matcher, exactly: the list of the new state is always the right one, and the table
      stays right if and only if the step is not the one that clobbers it. */
  lemma GotoCorrect(t: Table, k: Cache, s: int, c: Symbol)
    requires Shape(t, k) && RowsOk(t, k) && 1 <= s <= k.curstat && 0 <= c < HAT
    ensures var (k', s') := Goto(t, k, s, c);
            && Shape(t, k') && 1 <= s' <= k'.curstat
            && k'.posns[s'] == Next(t, k.posns[s], c)
            && (RowsOk(t, k') <==> !Clobbers(t, k, s, c))
  {
    if k.tab[s][c] == 0 {
      CgotoShape(t, k, s, c);
      CgotoRows(t, k, s, c);
    }
  }
}
