/** Which patterns compile of head_m88k/regexp.h refuses, and with which number. */
module EdErrors {
  import opened EdProgram
  import opened EdParse
  import opened EdPattern
  import opened EdWriting

  // --- one turn ---

  /** The pattern may end here: the delimiter, or for others than sed a newline. */
  predicate Ends(c: int, eof: int, sed: bool) {
    c == eof || (c == Ord('\n') && !sed)
  }

  /** At a backslash that is not the delimiter stands the character `d` after it. */
  predicate Escapes(pat: seq<int>, i: int, eof: int, d: int) {
    At(pat, i) == Ord('\\') != eof && At(pat, i + 1) == d
  }

  /** Errors that one turn finds at once: a tenth group (43), `\)` without a group or an end inside one (42), a
      newline where none may be (36), a reference to a group that has not ended (25). */
  lemma TurnErrors(pat: seq<int>, i: int, st: State, eof: int, sed: bool, endbuf: int)
    requires 0 <= i && Size(st) < endbuf
    ensures var m, c := Next(pat, i, st, eof, sed, endbuf), At(pat, i);
            && (m == Fail(43) <==> Escapes(pat, i, eof, Ord('(')) && st.nbra >= 9)
            && (m == Fail(42) <==>
                  (Ends(c, eof, sed) && st.open != []) || (Escapes(pat, i, eof, Ord(')')) && st.open == []))
            && (m == Fail(36) <==>
                  (c == Ord('\n') != eof && sed) || Escapes(pat, i, eof, Ord('\n')))
            && (m == Fail(25) <==>
                  Escapes(pat, i, eof, At(pat, i + 1)) && Digit19(At(pat, i + 1))
                  && At(pat, i + 1) - Ord('1') >= st.closed)
            && (m.Done? <==> Ends(c, eof, sed) && st.open == [])
            && (m.Done? ==> m == if c == eof then Done(false, i + 1) else Done(true, i))
  {
    hide Flatten, Members, ClassItem, Bounds;
  }

  /** The buffer is full (50) at its end, and for a class when its bitmap does not fit. */
  lemma FullBuffer(pat: seq<int>, i: int, st: State, eof: int, sed: bool, endbuf: int)
    requires 0 <= i
    ensures Size(st) >= endbuf ==> Next(pat, i, st, eof, sed, endbuf) == Fail(50)
    ensures At(pat, i) == Ord('[') != eof && Size(st) + 17 >= endbuf ==> Next(pat, i, st, eof, sed, endbuf) == Fail(50)
    ensures Next(pat, i, st, eof, sed, endbuf) == Fail(50) ==>
              Size(st) >= endbuf || (At(pat, i) == Ord('[') && Size(st) + 33 >= endbuf)
  {
    hide Flatten, ClassItem, Bounds, Members;
  }

  /** Groups begun with `\(` are numbered as they come; the last one begun ends with `\)`. */
  lemma GroupTurns(pat: seq<int>, i: int, st: State, eof: int, sed: bool, endbuf: int)
    requires 0 <= i && Size(st) < endbuf
    ensures Escapes(pat, i, eof, Ord('(')) && st.nbra < 9 ==>
              var st1 := Add(st, Item(CBRA, [st.nbra], []));
              Next(pat, i, st, eof, sed, endbuf)
              == Go(i + 2, State(st1.items, st.open + [st.nbra], st.closed, st.nbra + 1))
    ensures Escapes(pat, i, eof, Ord(')')) && st.open != [] ==>
              var n := |st.open| - 1;
              var st1 := Add(st, Item(CKET, [st.open[n]], []));
              Next(pat, i, st, eof, sed, endbuf)
              == Go(i + 2, State(st1.items, st.open[..n], st.closed + 1, st.nbra))
  {
    hide Flatten, Members, ClassItem, Bounds;
  }

  // --- the whole of compile ---

  /** An empty pattern stands for the one compiled before; without one it is refused (41), by others than sed. */
  lemma EmptyPattern(pat: seq<int>, eof: int, sed: bool, endbuf: int, blank: bool)
    ensures var r, c := Compile(pat, eof, sed, endbuf, blank), At(pat, 0);
            && (r == Error(41) <==> (c == eof || c == Ord('\n')) && blank && !sed)
            && (r.Kept? <==> (c == eof || c == Ord('\n')) && (!blank || sed))
            && (r.Kept? ==> r.nodelim == (c == Ord('\n')))
  {
    hide Parse;
    if At(pat, 0) != eof && At(pat, 0) != NEWLINE {
      Codes(pat, if At(pat, 0) == CARET then 1 else 0, START, At(pat, 0) == CARET, eof, sed, endbuf);
    }
  }

  /** These are the only numbers. */
  lemma {:induction false} Codes(pat: seq<int>, i: int, st: State, circf: bool, eof: int, sed: bool, endbuf: int)
    requires 0 <= i
    ensures var r := Parse(pat, i, st, circf, eof, sed, endbuf);
            !r.Kept? && (r.Error? ==> r.code in {11, 16, 25, 36, 42, 43, 44, 45, 46, 49, 50})
    decreases if i < |pat| then |pat| - i else 0, endbuf - Size(st)
  {
    hide Next, Flatten;
    NextProgress(pat, i, st, eof, sed, endbuf);
    TurnCodes(pat, i, st, eof, sed, endbuf);
    var m := Next(pat, i, st, eof, sed, endbuf);
    if m.Go? { Codes(pat, m.next, m.st, circf, eof, sed, endbuf); }
  }

  lemma TurnCodes(pat: seq<int>, i: int, st: State, eof: int, sed: bool, endbuf: int)
    requires 0 <= i
    ensures var m := Next(pat, i, st, eof, sed, endbuf);
            m.Fail? ==> m.code in {11, 16, 25, 36, 42, 43, 44, 45, 46, 49, 50}
  {
    hide Flatten, Members, ClassItem, Bounds;
  }

  // --- intervals ---

  predicate IsFigure(c: int) { Ord('0') <= c <= Ord('9') }

  /** An interval begins with a figure (16); what follows its figures is a comma or a backslash (16). */
  lemma NoNumber(pat: seq<int>, i: int, m: nat)
    requires 0 <= i
    ensures !IsFigure(At(pat, i)) ==> Bounds(pat, i) == BadInterval(16)
    ensures var e := At(pat, i + |Decimal(m)|);
            Has(pat, i, Decimal(m)) && !IsFigure(e) && e != Ord(',') && e != Ord('\\') ==>
              Bounds(pat, i) == BadInterval(16)
  {
    hide Has, At, Decimal;
    DecimalFolds(m);
    if Has(pat, i, Decimal(m)) { DigitsStop(pat, i, Decimal(m), 0); }
  }

  lemma {:induction false} DigitsStop(pat: seq<int>, i: int, ds: seq<int>, acc: int)
    requires Has(pat, i, ds) && 0 <= i && ds != [] && forall k :: 0 <= k < |ds| ==> IsDigit(ds[k])
    ensures var e := At(pat, i + |ds|);
            !IsFigure(e) && e != Ord(',') && e != Ord('\\') ==> Digits(pat, i, acc) == BadNumber(16)
    decreases |ds|
  {
    hide Has, At;
    HasAt(pat, i, ds, 0);
    if |ds| > 1 {
      HasAt(pat, i, ds, 1);
      assert ds == [ds[0]] + ds[1..];
      HasSplit(pat, i, [ds[0]], ds[1..]);
      DigitsStop(pat, i + 1, ds[1..], 10 * acc + ds[0] - ZERO);
    }
  }

  /** No number is greater than 255 (11). */
  lemma BigNumber(pat: seq<int>, i: int, m: nat)
    requires Has(pat, i, Decimal(m)) && m > 255 && At(pat, i + |Decimal(m)|) in {Ord(','), Ord('\\')}
    ensures 0 <= i && Bounds(pat, i) == BadInterval(11)
  {
    hide Has, At, Decimal;
    DecimalFolds(m);
    HasAt(pat, i, Decimal(m), 0);
    DigitsFold(pat, i, Decimal(m), 0);
  }

  /** The backslash after the first number is followed by `}` (45). */
  lemma NoBrace(pat: seq<int>, i: int, m: nat)
    requires m <= 255 && Has(pat, i, Decimal(m))
    ensures 0 <= i
    ensures var e := i + |Decimal(m)|;
            && (At(pat, e) == Ord('\\') && At(pat, e + 1) != Ord('}') ==> Bounds(pat, i) == BadInterval(45))
            && (At(pat, e) == Ord(',') && At(pat, e + 1) == Ord('\\') && At(pat, e + 2) != Ord('}') ==>
                  Bounds(pat, i) == BadInterval(45))
  {
    hide Has, At, Decimal;
    HasAtStart(pat, i, m);
    var e := i + |Decimal(m)|;
    if At(pat, e) == Ord('\\') || At(pat, e) == Ord(',') { NumberRead(pat, i, m); }
  }

  lemma HasAtStart(pat: seq<int>, i: int, m: nat)
    requires Has(pat, i, Decimal(m))
    ensures 0 <= i && IsFigure(At(pat, i)) && Decimal(m) != []
  {
    hide At;
    DecimalFolds(m);
    HasAt(pat, i, Decimal(m), 0);
  }

  /** After the second number: no further comma (44), `}` after the backslash (45), and no smaller number than
      the first (46). */
  lemma BadUpper(pat: seq<int>, i: int, m: nat, n: nat)
    requires m <= 255 && Has(pat, i, Decimal(m) + ([Ord(',')] + Decimal(n)))
    ensures 0 <= i
    ensures var e := i + |Decimal(m)| + 1 + |Decimal(n)|;
            && (At(pat, e) in {Ord(','), Ord('\\')} && n > 255 ==> Bounds(pat, i) == BadInterval(11))
            && (At(pat, e) == Ord(',') && n <= 255 ==> Bounds(pat, i) == BadInterval(44))
            && (At(pat, e) == Ord('\\') && n <= 255 && At(pat, e + 1) != Ord('}') ==>
                  Bounds(pat, i) == BadInterval(45))
            && (At(pat, e) == Ord('\\') && At(pat, e + 1) == Ord('}') && n < m ==> Bounds(pat, i) == BadInterval(46))
  {
    hide Has, At, Decimal;
    HasSplit(pat, i, Decimal(m), [Ord(',')] + Decimal(n));
    var j := i + |Decimal(m)|;
    HasSplit(pat, j, [Ord(',')], Decimal(n));
    HasAt(pat, j, [Ord(',')], 0);
    HasAtStart(pat, i, m);
    HasAtStart(pat, j + 1, n);
    NumberRead(pat, i, m);
    var e := j + 1 + |Decimal(n)|;
    if At(pat, e) == Ord(',') || At(pat, e) == Ord('\\') {
      DecimalFolds(n);
      DigitsFold(pat, j + 1, Decimal(n), 0);
    }
  }

  // --- classes ---

  /** A class that a newline or the end of the pattern breaks off is refused (49). */
  lemma {:induction false} OpenClass(pat: seq<int>, i: int, ms: seq<Member>, lc: int, s: set<int>, wide: bool)
    requires lc >= 0 && 0 <= i && Has(pat, i, SpellMembers(ms))
    requires forall k :: 0 <= k < |ms| ==> GoodMember(ms[k], k == 0 && lc == 0, false)
    requires At(pat, i + |SpellMembers(ms)|) in {0, Ord('\n')}
    ensures Members(pat, i, lc, s, wide, true) == BadClass(49)
    decreases |ms|
  {
    hide Has, At, MemberSet, WideMember, Members;
    if ms == [] {
      BrokenOff(pat, i, lc, s, wide);
    } else {
      var m, rest := ms[0], ms[1..];
      HasSplit(pat, i, SpellMember(m), SpellMembers(rest));
      MemberRead(pat, i, m, false, lc, s, wide);
      var j := i + |SpellMember(m)|;
      assert forall k :: 0 <= k < |rest| ==> rest[k] == ms[k + 1];
      OpenClass(pat, j, rest, LastChar(m), s + MemberSet(m), wide || WideMember(m));
      NextNoBracket(pat, j, rest);
    }
  }

  lemma BrokenOff(pat: seq<int>, i: int, lc: int, s: set<int>, wide: bool)
    requires 0 <= i && At(pat, i) in {0, Ord('\n')}
    ensures Members(pat, i, lc, s, wide, true) == BadClass(49)
  {
    hide At;
  }

  lemma NextNoBracket(pat: seq<int>, i: int, ms: seq<Member>)
    requires Has(pat, i, SpellMembers(ms)) && (ms == [] ==> At(pat, i) in {0, Ord('\n')})
    requires ms != [] ==> GoodMember(ms[0], false, false)
    ensures At(pat, i) != Ord(']')
  {
    hide At, Has;
    if ms != [] {
      FirstSpelled(ms);
      HasAt(pat, i, SpellMembers(ms), 0);
    }
  }

  /** A range that runs backwards stands for its two ends. */
  lemma Backwards(pat: seq<int>, i: int, a: int, b: int, lc: int, s: set<int>, wide: bool)
    requires 0 < b < a < 256 && a != Ord('\n') && a != Ord('-') && b != Ord(']') && lc >= 0
    requires Has(pat, i, [a, Ord('-'), b]) && 0 <= i && (lc > 0 ==> a != Ord(']'))
    ensures Members(pat, i, lc, s, wide, true)
            == MoreMembers(pat, i + 3, b, s + {a} + {b}, wide || a >= 128 || b >= 128, true)
  {
    hide Has, At;
    var w := [a, Ord('-'), b];
    HasAt(pat, i, w, 0);
    HasAt(pat, i, w, 1);
    HasAt(pat, i, w, 2);
    var w1 := wide || a >= 128;
    assert Between(a, b) == {};
    assert s + {a} + Between(a, b) + {b} == s + {a} + {b};
    assert MoreMembers(pat, i + 1, a, s + {a}, w1, true) == Members(pat, i + 1, a, s + {a}, w1, true);
    assert Members(pat, i + 1, a, s + {a}, w1, true)
        == MoreMembers(pat, i + 3, b, s + {a} + Between(a, b) + {b}, w1 || b >= 128, true);
  }
}
