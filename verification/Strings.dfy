/** C strings and their order. */
module Strings {
  /** strcmp, with its result reduced to -1, 0 and 1. */
  function Strcmp(a: seq<int>, b: seq<int>): (r: int)
    ensures -1 <= r <= 1
  {
    if a == [] then (if b == [] then 0 else -1)
    else if b == [] then 1
    else if a[0] != b[0] then (if a[0] < b[0] then -1 else 1)
    else Strcmp(a[1..], b[1..])
  }

  /** At the place `k` the strings first differ: `a` ends there, or has the smaller character. */
  ghost predicate LessAt(a: seq<int>, b: seq<int>, k: int) {
    0 <= k <= |a| && k < |b| && a[..k] == b[..k] && (k == |a| || a[k] < b[k])
  }

  /** The result is negative if and only if the first string is the smaller one where they first differ. */
  lemma {:induction false} StrcmpLess(a: seq<int>, b: seq<int>)
    ensures Strcmp(a, b) < 0 <==> exists k :: LessAt(a, b, k)
    decreases |a|
  {
    if a != [] && b != [] && a[0] == b[0] {
      StrcmpLess(a[1..], b[1..]);
      if k :| LessAt(a[1..], b[1..], k) {
        assert a[..k + 1] == [a[0]] + a[1..][..k] && b[..k + 1] == [b[0]] + b[1..][..k];
        assert LessAt(a, b, k + 1);
      }
      if k :| LessAt(a, b, k) {
        assert k > 0;
        assert a[1..][..k - 1] == a[..k][1..] && b[1..][..k - 1] == b[..k][1..];
        assert LessAt(a[1..], b[1..], k - 1);
      }
    } else {
      assert Strcmp(a, b) < 0 ==> LessAt(a, b, 0);
    }
  }

  lemma {:induction false} StrcmpLaws(a: seq<int>, b: seq<int>)
    ensures Strcmp(a, b) == 0 <==> a == b
    ensures Strcmp(b, a) == -Strcmp(a, b)
  {
    if a != [] && b != [] && a[0] == b[0] {
      StrcmpLaws(a[1..], b[1..]);
      assert a == [a[0]] + a[1..] && b == [b[0]] + b[1..];
    }
  }

  lemma {:induction false} StrcmpTransitive(a: seq<int>, b: seq<int>, c: seq<int>)
    requires Strcmp(a, b) <= 0 && Strcmp(b, c) <= 0
    ensures Strcmp(a, c) <= 0 && (Strcmp(a, c) == 0 ==> Strcmp(a, b) == 0 && Strcmp(b, c) == 0)
  {
    if a != [] && b != [] && c != [] && a[0] == b[0] == c[0] {
      StrcmpTransitive(a[1..], b[1..], c[1..]);
    }
  }

  lemma Order(a: seq<int>, b: seq<int>, c: seq<int>)
    ensures Strcmp(a, b) <= 0 && Strcmp(b, c) <= 0 ==> Strcmp(a, c) <= 0
    ensures Strcmp(a, b) <= 0 && Strcmp(b, c) <= 0 && Strcmp(a, c) == 0 ==> Strcmp(a, b) == 0 && Strcmp(b, c) == 0
    ensures Strcmp(b, a) == -Strcmp(a, b) && Strcmp(c, b) == -Strcmp(b, c) && Strcmp(c, a) == -Strcmp(a, c)
  {
    hide Strcmp;
    StrcmpLaws(a, b);
    StrcmpLaws(b, c);
    StrcmpLaws(a, c);
    if Strcmp(a, b) <= 0 && Strcmp(b, c) <= 0 { StrcmpTransitive(a, b, c); }
  }
}
