/** The regular expressions of awk (cmd/awk/b.c) and the language each one denotes.

    A symbol is a number below NCHARS: a byte, or HAT (256), the symbol that stands for the start of the
    subject.  NUL (0) is fed after the last byte of the subject and plays the part
    of `$`. */
module AwkRegex {
  import opened Sequences

  const NCHARS: nat := 257
  const HAT: nat := 256

  type Symbol = int
  type Word = seq<Symbol>

  /** A byte of a character class.  Classes are C strings, so NUL is not in one. */
  type ClassByte = c: int | 0 < c < 256 witness 1

  /** The leaf kinds of a parse tree.  CHAR may hold any number: `\400` is HAT and
      `\777` is a number that no symbol equals. */
  datatype Leaf = Chr(code: int) | Dot | All | Ccl(bytes: seq<ClassByte>) | Nccl(bytes: seq<ClassByte>) | Final

  datatype Regex =
    | Atom(leaf: Leaf)
    | Star(body: Regex)
    | Plus(body: Regex)
    | Quest(body: Regex)
    | Cat(left: Regex, right: Regex)
    | Or(left: Regex, right: Regex)

  /** `member` takes its symbol as an unsigned char: HAT is looked up as NUL, which no class holds. */
  predicate InClass(c: Symbol, bytes: seq<ClassByte>) {
    exists i :: 0 <= i < |bytes| && bytes[i] == c % 256
  }

  /** The symbols a leaf consumes. */
  predicate Consumes(leaf: Leaf, c: Symbol) {
    match leaf
    case Chr(code) => c == code
    case Dot => c != 0 && c != HAT
    case All => c != 0
    case Ccl(bytes) => InClass(c, bytes)
    case Nccl(bytes) => !InClass(c, bytes) && c != 0 && c != HAT
    case Final => false
  }

  /** The parser turns `()` into a character class with no bytes: it denotes the empty word. */
  predicate IsEmptyClass(leaf: Leaf) {
    leaf.Ccl? && leaf.bytes == []
  }

  /** Membership of a word in the language of an expression. */
  ghost predicate In(r: Regex, w: Word)
    decreases r, |w|, 0
  {
    match r
    case Atom(leaf) =>
      if IsEmptyClass(leaf) then w == [] else |w| == 1 && Consumes(leaf, w[0])
    case Star(body) => InStar(body, w)
    case Plus(body) => exists k :: 0 <= k <= |w| && In(body, w[..k]) && InStar(body, w[k..])
    case Quest(body) => w == [] || In(body, w)
    case Cat(left, right) => exists k :: 0 <= k <= |w| && In(left, w[..k]) && In(right, w[k..])
    case Or(left, right) => In(left, w) || In(right, w)
  }

  /** The words that are zero or more pieces, each a word of `r`.  Empty pieces add nothing, so
      only non-empty ones are counted off. */
  ghost predicate InStar(r: Regex, w: Word)
    decreases r, |w|, 1
  {
    w == [] || exists k :: 0 < k <= |w| && In(r, w[..k]) && InStar(r, w[k..])
  }

  predicate NoFinal(r: Regex) {
    match r
    case Atom(leaf) => !leaf.Final?
    case Star(body) => NoFinal(body)
    case Plus(body) => NoFinal(body)
    case Quest(body) => NoFinal(body)
    case Cat(left, right) => NoFinal(left) && NoFinal(right)
    case Or(left, right) => NoFinal(left) && NoFinal(right)
  }

  // --- taking words apart and putting them together ---

  lemma SplitCat(l: Regex, r: Regex, w: Word) returns (x: Word, y: Word)
    requires In(Cat(l, r), w)
    ensures w == x + y && In(l, x) && In(r, y)
  {
    var k :| 0 <= k <= |w| && In(l, w[..k]) && In(r, w[k..]);
    x, y := w[..k], w[k..];
  }

  lemma SplitPlus(r: Regex, w: Word) returns (x: Word, y: Word)
    requires In(Plus(r), w)
    ensures w == x + y && In(r, x) && InStar(r, y)
  {
    var k :| 0 <= k <= |w| && In(r, w[..k]) && InStar(r, w[k..]);
    x, y := w[..k], w[k..];
  }

  lemma SplitStar(r: Regex, w: Word) returns (x: Word, y: Word)
    requires w != [] && InStar(r, w)
    ensures w == x + y && x != [] && In(r, x) && InStar(r, y)
  {
    var k :| 0 < k <= |w| && In(r, w[..k]) && InStar(r, w[k..]);
    x, y := w[..k], w[k..];
  }

  /** One more piece in front, empty or not, stays in the closure. */
  lemma StarPrepend(r: Regex, a: Word, x: Word)
    requires In(r, a) && InStar(r, x)
    ensures InStar(r, a + x)
  {
    if a == [] {
      assert a + x == x;
    } else {
      var w := a + x;
      assert w[..|a|] == a && w[|a|..] == x;
    }
  }

  /** The closure is the repeated concatenation one expects: it is closed under concatenation. */
  lemma {:induction false} StarConcat(r: Regex, x: Word, y: Word)
    requires InStar(r, x) && InStar(r, y)
    ensures InStar(r, x + y)
    decreases |x|
  {
    if x == [] {
      assert x + y == y;
    } else {
      var x1, x2 := SplitStar(r, x);
      StarConcat(r, x2, y);
      StarPrepend(r, x1, x2 + y);
      Assoc(x1, x2, y);
    }
  }

  /** A word assembled from two parts is in the concatenation. */
  lemma CatIntro(l: Regex, r: Regex, a: Word, b: Word)
    requires In(l, a) && In(r, b)
    ensures In(Cat(l, r), a + b)
  {
    var w := a + b;
    assert w[..|a|] == a && w[|a|..] == b;
  }
}
