/** Parse trees of cmd/awk/b.c as linked nodes, and the passes that turn one into the rows of a
    position automaton: penter, first, follow and cfoll. */
module AwkTree {
  import opened AwkRegex
  import opened AwkPositions
  import opened AwkAutomaton

  datatype Kind = LEAF(leaf: Leaf) | STAR | PLUS | QUEST | CAT | OR

  class Node {
    const kind: Kind
    const left: Node?
    const right: Node?
    var index: Position
    var parent: Node?
    ghost const tree: Regex

    constructor Atom(leaf: Leaf)
      ensures Shaped(this) && Proper(this) && tree == AwkRegex.Atom(leaf)
      ensures Nodes(this) == {this}
    {
      kind, left, right := LEAF(leaf), null, null;
      index, parent := 0, null;
      tree := AwkRegex.Atom(leaf);
    }

    constructor Unary(kind: Kind, child: Node)
      requires kind.STAR? || kind.PLUS? || kind.QUEST?
      requires Shaped(child) && Proper(child)
      ensures Shaped(this) && Proper(this) && Nodes(this) == {this} + Nodes(child)
      ensures tree == if kind.STAR? then Star(child.tree) else if kind.PLUS? then Plus(child.tree)
          else Quest(child.tree)
    {
      this.kind, left, right := kind, child, null;
      index, parent := 0, null;
      tree := if kind.STAR? then Star(child.tree) else if kind.PLUS? then Plus(child.tree) else Quest(child.tree);
      new;
    }

    constructor Binary(kind: Kind, l: Node, r: Node)
      requires kind.CAT? || kind.OR?
      requires Shaped(l) && Proper(l) && Shaped(r) && Proper(r) && Nodes(l) !! Nodes(r)
      ensures Shaped(this) && Proper(this) && Nodes(this) == {this} + Nodes(l) + Nodes(r)
      ensures tree == if kind.CAT? then Cat(l.tree, r.tree) else Or(l.tree, r.tree)
    {
      this.kind, left, right := kind, l, r;
      index, parent := 0, null;
      tree := if kind.CAT? then Cat(l.tree, r.tree) else Or(l.tree, r.tree);
      new;
    }
  }

  /** The links below `n` spell out `n.tree`. */
  ghost predicate Shaped(n: Node)
    decreases n.tree
  {
    match n.kind
    case LEAF(leaf) => n.tree == Atom(leaf)
    case STAR => n.left != null && n.tree == Star(n.left.tree) && Shaped(n.left)
    case PLUS => n.left != null && n.tree == Plus(n.left.tree) && Shaped(n.left)
    case QUEST => n.left != null && n.tree == Quest(n.left.tree) && Shaped(n.left)
    case CAT =>
      && n.left != null && n.right != null && n.left != n.right
      && n.tree == Cat(n.left.tree, n.right.tree) && Shaped(n.left) && Shaped(n.right)
    case OR =>
      && n.left != null && n.right != null && n.left != n.right
      && n.tree == Or(n.left.tree, n.right.tree) && Shaped(n.left) && Shaped(n.right)
  }

  ghost function Nodes(n: Node): (s: set<Node>)
    requires Shaped(n)
    ensures n in s
    decreases n.tree
  {
    match n.kind
    case LEAF(_) => {n}
    case CAT => {n} + Nodes(n.left) + Nodes(n.right)
    case OR => {n} + Nodes(n.left) + Nodes(n.right)
    case _ => {n} + Nodes(n.left)
  }

  /** No node is reached twice. */
  ghost predicate Proper(n: Node)
    requires Shaped(n)
    decreases n.tree
  {
    match n.kind
    case LEAF(_) => true
    case CAT => Nodes(n.left) !! Nodes(n.right) && Proper(n.left) && Proper(n.right)
    case OR => Nodes(n.left) !! Nodes(n.right) && Proper(n.left) && Proper(n.right)
    case _ => Proper(n.left)
  }

  ghost function Height(r: Regex): nat {
    match r
    case Atom(_) => 0
    case Star(body) => Height(body) + 1
    case Plus(body) => Height(body) + 1
    case Quest(body) => Height(body) + 1
    case Cat(left, right) => Height(left) + Height(right) + 1
    case Or(left, right) => Height(left) + Height(right) + 1
  }

  lemma {:induction false} NodesAreLower(n: Node)
    requires Shaped(n)
    ensures forall m :: m in Nodes(n) ==> Height(m.tree) <= Height(n.tree)
    decreases n.tree
  {
    match n.kind
    case LEAF(_) =>
    case CAT => NodesAreLower(n.left); NodesAreLower(n.right);
    case OR => NodesAreLower(n.left); NodesAreLower(n.right);
    case _ => NodesAreLower(n.left);
  }

  lemma {:induction false} NodesExist(n: Node)
    requires Shaped(n)
    ensures forall m :: m in Nodes(n) ==> allocated(m)
    decreases n.tree
  {
    match n.kind
    case LEAF(_) =>
    case CAT => NodesExist(n.left); NodesExist(n.right);
    case OR => NodesExist(n.left); NodesExist(n.right);
    case _ => NodesExist(n.left);
  }

  /** A node is not among the nodes below it. */
  lemma NotBelowItself(n: Node)
    requires Shaped(n)
    ensures !n.kind.LEAF? ==> n !in Nodes(n.left)
    ensures n.kind.CAT? || n.kind.OR? ==> n !in Nodes(n.right)
  {
    match n.kind
    case LEAF(_) =>
    case CAT => NodesAreLower(n.left); NodesAreLower(n.right);
    case OR => NodesAreLower(n.left); NodesAreLower(n.right);
    case _ => NodesAreLower(n.left);
  }

  /** What penter leaves behind below `n`: leaves numbered from `b`, and every node but `n` linked to its parent. */
  ghost predicate Numbered(n: Node, b: Position)
    requires Shaped(n)
    reads Nodes(n)
    decreases n.tree
  {
    match n.kind
    case LEAF(_) => n.index == b
    case CAT =>
      && Numbered(n.left, b) && Numbered(n.right, b + Size(n.left.tree))
      && n.left.parent == n && n.right.parent == n
    case OR =>
      && Numbered(n.left, b) && Numbered(n.right, b + Size(n.left.tree))
      && n.left.parent == n && n.right.parent == n
    case _ => Numbered(n.left, b) && n.left.parent == n
  }

  class Builder {
    var poscnt: Position
    var setvec: array<int>
    var re: array<RRow>
    ghost var marked: set<Position>
    ghost var links: map<Node, Link>

    constructor ()
      ensures fresh(setvec) && fresh(re) && poscnt == 0
    {
      poscnt := 0;
      setvec := new int[0];
      re := new RRow[0];
    }

    method Penter(p: Node)
      requires Shaped(p) && Proper(p)
      modifies this`poscnt, Nodes(p)
      ensures poscnt == old(poscnt) + Size(p.tree)
      ensures Numbered(p, old(poscnt))
      decreases p.tree, 1
    {
      NotBelowItself(p);
      if p.kind.LEAF? {
        p.index := poscnt;
        poscnt := poscnt + 1;
      } else if p.kind.STAR? || p.kind.PLUS? || p.kind.QUEST? {
        Penter(p.left);
        NotBelowItself(p.left);
        p.left.parent := p;
      } else {
        PenterBoth(p.left, p.right, p.tree);
        Adopt(p, old(poscnt));
      }
    }

    /** The left part first, then the right one. */
    method PenterBoth(l: Node, r: Node, ghost tree: Regex)
      requires Shaped(l) && Proper(l) && Shaped(r) && Proper(r) && Nodes(l) !! Nodes(r)
      requires l.tree < tree && r.tree < tree
      modifies this`poscnt, Nodes(l), Nodes(r)
      ensures Numbered(l, old(poscnt)) && Numbered(r, old(poscnt) + Size(l.tree))
      ensures poscnt == old(poscnt) + Size(l.tree) + Size(r.tree)
      decreases tree, 0
    {
      hide Shaped, Proper, Nodes, Numbered, Size;
      NodesExist(l);
      Penter(l);
      Penter(r);
    }

    method Adopt(p: Node, ghost b: Position)
      requires p.kind.CAT? || p.kind.OR?
      requires Shaped(p) && Proper(p)
      requires Numbered(p.left, b) && Numbered(p.right, b + Size(p.left.tree))
      modifies p.left`parent, p.right`parent
      ensures Numbered(p, b)
    {
      NotBelowItself(p.left);
      NotBelowItself(p.right);
      p.left.parent := p;
      p.right.parent := p;
    }

    /** `marked` is the set that `setvec` holds.  (Its size, `setcnt` in the source, is the length of the list made
        from it.) */
    ghost predicate Valid()
      reads this, setvec
    {
      forall i :: i in marked <==> 0 <= i < setvec.Length && setvec[i] == 1
    }

    /** `links` is what penter wrote into the nodes. */
    ghost predicate Synced()
      reads this`links, links.Keys
    {
      forall n :: n in links ==> n.index == links[n].index && n.parent == links[n].parent
    }

    method Mark(i: Position)
      requires Valid() && Synced() && 0 <= i < setvec.Length
      modifies this`marked, setvec
      ensures Valid() && Synced() && marked == old(marked) + {i}
    {
      if setvec[i] != 1 {
        setvec[i] := 1;
        marked := marked + {i};
      }
    }

    /** Adds the positions `p` can start with; 0 says that `p` matches the empty string. */
    method First(p: Node, ghost b: Position) returns (r: int)
      requires Synced() && Shaped(p) && NumberedBy(links, p, b)
      requires 0 <= b && b + Size(p.tree) <= setvec.Length
      requires Valid()
      modifies this`marked, setvec
      ensures Valid() && Synced() && marked == old(marked) + AwkPositions.First(p.tree, b)
      ensures r == if Nullable(p.tree) then 0 else 1
      decreases p.tree
    {
      hide Shaped, NumberedBy, Size, Nullable, AwkPositions.First, Valid;
      FirstChildren(links, p, b);
      match p.kind {
        case LEAF(leaf) =>
          Mark(p.index);
          if leaf.Ccl? && leaf.bytes == [] {
            return 0;
          }
          return 1;
        case PLUS =>
          r := First(p.left, b);
        case STAR =>
          var _ := First(p.left, b);
          return 0;
        case QUEST =>
          var _ := First(p.left, b);
          return 0;
        case CAT =>
          r := First(p.left, b);
          if r == 0 {
            r := First(p.right, b + Size(p.left.tree));
          }
        case OR =>
          var c := First(p.right, b + Size(p.left.tree));
          r := First(p.left, b);
          if r == 0 || c == 0 {
            return 0;
          }
          return 1;
      }
    }

    /** Adds the positions that can come after `v`, climbing from child to parent. */
    method Follow(v: Node, ghost b: Position, ghost k: Kont, ghost up: seq<Node>)
      requires Synced() && Linked(links, v, b, k, up)
      requires if v.tree == FINAL then k == Done else Guarded(k)
      requires KontFits(k, setvec.Length)
      requires Valid()
      modifies this`marked, setvec
      ensures Valid() && Synced() && marked == old(marked) + AwkPositions.Follow(k)
      decreases |up|
    {
      if v.kind == LEAF(Final) {
        return;
      }
      var p := v.parent;
      ghost var pb, pk := Climb(links, v, b, k, up, setvec.Length);
      if p.kind.STAR? || p.kind.PLUS? {
        Joined(marked, AwkPositions.First(v.tree, b), AwkPositions.Follow(pk));
        var _ := First(v, b);
        Follow(p, pb, pk, up[1..]);
      } else if p.kind.CAT? && v == p.left {
        Joined(marked, AwkPositions.First(p.right.tree, k.base), AwkPositions.Follow(pk));
        var r := First(p.right, k.base);
        if r == 0 {
          Follow(p, pb, pk, up[1..]);
        }
      } else {
        Follow(p, pb, pk, up[1..]);
      }
    }

    /** Writes the row of every leaf below `v`: its leaf and the list of its follow set. */
    method Cfoll(v: Node, ghost b: Position, ghost k: Kont, ghost up: seq<Node>)
      requires Synced() && Linked(links, v, b, k, up)
      requires Ready(v.tree, b, k, setvec.Length) && 0 <= b && b + Size(v.tree) <= setvec.Length
      requires re.Length == setvec.Length
      modifies this`marked, setvec, re
      ensures Synced() && Patched(old(re[..]), b, Finished(Rows(v.tree, b, k), re.Length), re[..])
      decreases v.tree, 1
    {
      ghost var kl := LinkedChildren(links, v, b, k, up, setvec.Length);
      if v.kind.LEAF? {
        EnterRow(v, b, k, up);
      } else if v.kind.CAT? || v.kind.OR? {
        CfollBoth(v, b, k, kl, up);
      } else {
        Cfoll(v.left, b, kl, [v] + up);
      }
    }

    /** The CAT and OR case of cfoll. */
    method CfollBoth(v: Node, ghost b: Position, ghost k: Kont, ghost kl: Kont, ghost up: seq<Node>)
      requires v.kind.CAT? || v.kind.OR?
      requires Shaped(v) && Synced() && re.Length == setvec.Length
      requires Linked(links, v.left, b, kl, [v] + up) && Ready(v.left.tree, b, kl, setvec.Length)
      requires var m := b + Size(v.left.tree);
               Linked(links, v.right, m, k, [v] + up) && Ready(v.right.tree, m, k, setvec.Length)
      requires 0 <= b && b + Size(v.left.tree) + Size(v.right.tree) <= setvec.Length
      modifies this`marked, setvec, re
      ensures var rows := Rows(v.left.tree, b, kl) + Rows(v.right.tree, b + Size(v.left.tree), k);
              Synced() && Patched(old(re[..]), b, Finished(rows, re.Length), re[..])
      decreases v.tree, 0
    {
      hide Linked, Ready, Finished, Rows, Patched, Size;
      ghost var m := b + Size(v.left.tree);
      ghost var x, y := Rows(v.left.tree, b, kl), Rows(v.right.tree, m, k);
      FinishedConcat(x, y, re.Length);
      Cfoll(v.left, b, kl, [v] + up);
      ghost var s := re[..];
      Cfoll(v.right, m, k, [v] + up);
      PatchTwice(old(re[..]), b, Finished(x, re.Length), s, Finished(y, re.Length), re[..]);
    }

    /** The leaf case of cfoll. */
    method EnterRow(v: Node, ghost b: Position, ghost k: Kont, ghost up: seq<Node>)
      requires v.kind.LEAF? && Synced() && Linked(links, v, b, k, up)
      requires Ready(v.tree, b, k, setvec.Length) && 0 <= b < setvec.Length
      requires re.Length == setvec.Length
      modifies this`marked, setvec, re
      ensures Synced() && Patched(old(re[..]), b, Finished([Row(v.kind.leaf, k)], re.Length), re[..])
    {
      hide Linked, Ready, Finished;
      LeafReady(links, v, b, k, up, setvec.Length);
      for i := 0 to setvec.Length
        invariant forall j :: 0 <= j < i ==> setvec[j] == 0
        modifies setvec
      {
        setvec[i] := 0;
      }
      marked := {};
      Follow(v, b, k, up);
      assert marked == AwkPositions.Follow(k);
      var p := ListMarked();
      re[v.index] := RRow(v.kind.leaf, p);
      FinishedOne(v.kind.leaf, k, re.Length);
    }

    /** The part of makedfa that puts ALL* in front of the tree and FINAL after it, numbers the
        leaves and computes their follow sets. */
    method BuildRows(p: Node, ghost nodes: set<Node>)
      requires Shaped(p) && Proper(p) && NoFinal(p.tree) && nodes == Nodes(p)
      modifies this, nodes
      ensures fresh(re) && re[..] == Finished(Automaton(p.tree), re.Length)
      ensures re.Length == |Automaton(p.tree)|
    {
      hide Rows, Ready, Finished, Proper, Numbered, NumberedBy, Shaped, Full, Size, NoFinal, Nodes;
      var p1 := Wrap(p, nodes);
      Number(p1);
      setvec, re := new int[poscnt], new RRow[poscnt];
      FullReady(p.tree);
      Cfoll(p1, 0, Done, []);
    }

    static method Wrap(p: Node, ghost nodes: set<Node>) returns (p1: Node)
      requires Shaped(p) && Proper(p) && nodes == Nodes(p)
      ensures Shaped(p1) && Proper(p1) && p1.tree == Full(p.tree)
      ensures fresh(Nodes(p1) - nodes)
    {
      var all := new Node.Atom(All);
      var star := new Node.Unary(STAR, all);
      var search := new Node.Binary(CAT, star, p);
      var end := new Node.Atom(Final);
      p1 := new Node.Binary(CAT, search, end);
    }

    method Number(p: Node)
      requires Shaped(p) && Proper(p)
      modifies this, Nodes(p)
      ensures poscnt == Size(p.tree) && Synced() && NumberedBy(links, p, 0)
    {
      poscnt := 0;
      Penter(p);
      links := map n | n in Nodes(p) :: Link(n.index, n.parent);
      NumberedIsNumberedBy(p, 0, links);
    }

    method ListMarked() returns (p: seq<Position>)
      requires Valid()
      ensures p == Desc(marked, setvec.Length)
    {
      p := [];
      var i := setvec.Length;
      while i > 0
        invariant 0 <= i <= setvec.Length
        invariant p + Desc(marked, i) == Desc(marked, setvec.Length)
      {
        i := i - 1;
        if setvec[i] == 1 {
          p := p + [i];
        }
      }
    }
  }

  datatype RRow = RRow(leaf: Leaf, lfollow: seq<Position>)

  /** Rows with their follow sets listed, in an automaton of `n` positions. */
  function Finished(t: Table, n: nat): (s: seq<RRow>)
    ensures |s| == |t|
  {
    if t == [] then [] else [RRow(t[0].leaf, Desc(AwkPositions.Follow(t[0].kont), n))] + Finished(t[1..], n)
  }

  lemma FinishedOne(leaf: Leaf, k: Kont, n: nat)
    ensures Finished([Row(leaf, k)], n) == [RRow(leaf, Desc(AwkPositions.Follow(k), n))]
  {
  }

  /** What the climb from a leaf may rely on. */
  lemma LeafReady(links: map<Node, Link>, v: Node, b: Position, k: Kont, up: seq<Node>, n: nat)
    requires v.kind.LEAF? && Linked(links, v, b, k, up) && Ready(v.tree, b, k, n)
    ensures v in links && links[v].index == b && KontFits(k, n)
    ensures if v.tree == FINAL then k == Done else Guarded(k)
  {
  }

  /** `s` with `x` written over it from `b` on. */
  ghost predicate Patched<T>(s: seq<T>, b: int, x: seq<T>, p: seq<T>) {
    && 0 <= b && b + |x| <= |s| == |p|
    && forall i :: 0 <= i < |p| ==> p[i] == if b <= i < b + |x| then x[i - b] else s[i]
  }

  lemma PatchTwice<T>(s: seq<T>, b: int, x: seq<T>, p: seq<T>, y: seq<T>, q: seq<T>)
    requires Patched(s, b, x, p) && Patched(p, b + |x|, y, q)
    ensures Patched(s, b, x + y, q)
  {
    forall i | 0 <= i < |q| ensures q[i] == if b <= i < b + |x + y| then (x + y)[i - b] else s[i] {
      assert p[i] == if b <= i < b + |x| then x[i - b] else s[i];
    }
  }

  lemma FinishedConcat(s: Table, t: Table, n: nat)
    ensures Finished(s + t, n) == Finished(s, n) + Finished(t, n)
  {
    if s == [] {
      assert s + t == t;
    } else {
      assert (s + t)[1..] == s[1..] + t;
    }
  }

  /** From every leaf of `r` the climb stops before the root. */
  ghost predicate Ready(r: Regex, b: Position, k: Kont, n: nat) {
    match r
    case Atom(leaf) => KontFits(k, n) && if leaf.Final? then k == Done else Guarded(k)
    case Star(body) => Ready(body, b, Loop(body, b, k), n)
    case Plus(body) => Ready(body, b, Loop(body, b, k), n)
    case Quest(body) => Ready(body, b, k, n)
    case Cat(left, right) => Ready(left, b, Before(right, b + Size(left), k), n) && Ready(right, b + Size(left), k, n)
    case Or(left, right) => Ready(left, b, k, n) && Ready(right, b + Size(left), k, n)
  }

  lemma {:induction false} NumberedIsNumberedBy(n: Node, b: Position, links: map<Node, Link>)
    requires Shaped(n) && Numbered(n, b) && Nodes(n) <= links.Keys
    requires forall m :: m in links ==> links[m] == Link(m.index, m.parent)
    ensures NumberedBy(links, n, b)
    decreases n.tree
  {
    match n.kind
    case LEAF(_) =>
    case CAT | OR =>
      NumberedIsNumberedBy(n.left, b, links);
      NumberedIsNumberedBy(n.right, b + Size(n.left.tree), links);
    case _ => NumberedIsNumberedBy(n.left, b, links);
  }

  lemma {:induction false} GuardedReady(r: Regex, b: Position, k: Kont, n: nat)
    requires NoFinal(r) && Guarded(k) && KontFits(k, n) && 0 <= b && b + Size(r) <= n
    ensures Ready(r, b, k, n)
    decreases r
  {
    match r
    case Atom(_) =>
    case Star(body) => GuardedReady(body, b, Loop(body, b, k), n);
    case Plus(body) => GuardedReady(body, b, Loop(body, b, k), n);
    case Quest(body) => GuardedReady(body, b, k, n);
    case Cat(left, right) =>
      GuardedReady(left, b, Before(right, b + Size(left), k), n);
      GuardedReady(right, b + Size(left), k, n);
    case Or(left, right) =>
      GuardedReady(left, b, k, n);
      GuardedReady(right, b + Size(left), k, n);
  }

  lemma FullReady(r: Regex)
    requires NoFinal(r)
    ensures Size(Full(r)) == Size(r) + 2 && Ready(Full(r), 0, Done, Size(r) + 2)
  {
    var n := Size(r) + 2;
    var search := Cat(Star(Atom(All)), r);
    assert Size(Star(Atom(All))) == 1 && Size(search) == Size(r) + 1;
    GuardedReady(search, 0, Before(FINAL, Size(r) + 1, Done), n);
    assert Ready(FINAL, Size(r) + 1, Done, n);
  }

  lemma Joined(s: set<Position>, x: set<Position>, y: set<Position>)
    ensures s + x + y == s + (x + y)
  {
  }

  /** What `first` is of a node, by what it is of its children. */
  lemma FirstChildren(links: map<Node, Link>, p: Node, b: Position)
    requires Shaped(p) && NumberedBy(links, p, b)
    ensures p.kind.LEAF? ==>
              && p in links && links[p].index == b && AwkPositions.First(p.tree, b) == {b} && Size(p.tree) == 1
              && (Nullable(p.tree) <==> IsEmptyClass(p.kind.leaf))
    ensures !p.kind.LEAF? ==> p.left != null && Shaped(p.left) && NumberedBy(links, p.left, b) && p.left.tree < p.tree
    ensures p.kind.STAR? || p.kind.PLUS? || p.kind.QUEST? ==>
              && Size(p.tree) == Size(p.left.tree) && AwkPositions.First(p.tree, b)
                  == AwkPositions.First(p.left.tree, b)
              && (Nullable(p.tree) <==> !p.kind.PLUS? || Nullable(p.left.tree))
    ensures p.kind.CAT? || p.kind.OR? ==>
              var m := b + Size(p.left.tree);
              && p.right != null && Shaped(p.right) && NumberedBy(links, p.right, m) && p.right.tree < p.tree
              && Size(p.tree) == Size(p.left.tree) + Size(p.right.tree)
              && AwkPositions.First(p.tree, b) == AwkPositions.First(p.left.tree, b)
                 + (if p.kind.OR? || Nullable(p.left.tree) then AwkPositions.First(p.right.tree, m) else {})
              && (Nullable(p.tree) <==> if p.kind.OR? then Nullable(p.left.tree) || Nullable(p.right.tree)
                                        else Nullable(p.left.tree) && Nullable(p.right.tree))
  {
  }

  /** What comes after the (left) child of `v`. */
  ghost function Below(v: Node, b: Position, k: Kont): Kont {
    match v.kind
    case STAR | PLUS => if v.left == null then k else Loop(v.left.tree, b, k)
    case CAT => if v.left == null || v.right == null then k else Before(v.right.tree, b + Size(v.left.tree), k)
    case _ => k
  }

  lemma LinkedBelow(links: map<Node, Link>, v: Node, b: Position, k: Kont, up: seq<Node>)
    requires Linked(links, v, b, k, up)
    ensures Shaped(v)
    ensures !v.kind.LEAF? ==> v.left != null && Linked(links, v.left, b, Below(v, b, k), [v] + up)
    ensures v.kind.CAT? || v.kind.OR? ==> v.right != null && Linked(links, v.right, b + Size(v.left.tree), k, [v] + up)
  {
    hide Size;
    assert ([v] + up)[1..] == up && ([v] + up)[0] == v;
  }

  lemma RowsBelow(v: Node, b: Position, k: Kont, n: nat)
    requires Shaped(v) && Ready(v.tree, b, k, n)
    ensures !v.kind.LEAF? ==>
              && v.left != null && Ready(v.left.tree, b, Below(v, b, k), n) && v.left.tree < v.tree
              && Size(v.tree) >= Size(v.left.tree)
    ensures v.kind.STAR? || v.kind.PLUS? || v.kind.QUEST? ==>
              Size(v.tree) == Size(v.left.tree) && Rows(v.tree, b, k) == Rows(v.left.tree, b, Below(v, b, k))
    ensures v.kind.CAT? || v.kind.OR? ==>
              var m := b + Size(v.left.tree);
              && v.right != null && Ready(v.right.tree, m, k, n) && v.right.tree < v.tree
              && Size(v.tree) == Size(v.left.tree) + Size(v.right.tree)
              && Rows(v.tree, b, k) == Rows(v.left.tree, b, Below(v, b, k)) + Rows(v.right.tree, m, k)
    ensures v.kind.LEAF? ==> Size(v.tree) == 1 && Rows(v.tree, b, k) == [Row(v.kind.leaf, k)]
  {
  }

  /** One step down: what comes after the (left) child of `v`. */
  lemma LinkedChildren(links: map<Node, Link>, v: Node, b: Position, k: Kont, up: seq<Node>, n: nat) returns (kl: Kont)
    requires Linked(links, v, b, k, up) && Ready(v.tree, b, k, n)
    ensures !v.kind.LEAF? ==>
              && Linked(links, v.left, b, kl, [v] + up) && Ready(v.left.tree, b, kl, n) && v.left.tree < v.tree
              && Size(v.tree) >= Size(v.left.tree)
    ensures v.kind.STAR? || v.kind.PLUS? || v.kind.QUEST? ==>
              Size(v.tree) == Size(v.left.tree) && Rows(v.tree, b, k) == Rows(v.left.tree, b, kl)
    ensures v.kind.CAT? || v.kind.OR? ==>
              var m := b + Size(v.left.tree);
              && Linked(links, v.right, m, k, [v] + up) && Ready(v.right.tree, m, k, n) && v.right.tree < v.tree
              && Size(v.tree) == Size(v.left.tree) + Size(v.right.tree)
              && Rows(v.tree, b, k) == Rows(v.left.tree, b, kl) + Rows(v.right.tree, m, k)
    ensures v.kind.LEAF? ==> Size(v.tree) == 1 && Rows(v.tree, b, k) == [Row(v.kind.leaf, k)]
  {
    hide Linked, Ready, Rows, Size, Shaped, NumberedBy;
    kl := Below(v, b, k);
    LinkedBelow(links, v, b, k, up);
    RowsBelow(v, b, k, n);
  }

  /** One step up: what is left to come after the parent, and what the step adds to the follow set. */
  lemma Climb(links: map<Node, Link>, v: Node, b: Position, k: Kont, up: seq<Node>, n: nat)
      returns (pb: Position, pk: Kont)
    requires Linked(links, v, b, k, up) && Guarded(k) && KontFits(k, n)
    ensures up != [] && links[v].parent == up[0] && Linked(links, up[0], pb, pk, up[1..])
    ensures KontFits(pk, n) && up[0].tree != FINAL
    ensures var p := up[0];
            if p.kind.STAR? || p.kind.PLUS? then
              && Guarded(pk) && Follow(k) == First(v.tree, b) + Follow(pk)
              && 0 <= b && b + Size(v.tree) <= n && NumberedBy(links, v, b)
            else if p.kind.CAT? && v == p.left then
              && (Nullable(p.right.tree) ==> Guarded(pk))
              && Follow(k) == First(p.right.tree, k.base) + (if Nullable(p.right.tree) then Follow(pk) else {})
              && 0 <= k.base && k.base + Size(p.right.tree) <= n && NumberedBy(links, p.right, k.base)
            else Guarded(pk) && Follow(k) == Follow(pk)
  {
    var p := up[0];
    pb := if v == p.left then b else b - Size(p.left.tree);
    pk := if p.kind.STAR? || p.kind.PLUS? || (p.kind.CAT? && v == p.left) then k.up else k;
  }

  /** What penter writes into a node. */
  datatype Link = Link(index: Position, parent: Node?)

  /** The leaves below `n` are numbered from `b`, and every node below `n` is linked to its parent. */
  ghost predicate NumberedBy(links: map<Node, Link>, n: Node, b: Position)
    requires Shaped(n)
    decreases n.tree
  {
    && n in links
    && match n.kind
       case LEAF(_) => links[n].index == b
       case CAT | OR =>
         && NumberedBy(links, n.left, b) && NumberedBy(links, n.right, b + Size(n.left.tree))
         && links[n.left].parent == n && links[n.right].parent == n
       case _ => NumberedBy(links, n.left, b) && links[n.left].parent == n
  }

  /** `k` cannot run out before a tree that does not match the empty string. */
  ghost predicate Guarded(k: Kont) {
    match k
    case Done => false
    case Loop(_, _, up) => Guarded(up)
    case Before(next, _, up) => !Nullable(next) || Guarded(up)
  }

  ghost predicate KontFits(k: Kont, n: nat) {
    match k
    case Done => true
    case Loop(body, b, up) => 0 <= b && b + Size(body) <= n && KontFits(up, n)
    case Before(next, b, up) => 0 <= b && b + Size(next) <= n && KontFits(up, n)
  }

  /** `up` lists the ancestors of `v` from its parent to the root, and `k` is what they leave to come after `v`. */
  ghost predicate Linked(links: map<Node, Link>, v: Node, b: Position, k: Kont, up: seq<Node>)
    decreases |up|
  {
    && Shaped(v) && NumberedBy(links, v, b)
    && if up == [] then k == Done else
         var p := up[0];
         && Shaped(p) && links[v].parent == p
         && match p.kind
            case LEAF(_) => false
            case STAR | PLUS => v == p.left && k.Loop? && k.body == v.tree && k.base == b
                && Linked(links, p, b, k.up, up[1..])
            case QUEST => v == p.left && Linked(links, p, b, k, up[1..])
            case OR =>
              if v == p.left then Linked(links, p, b, k, up[1..])
              else v == p.right && Linked(links, p, b - Size(p.left.tree), k, up[1..])
            case CAT =>
              if v == p.left then
                k.Before? && k.next == p.right.tree && k.base == b + Size(v.tree) && Linked(links, p, b, k.up, up[1..])
              else v == p.right && Linked(links, p, b - Size(p.left.tree), k, up[1..])
  }
}
