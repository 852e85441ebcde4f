/**
  The shape of the AVL tree: the tree that the pointers spell out, and the same tree seen from one
  of its positions (a context with a hole). Rotation and balance are facts about shapes; module
  `AvlTree` relates them to the pointer fields.
 */
module AvlShape {
  import opened Basics

  /** `child`, and the direction of a walk: LEFT/BEFORE or RIGHT/AFTER. */
  datatype Dir = Left | Right {
    function Opp(): Dir { if this == Left then Right else Left }

    /** `child2balance` */
    function Sign(): int { Turn(1) }

    /** A difference "this side minus the other side" as a balance, right minus left. */
    function Turn(x: int): int { if this == Left then -x else x }
  }

  class Node {
    var left: Node?
    var right: Node?
    var parent: Node?
    var which: Dir
    var balance: int
    const key: int

    constructor (parent: Node?, which: Dir, key: int)
      ensures this.left == null && this.right == null && this.parent == parent
      ensures this.which == which && this.balance == 0 && this.key == key
    {
      this.left, this.right, this.parent := null, null, parent;
      this.which, this.balance, this.key := which, 0, key;
    }

    /** `m_children[d]` */
    function Child(d: Dir): Node?
      reads this
    {
      if d == Left then left else right
    }

    method SetChild(d: Dir, c: Node?)
      modifies this
      ensures Child(d) == c && Child(d.Opp()) == old(Child(d.Opp()))
      ensures parent == old(parent) && which == old(which) && balance == old(balance)
    {
      if d == Left { left := c; } else { right := c; }
    }
  }

  datatype Shape = Leaf | Bin(l: Shape, n: Node, b: int, r: Shape) {
    function Kid(d: Dir): Shape requires Bin? { if d == Left then l else r }
  }

  /** The tree with node `n` and balance `b`, `a` on side `d` and `c` on the other side. */
  function Mk(d: Dir, a: Shape, n: Node, b: int, c: Shape): Shape {
    if d == Left then Bin(a, n, b, c) else Bin(c, n, b, a)
  }

  function Root(t: Shape): Node? { if t.Leaf? then null else t.n }

  ghost function Nodes(t: Shape): set<Node> {
    if t.Leaf? then {} else Nodes(t.l) + {t.n} + Nodes(t.r)
  }

  ghost function Height(t: Shape): nat {
    if t.Leaf? then 0 else 1 + Max(Height(t.l), Height(t.r))
  }

  ghost function InOrder(t: Shape): seq<Node> {
    if t.Leaf? then [] else InOrder(t.l) + [t.n] + InOrder(t.r)
  }

  /** Stored balances are right height minus left height, and at most one apart. */
  ghost predicate Avl(t: Shape) {
    t.Leaf? || (t.b == Height(t.r) - Height(t.l) && -1 <= t.b <= 1 && Avl(t.l) && Avl(t.r))
  }

  /** No node occurs twice. */
  ghost predicate Distinct(t: Shape) {
    t.Leaf? || (
      && t.n !in Nodes(t.l) && t.n !in Nodes(t.r) && Nodes(t.l) !! Nodes(t.r)
      && Distinct(t.l) && Distinct(t.r))
  }

  // The functions above, for either orientation of a node.

  lemma {:induction false} MkAvl(d: Dir, a: Shape, n: Node, b: int, c: Shape)
    ensures Height(Mk(d, a, n, b, c)) == 1 + Max(Height(a), Height(c))
    ensures Avl(Mk(d, a, n, b, c))
      <==> b == d.Turn(Height(a) - Height(c)) && -1 <= b <= 1 && Avl(a) && Avl(c)
  {
  }

  lemma {:induction false} MkNodes(d: Dir, a: Shape, n: Node, b: int, c: Shape)
    ensures Nodes(Mk(d, a, n, b, c)) == Nodes(a) + {n} + Nodes(c)
    ensures Distinct(Mk(d, a, n, b, c)) <==>
      && n !in Nodes(a) && n !in Nodes(c) && Nodes(a) !! Nodes(c) && Distinct(a) && Distinct(c)
  {
  }

  lemma {:induction false} MkInOrder(d: Dir, a: Shape, n: Node, b: int, c: Shape)
    ensures InOrder(Mk(d, a, n, b, c))
      == if d == Left then InOrder(a) + [n] + InOrder(c) else InOrder(c) + [n] + InOrder(a)
  {
  }

  lemma {:induction false} KidsMk(d: Dir, t: Shape)
    requires t.Bin?
    ensures t == Mk(d, t.Kid(d), t.n, t.b, t.Kid(d.Opp()))
  {
  }

  // ---------------------------------------------------------------------------------------------
  // Contexts

  /** A tree with a hole: the hole is child `d` of `n`, whose other subtree is `sib`. */
  datatype Ctx = Top | In(d: Dir, n: Node, b: int, sib: Shape, up: Ctx)

  function Plug(c: Ctx, t: Shape): Shape
    decreases c
  {
    if c.Top? then t else Plug(c.up, Mk(c.d, t, c.n, c.b, c.sib))
  }

  /** Parent and side of the hole; the hole of `Top` is the root, which has neither. */
  function Parent(c: Ctx): Node? { if c.Top? then null else c.n }
  function Side(c: Ctx): Dir { if c.Top? then Left else c.d }

  ghost function CtxNodes(c: Ctx): set<Node> {
    if c.Top? then {} else {c.n} + Nodes(c.sib) + CtxNodes(c.up)
  }

  ghost predicate CtxDistinct(c: Ctx) {
    c.Top? || (
      && c.n !in Nodes(c.sib) && c.n !in CtxNodes(c.up) && Nodes(c.sib) !! CtxNodes(c.up)
      && Distinct(c.sib) && CtxDistinct(c.up))
  }

  /** The nodes that come in order before, and after, those of the hole. */
  ghost function Before(c: Ctx): seq<Node> {
    if c.Top? then [] else if c.d == Left then Before(c.up) else Before(c.up) + InOrder(c.sib) + [c.n]
  }

  ghost function Behind(c: Ctx): seq<Node> {
    if c.Top? then [] else if c.d == Left then [c.n] + InOrder(c.sib) + Behind(c.up) else Behind(c.up)
  }

  /** The context is balanced, as stored, if the hole has height `h`. */
  ghost predicate CtxAvl(c: Ctx, h: nat) {
    c.Top? || (
      && c.b == c.d.Turn(h - Height(c.sib)) && -1 <= c.b <= 1 && Avl(c.sib)
      && CtxAvl(c.up, 1 + Max(h, Height(c.sib))))
  }

  lemma {:induction false} PlugInOrder(c: Ctx, t: Shape)
    ensures InOrder(Plug(c, t)) == Before(c) + InOrder(t) + Behind(c)
    decreases c
  {
    if c.In? {
      PlugInOrder(c.up, Mk(c.d, t, c.n, c.b, c.sib));
    }
  }

  lemma {:induction false} PlugNodes(c: Ctx, t: Shape)
    ensures Nodes(Plug(c, t)) == CtxNodes(c) + Nodes(t)
    decreases c
  {
    if c.In? {
      PlugNodes(c.up, Mk(c.d, t, c.n, c.b, c.sib));
    }
  }

  lemma {:induction false} PlugDistinct(c: Ctx, t: Shape)
    ensures Distinct(Plug(c, t)) <==> CtxDistinct(c) && Distinct(t) && CtxNodes(c) !! Nodes(t)
    decreases c
  {
    if c.In? {
      PlugDistinct(c.up, Mk(c.d, t, c.n, c.b, c.sib));
    }
  }

  lemma {:induction false} PlugAvl(c: Ctx, t: Shape)
    ensures Avl(Plug(c, t)) <==> CtxAvl(c, Height(t)) && Avl(t)
    decreases c
  {
    hide Height, Avl;
    if c.In? {
      MkAvl(c.d, t, c.n, c.b, c.sib);
      PlugAvl(c.up, Mk(c.d, t, c.n, c.b, c.sib));
    }
  }

  // ---------------------------------------------------------------------------------------------
  // Rotation

  /** Side `d` of `n` holds `child`, which is too high by one. */
  function Single(d: Dir, n: Node, child: Shape, sib: Shape): Shape
    requires child.Bin?
  {
    var b := child.b - d.Sign();
    Mk(d, child.Kid(d), child.n, b, Mk(d, child.Kid(d.Opp()), n, -b, sib))
  }

  function Double(d: Dir, n: Node, child: Shape, sib: Shape): Shape
    requires child.Bin? && child.Kid(d.Opp()).Bin?
  {
    var g, s := child.Kid(d.Opp()), d.Sign();
    Mk(d, Mk(d, child.Kid(d), child.n, if g.b == -s then s else 0, g.Kid(d)),
       g.n, 0,
       Mk(d, g.Kid(d.Opp()), n, if g.b == s then -s else 0, sib))
  }

  predicate Rotatable(d: Dir, child: Shape) {
    child.Bin? && (child.b == -d.Sign() ==> child.Kid(d.Opp()).Bin?)
  }

  function Rotate(d: Dir, n: Node, child: Shape, sib: Shape): Shape
    requires Rotatable(d, child)
  {
    if child.b != -d.Sign() then Single(d, n, child, sib) else Double(d, n, child, sib)
  }

  lemma {:induction false} KidsAvl(d: Dir, t: Shape)
    requires t.Bin? && Avl(t)
    ensures Avl(t.Kid(d)) && Avl(t.Kid(d.Opp())) && -1 <= t.b <= 1
    ensures t.b == d.Turn(Height(t.Kid(d)) - Height(t.Kid(d.Opp())))
    ensures Height(t) == 1 + Max(Height(t.Kid(d)), Height(t.Kid(d.Opp())))
  {
  }

  lemma {:induction false} HighIsBin(t: Shape)
    requires Height(t) > 0
    ensures t.Bin?
  {
  }

  lemma {:induction false} SingleAvl(d: Dir, n: Node, child: Shape, sib: Shape)
    requires child.Bin? && Avl(child) && Avl(sib) && Height(child) == Height(sib) + 2 && child.b != -d.Sign()
    ensures var r := Single(d, n, child, sib);
      && Avl(r) && Height(r) == Height(sib) + (if child.b == 0 then 3 else 2) && (r.b == 0 <==> child.b != 0)
  {
    hide Height, Avl;
    var b := child.b - d.Sign();
    KidsAvl(d, child);
    MkAvl(d, child.Kid(d.Opp()), n, -b, sib);
    MkAvl(d, child.Kid(d), child.n, b, Mk(d, child.Kid(d.Opp()), n, -b, sib));
  }

  lemma {:induction false} DoubleAvl(d: Dir, n: Node, child: Shape, sib: Shape)
    requires child.Bin? && Avl(child) && Avl(sib) && Height(child) == Height(sib) + 2 && child.b == -d.Sign()
    ensures child.Kid(d.Opp()).Bin?
    ensures var r := Double(d, n, child, sib); Avl(r) && Height(r) == Height(sib) + 2 && r.b == 0
  {
    hide Height, Avl;
    var g, s := child.Kid(d.Opp()), d.Sign();
    KidsAvl(d, child);
    HighIsBin(g);
    KidsAvl(d, g);
    var b1, b2 := if g.b == -s then s else 0, if g.b == s then -s else 0;
    MkAvl(d, child.Kid(d), child.n, b1, g.Kid(d));
    MkAvl(d, g.Kid(d.Opp()), n, b2, sib);
    MkAvl(d, Mk(d, child.Kid(d), child.n, b1, g.Kid(d)), g.n, 0, Mk(d, g.Kid(d.Opp()), n, b2, sib));
  }

  /** Rotation restores balance; it lowers the subtree unless the high child was even. */
  lemma {:induction false} RotateAvl(d: Dir, n: Node, child: Shape, sib: Shape)
    requires Avl(child) && Avl(sib) && Height(child) == Height(sib) + 2
    ensures Rotatable(d, child)
    ensures var r := Rotate(d, n, child, sib);
      && Avl(r) && Height(r) == Height(sib) + (if child.b == 0 then 3 else 2) && (r.b == 0 <==> child.b != 0)
  {
    hide Height, Avl, Single, Double;
    HighIsBin(child);
    if child.b == -d.Sign() { DoubleAvl(d, n, child, sib); } else { SingleAvl(d, n, child, sib); }
  }

  /** Rotation keeps the order of the nodes. */
  lemma {:induction false} RotateInOrder(d: Dir, n: Node, b: int, child: Shape, sib: Shape)
    requires Rotatable(d, child)
    ensures InOrder(Rotate(d, n, child, sib)) == InOrder(Mk(d, child, n, b, sib))
  {
    if child.b == -d.Sign() { DoubleInOrder(d, n, b, child, sib); } else { SingleInOrder(d, n, b, child, sib); }
  }

  lemma {:induction false} SingleInOrder(d: Dir, n: Node, b: int, child: Shape, sib: Shape)
    requires child.Bin?
    ensures InOrder(Single(d, n, child, sib)) == InOrder(Mk(d, child, n, b, sib))
  {
    hide InOrder;
    var b' := child.b - d.Sign();
    var low := Mk(d, child.Kid(d.Opp()), n, -b', sib);
    KidsMk(d, child);
    MkInOrder(d, child.Kid(d), child.n, child.b, child.Kid(d.Opp()));
    MkInOrder(d, child, n, b, sib);
    MkInOrder(d, child.Kid(d.Opp()), n, -b', sib);
    MkInOrder(d, child.Kid(d), child.n, b', low);
  }

  lemma {:induction false} DoubleInOrder(d: Dir, n: Node, b: int, child: Shape, sib: Shape)
    requires child.Bin? && child.Kid(d.Opp()).Bin?
    ensures InOrder(Double(d, n, child, sib)) == InOrder(Mk(d, child, n, b, sib))
  {
    hide InOrder;
    var g, s := child.Kid(d.Opp()), d.Sign();
    var b1, b2 := if g.b == -s then s else 0, if g.b == s then -s else 0;
    var x, y := Mk(d, child.Kid(d), child.n, b1, g.Kid(d)), Mk(d, g.Kid(d.Opp()), n, b2, sib);
    KidsMk(d, child);
    KidsMk(d, g);
    MkInOrder(d, g.Kid(d), g.n, g.b, g.Kid(d.Opp()));
    MkInOrder(d, child.Kid(d), child.n, child.b, g);
    MkInOrder(d, child, n, b, sib);
    MkInOrder(d, child.Kid(d), child.n, b1, g.Kid(d));
    MkInOrder(d, g.Kid(d.Opp()), n, b2, sib);
    MkInOrder(d, x, g.n, 0, y);
    Regroup(InOrder(child.Kid(d)), child.n, InOrder(g.Kid(d)), g.n, InOrder(g.Kid(d.Opp())), n, InOrder(sib));
    Regroup'(InOrder(sib), n, InOrder(g.Kid(d.Opp())), g.n, InOrder(g.Kid(d)), child.n, InOrder(child.Kid(d)));
  }

  lemma {:induction false} Regroup(i: seq<Node>, x: Node, j: seq<Node>, y: Node, k: seq<Node>, z: Node, m: seq<Node>)
    ensures i + [x] + (j + [y] + k) + [z] + m == i + [x] + j + [y] + (k + [z] + m)
  {
  }

  lemma {:induction false} Regroup'(i: seq<Node>, x: Node, j: seq<Node>, y: Node, k: seq<Node>, z: Node, m: seq<Node>)
    ensures i + [x] + ((j + [y] + k) + [z] + m) == i + [x] + j + [y] + (k + [z] + m)
  {
  }

  lemma {:induction false} RotateNodes(d: Dir, n: Node, b: int, child: Shape, sib: Shape)
    requires Rotatable(d, child) && Distinct(Mk(d, child, n, b, sib))
    ensures Nodes(Rotate(d, n, child, sib)) == Nodes(Mk(d, child, n, b, sib))
    ensures Distinct(Rotate(d, n, child, sib))
  {
    if child.b == -d.Sign() { DoubleNodes(d, n, b, child, sib); } else { SingleNodes(d, n, b, child, sib); }
  }

  lemma {:induction false} SingleNodes(d: Dir, n: Node, b: int, child: Shape, sib: Shape)
    requires child.Bin? && Distinct(Mk(d, child, n, b, sib))
    ensures Nodes(Single(d, n, child, sib)) == Nodes(Mk(d, child, n, b, sib))
    ensures Distinct(Single(d, n, child, sib))
  {
    hide Nodes, Distinct;
    var b' := child.b - d.Sign();
    KidsMk(d, child);
    MkNodes(d, child, n, b, sib);
    MkNodes(d, child.Kid(d), child.n, child.b, child.Kid(d.Opp()));
    MkNodes(d, child.Kid(d.Opp()), n, -b', sib);
    MkNodes(d, child.Kid(d), child.n, b', Mk(d, child.Kid(d.Opp()), n, -b', sib));
  }

  lemma {:induction false} DoubleNodes(d: Dir, n: Node, b: int, child: Shape, sib: Shape)
    requires child.Bin? && child.Kid(d.Opp()).Bin? && Distinct(Mk(d, child, n, b, sib))
    ensures Nodes(Double(d, n, child, sib)) == Nodes(Mk(d, child, n, b, sib))
    ensures Distinct(Double(d, n, child, sib))
  {
    hide Nodes, Distinct;
    var g, s := child.Kid(d.Opp()), d.Sign();
    var b1, b2 := if g.b == -s then s else 0, if g.b == s then -s else 0;
    KidsMk(d, child);
    KidsMk(d, g);
    MkNodes(d, child, n, b, sib);
    MkNodes(d, child.Kid(d), child.n, child.b, g);
    MkNodes(d, g.Kid(d), g.n, g.b, g.Kid(d.Opp()));
    MkNodes(d, child.Kid(d), child.n, b1, g.Kid(d));
    MkNodes(d, g.Kid(d.Opp()), n, b2, sib);
    MkNodes(d, Mk(d, child.Kid(d), child.n, b1, g.Kid(d)), g.n, 0, Mk(d, g.Kid(d.Opp()), n, b2, sib));
  }

  // ---------------------------------------------------------------------------------------------
  // Neighbours in order

  function First(s: seq<Node>): Node? { if s == [] then null else s[0] }
  function Last(s: seq<Node>): Node? { if s == [] then null else s[|s| - 1] }

  /** The element of `s` at its end on side `d`. */
  function End(d: Dir, s: seq<Node>): Node? { if d == Left then First(s) else Last(s) }

  /** What lies beyond the hole on side `d`; its near end is the neighbour of the hole. */
  ghost function Beyond(d: Dir, c: Ctx): seq<Node> { if d == Left then Before(c) else Behind(c) }

  /** The last node of `t` in direction `d`. */
  function Extreme(d: Dir, t: Shape): Node
    requires t.Bin?
  {
    if t.Kid(d).Leaf? then t.n else Extreme(d, t.Kid(d))
  }

  lemma {:induction false} ExtremeIsEnd(d: Dir, t: Shape)
    requires t.Bin?
    ensures Extreme(d, t) == End(d, InOrder(t))
  {
    KidsMk(d, t);
    MkInOrder(d, t.Kid(d), t.n, t.b, t.Kid(d.Opp()));
    if t.Kid(d).Bin? { ExtremeIsEnd(d, t.Kid(d)); }
  }

  /** Climbing out of children on side `d` until the first step from the other side. */
  function Outward(d: Dir, c: Ctx): Node? {
    if c.Top? then null else if c.d == d then Outward(d, c.up) else c.n
  }

  lemma {:induction false} OutwardIsNeighbour(d: Dir, c: Ctx)
    ensures Outward(d, c) == End(d.Opp(), Beyond(d, c))
  {
    if c.In? && c.d == d { OutwardIsNeighbour(d, c.up); }
  }

  // ---------------------------------------------------------------------------------------------
  // Size and height

  function Fib(n: nat): nat { if n < 2 then n else Fib(n - 1) + Fib(n - 2) }

  lemma {:induction false} FibGrows(n: nat)
    ensures Fib(n) <= Fib(n + 1)
  {
    if n >= 1 { FibGrows(n - 1); }
  }

  lemma {:induction false} FibMonotone(m: nat, n: nat)
    requires m <= n
    ensures Fib(m) <= Fib(n)
  {
    if m < n {
      FibMonotone(m, n - 1);
      FibGrows(n - 1);
    }
  }

  lemma {:induction false} FibSum(l: nat, r: nat)
    requires l <= r + 1 && r <= l + 1
    ensures Fib(l + 2) + Fib(r + 2) >= Fib(3 + Max(l, r))
  {
    var m := Max(l, r);
    assert Fib(m + 3) == Fib(m + 2) + Fib(m + 1);
    FibGrows(m + 1);
  }

  /** A balanced tree of height h has at least Fib(h + 2) - 1 nodes: searches and retraces, which
      follow one path, are logarithmic in the number of nodes. */
  lemma {:induction false} SizeBound(t: Shape)
    requires Avl(t)
    ensures |InOrder(t)| + 1 >= Fib(Height(t) + 2)
  {
    hide Fib;
    if t.Bin? {
      SizeBound(t.l);
      SizeBound(t.r);
      FibSum(Height(t.l), Height(t.r));
      assert |InOrder(t)| == |InOrder(t.l)| + 1 + |InOrder(t.r)|;
    } else {
      FibTwo();
    }
  }

  lemma {:induction false} FibTwo()
    ensures Fib(2) == 1
  {
  }
}
