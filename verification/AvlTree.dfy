/**
  The AVL tree with parent pointers. The pointer fields are related to the ghost shape of the tree;
  rotation, insertion and removal are made of small relinking steps.
 */
module AvlTree {
  import opened Basics
  import opened AvlShape

  /** The nodes of `t` are linked as the shape says; nothing is said of the root's own parent. */
  ghost predicate Sub(t: Shape)
    reads Nodes(t)
    decreases t, 0
  {
    t.Leaf? || (
      && t.n.left == Root(t.l) && t.n.right == Root(t.r) && t.n.balance == t.b
      && Linked(t.l, t.n, Left) && Linked(t.r, t.n, Right))
  }

  /** ... and hang below `p`, as its child `w`. */
  ghost predicate Linked(t: Shape, p: Node?, w: Dir)
    reads Nodes(t)
    decreases t, 1
  {
    && Sub(t)
    && (t.Bin? ==> t.n.parent == p && (p != null ==> t.n.which == w))
  }

  /** What the hole of `c` points to. */
  function Hole(c: Ctx, root: Node?): Node?
    reads if c.In? then {c.n} else {}
  {
    if c.Top? then root else c.n.Child(c.d)
  }

  ghost predicate CtxLinked(c: Ctx, root: Node?)
    reads CtxNodes(c)
  {
    c.Top? || (
      && c.n.Child(c.d.Opp()) == Root(c.sib) && c.n.balance == c.b
      && c.n.parent == Parent(c.up) && (c.up.In? ==> c.n.which == c.up.d)
      && Linked(c.sib, c.n, c.d.Opp()) && CtxLinked(c.up, root)
      && assert c.up.In? ==> c.up.n in CtxNodes(c.up); Hole(c.up, root) == c.n)
  }

  lemma {:induction false} SubMk(d: Dir, a: Shape, n: Node, b: int, c: Shape)
    ensures Sub(Mk(d, a, n, b, c)) <==>
      && n.Child(d) == Root(a) && n.Child(d.Opp()) == Root(c) && n.balance == b
      && Linked(a, n, d) && Linked(c, n, d.Opp())
  {
  }

  lemma {:induction false} BinParts(t: Shape)
    ensures t.Leaf? ==> Sub(t) && Nodes(t) == {}
    ensures t.Bin? ==>
      && Nodes(t) == Nodes(t.l) + {t.n} + Nodes(t.r)
      && (Sub(t) <==>
        && t.n.left == Root(t.l) && t.n.right == Root(t.r) && t.n.balance == t.b
        && Linked(t.l, t.n, Left) && Linked(t.r, t.n, Right))
      && (Distinct(t) <==>
        && t.n !in Nodes(t.l) && t.n !in Nodes(t.r) && Nodes(t.l) !! Nodes(t.r)
        && Distinct(t.l) && Distinct(t.r))
  {
  }

  /** Nodes of a shape exist: whatever is known of them survives writes to other nodes. */
  lemma {:induction false} Alloc(t: Shape)
    ensures forall o | o in Nodes(t) :: allocated(o)
  {
    if t.Bin? {
      Alloc(t.l);
      Alloc(t.r);
    }
  }

  lemma {:induction false} CtxAlloc(c: Ctx)
    ensures forall o | o in CtxNodes(c) :: allocated(o)
  {
    if c.In? {
      Alloc(c.sib);
      CtxAlloc(c.up);
    }
  }

  /** No node is shared between the context and the tree in its hole, nor within them. */
  ghost predicate Apart(c: Ctx, t: Shape) {
    CtxDistinct(c) && Distinct(t) && CtxNodes(c) !! Nodes(t)
  }

  lemma {:induction false} ApartUp(c: Ctx, t: Shape, b: int)
    requires c.In?
    ensures Apart(c, t) <==> Apart(c.up, Mk(c.d, t, c.n, b, c.sib))
  {
  }

  /** `p->m_children[d] = x`, and `x`, if any, is told its new parent and side. */
  method Hang(p: Node, d: Dir, x: Node?, ghost t: Shape)
    requires Sub(t) && Root(t) == x && p !in Nodes(t) && Distinct(t)
    modifies p, x
    ensures Linked(t, p, d) && p.Child(d) == x && p.Child(d.Opp()) == old(p.Child(d.Opp()))
    ensures p.parent == old(p.parent) && p.which == old(p.which) && p.balance == old(p.balance)
  {
    Alloc(t);
    p.SetChild(d, x);
    if x != null {
      x.parent := p;
      x.which := d;
    }
  }

  /** `Hang`, then the balance of `n`: makes `n` the root of `t` on side `d` and its other subtree. */
  method Join(n: Node, d: Dir, x: Node?, balance: int, ghost t: Shape, ghost sib: Shape)
    requires Sub(t) && Root(t) == x && Linked(sib, n, d.Opp()) && n.Child(d.Opp()) == Root(sib)
    requires Distinct(Mk(d, t, n, balance, sib))
    modifies n, x
    ensures Sub(Mk(d, t, n, balance, sib))
    ensures n.parent == old(n.parent) && n.which == old(n.which)
  {
    hide Sub, Nodes, Distinct;
    MkNodes(d, t, n, balance, sib);
    RootIn(t);
    Alloc(t);
    Alloc(sib);
    Hang(n, d, x, t);
    n.balance := balance;
    SubMk(d, t, n, balance, sib);
  }

  /** The relinking of a double rotation: `gch` gets `ch` and `node` as children and they get its. */
  method DoubleRelink(node: Node, ch: Node, gch: Node, d: Dir, b1: int, b2: int,
                      ghost a: Shape, ghost gl: Shape, ghost gr: Shape, ghost sib: Shape)
    requires Linked(a, ch, d) && ch.Child(d) == Root(a)
    requires Linked(sib, node, d.Opp()) && node.Child(d.Opp()) == Root(sib)
    requires Sub(gl) && Root(gl) == gch.Child(d) && Sub(gr) && Root(gr) == gch.Child(d.Opp())
    requires Distinct(Mk(d, Mk(d, a, ch, b1, gl), gch, 0, Mk(d, gr, node, b2, sib)))
    modifies node, ch, gch, gch.Child(d), gch.Child(d.Opp())
    ensures Sub(Mk(d, Mk(d, a, ch, b1, gl), gch, 0, Mk(d, gr, node, b2, sib)))
  {
    hide Sub, Nodes, Distinct;
    var o := d.Opp();
    ghost var x, y := Mk(d, a, ch, b1, gl), Mk(d, gr, node, b2, sib);
    Alloc(x);
    Alloc(y);
    RootIn(gl);
    RootIn(gr);
    MkNodes(d, x, gch, 0, y);
    MkNodes(d, a, ch, b1, gl);
    MkNodes(d, gr, node, b2, sib);
    MkFlip(d, a, ch, b1, gl);
    MkFlip(d, x, gch, 0, y);
    var gleft, gright := gch.Child(d), gch.Child(o);
    Join(node, d, gright, b2, gr, sib);
    Join(ch, o, gleft, b1, gl, a);
    Hang(gch, d, ch, x);
    Join(gch, o, node, 0, y, x);
  }

  lemma {:induction false} TopNodes()
    ensures CtxNodes(Top) == {}
  {
  }

  lemma {:induction false} RootIn(t: Shape)
    ensures t.Bin? ==> t.n in Nodes(t)
  {
  }

  lemma {:induction false} CtxParts(c: Ctx)
    ensures c.In? ==>
      && CtxNodes(c) == {c.n} + Nodes(c.sib) + CtxNodes(c.up)
      && (CtxDistinct(c) <==>
        && c.n !in Nodes(c.sib) && c.n !in CtxNodes(c.up) && Nodes(c.sib) !! CtxNodes(c.up)
        && Distinct(c.sib) && CtxDistinct(c.up))
  {
  }

  lemma {:induction false} ParentIn(c: Ctx)
    ensures c.In? ==> c.n in CtxNodes(c)
  {
  }

  lemma {:induction false} MkFlip(d: Dir, a: Shape, n: Node, b: int, c: Shape)
    ensures Mk(d, a, n, b, c) == Mk(d.Opp(), c, n, b, a)
  {
  }

  /** The side to which a balance leans. */
  function Heavy(balance: int): Dir { if balance < 0 then Left else Right }

  lemma {:induction false} ChildBalance(t: Shape)
    requires Sub(t)
    ensures t.Bin? ==> t.n.balance == t.b
  {
  }

  /** Two views show the same nodes in the same order. */
  ghost predicate Same(c: Ctx, t: Shape, c': Ctx, t': Shape) {
    InOrder(Plug(c, t)) == InOrder(Plug(c', t')) && CtxNodes(c) + Nodes(t) == CtxNodes(c') + Nodes(t')
  }

  /** The tree in the hole is balanced and one higher than the balances above it say. */
  ghost predicate Grew(c: Ctx, t: Shape) {
    && t.Bin? && Avl(t) && Height(t) >= 1 && CtxAvl(c, Height(t) - 1)
    && (t.b != 0 || Height(t) == 1)
  }

  /** The tree in the hole and everything above it are balanced. */
  ghost predicate Restored(c: Ctx, t: Shape) { Avl(t) && CtxAvl(c, Height(t)) }

  lemma {:induction false} GrewTop(t: Shape)
    requires Grew(Top, t)
    ensures Restored(Top, t)
  {
  }

  /** One step up after an insertion. */
  lemma {:induction false} InsertStep(c: Ctx, t: Shape)
    requires c.In? && Grew(c, t)
    ensures var b := c.b + c.d.Sign(); var m := Mk(c.d, t, c.n, b, c.sib);
      && (b == 0 ==> Restored(c.up, m))
      && (b != 0 && c.b == 0 ==> Grew(c.up, m))
      && (b != 0 && c.b != 0 ==> (b == -2 || b == 2) && Heavy(b) == c.d && Rotatable(c.d, t))
      && (b != 0 && c.b != 0 ==> Restored(c.up, Rotate(c.d, c.n, t, c.sib)))
      && (b != 0 && c.b != 0 ==> Height(Rotate(c.d, c.n, t, c.sib)) == 1 + Max(Height(t) - 1, Height(c.sib)))
  {
    var b := c.b + c.d.Sign();
    assert CtxAvl(c, Height(t) - 1);
    hide Height, Avl, Rotate;
    MkAvl(c.d, t, c.n, b, c.sib);
    if b != 0 && c.b != 0 {
      RotateAvl(c.d, c.n, t, c.sib);
    }
  }

  lemma {:induction false} Climb(c: Ctx, t: Shape, m: Shape, c0: Ctx, t0: Shape)
    requires c.In? && Apart(c, t) && Same(c, t, c0, t0) && m.Bin? && m == Mk(c.d, t, c.n, m.b, c.sib)
    ensures Apart(c.up, m) && Same(c.up, m, c0, t0)
  {
    ClimbTo(c, t, m, c0, t0, m.b);
  }

  lemma {:induction false} ClimbTo(c: Ctx, t: Shape, m: Shape, c0: Ctx, t0: Shape, b: int)
    requires c.In? && Apart(c, t) && Same(c, t, c0, t0)
    requires InOrder(m) == InOrder(Mk(c.d, t, c.n, b, c.sib)) && Nodes(m) == Nodes(Mk(c.d, t, c.n, b, c.sib))
    requires Distinct(m)
    ensures Apart(c.up, m) && Same(c.up, m, c0, t0)
  {
    PlugInOrder(c, t);
    PlugInOrder(c.up, m);
    PlugInOrder(c.up, Mk(c.d, t, c.n, c.b, c.sib));
    hide Plug, Before, Behind, Nodes, CtxNodes, Distinct, CtxDistinct;
    MkInOrder(c.d, t, c.n, b, c.sib);
    MkInOrder(c.d, t, c.n, c.b, c.sib);
    MkNodes(c.d, t, c.n, b, c.sib);
    CtxParts(c);
  }

  lemma {:induction false} ClimbRotate(c: Ctx, t: Shape, c0: Ctx, t0: Shape)
    requires c.In? && Apart(c, t) && Same(c, t, c0, t0) && Rotatable(c.d, t)
    ensures Apart(c.up, Rotate(c.d, c.n, t, c.sib)) && Same(c.up, Rotate(c.d, c.n, t, c.sib), c0, t0)
  {
    hide Rotate, Same;
    ApartUp(c, t, c.b);
    RotateInOrder(c.d, c.n, c.b, t, c.sib);
    RotateNodes(c.d, c.n, c.b, t, c.sib);
    ClimbTo(c, t, Rotate(c.d, c.n, t, c.sib), c0, t0, c.b);
  }

  /** The tree in the hole is balanced and one lower than the balances above it say. */
  ghost predicate Sank(c: Ctx, t: Shape) { Avl(t) && CtxAvl(c, Height(t) + 1) }

  lemma {:induction false} SankTop(t: Shape)
    requires Sank(Top, t)
    ensures Restored(Top, t)
  {
  }

  /** One step up after a removal. */
  lemma {:induction false} RemoveStep(c: Ctx, t: Shape)
    requires c.In? && Sank(c, t)
    ensures var b := c.b - c.d.Sign(); var m := Mk(c.d, t, c.n, b, c.sib);
      && (c.b == 0 ==> Restored(c.up, m))
      && (c.b != 0 && b == 0 ==> Sank(c.up, m))
  {
    var b := c.b - c.d.Sign();
    assert CtxAvl(c, Height(t) + 1);
    hide Height, Avl;
    MkAvl(c.d, t, c.n, b, c.sib);
  }

  /** ... when the other child, `c.sib`, is now too high. */
  lemma {:induction false} RemoveRotate(c: Ctx, t: Shape)
    requires c.In? && Sank(c, t)
    ensures var b := c.b - c.d.Sign(); var o := c.d.Opp();
      c.b != 0 && b != 0 ==>
        && (b == -2 || b == 2) && Heavy(b) == o && Rotatable(o, c.sib)
        && var r := Rotate(o, c.n, c.sib, t); if r.b == 0 then Sank(c.up, r) else Restored(c.up, r)
  {
    assert CtxAvl(c, Height(t) + 1);
    hide Height, Avl, Rotate;
    if c.b != 0 && c.b != c.d.Sign() {
      RotateAvl(c.d.Opp(), c.n, c.sib, t);
    }
  }

  lemma {:induction false} ClimbFlip(c: Ctx, t: Shape, c0: Ctx, t0: Shape)
    requires c.In? && Apart(c, t) && Same(c, t, c0, t0) && Rotatable(c.d.Opp(), c.sib)
    ensures var r := Rotate(c.d.Opp(), c.n, c.sib, t); Apart(c.up, r) && Same(c.up, r, c0, t0)
  {
    hide Rotate, Same;
    ApartUp(c, t, c.b);
    MkFlip(c.d, t, c.n, c.b, c.sib);
    RotateInOrder(c.d.Opp(), c.n, c.b, c.sib, t);
    RotateNodes(c.d.Opp(), c.n, c.b, c.sib, t);
    ClimbTo(c, t, Rotate(c.d.Opp(), c.n, c.sib, t), c0, t0, c.b);
  }

  ghost predicate Sorted(s: seq<Node>) { forall i, j | 0 <= i < j < |s| :: s[i].key < s[j].key }

  ghost predicate Below(s: seq<Node>, key: int) { forall n | n in s :: n.key < key }
  ghost predicate Above(s: seq<Node>, key: int) { forall n | n in s :: key < n.key }

  lemma {:induction false} NodesInOrder(t: Shape)
    ensures forall n :: n in Nodes(t) <==> n in InOrder(t)
  {
    if t.Bin? {
      NodesInOrder(t.l);
      NodesInOrder(t.r);
    }
  }

  /** The position of a node in the tree. */
  lemma {:induction false} Locate(c: Ctx, t: Shape, n: Node) returns (c': Ctx, t': Shape)
    requires n in Nodes(t)
    ensures Plug(c', t') == Plug(c, t) && t'.Bin? && t'.n == n
    decreases t
  {
    if n == t.n {
      c', t' := c, t;
    } else if n in Nodes(t.l) {
      c', t' := Locate(In(Left, t.n, t.b, t.r, c), t.l, n);
    } else {
      c', t' := Locate(In(Right, t.n, t.b, t.l, c), t.r, n);
    }
  }

  lemma {:induction false} SortedAt(a: seq<Node>, n: Node, b: seq<Node>)
    requires Sorted(a + b) && Below(a, n.key) && Above(b, n.key)
    ensures Sorted(a + [n] + b)
  {
    var s := a + [n] + b;
    forall i, j | 0 <= i < j < |s| ensures s[i].key < s[j].key {
      if i < |a| { assert s[i] == a[i] && a[i] in a; }
      if i < |a| && |a| < j { assert a[i] == (a + b)[i] && s[j] == (a + b)[j - 1]; }
      if i < |a| && j < |a| { assert a[i] == (a + b)[i] && a[j] == (a + b)[j]; }
      if |a| < i { assert s[i] == (a + b)[i - 1] && s[j] == (a + b)[j - 1]; }
      if i == |a| { assert s[j] == b[j - |a| - 1] && s[j] in b; }
    }
  }

  lemma {:induction false} SortedWithout(a: seq<Node>, n: Node, b: seq<Node>)
    requires Sorted(a + [n] + b)
    ensures Sorted(a + b) && Below(a, n.key) && Above(b, n.key)
  {
    var s := a + [n] + b;
    assert s[|a|] == n;
    forall x | x in a ensures x.key < n.key { var i :| 0 <= i < |a| && a[i] == x; assert s[i] == x; }
    forall x | x in b ensures n.key < x.key { var i :| 0 <= i < |b| && b[i] == x; assert s[|a| + 1 + i] == x; }
    forall i, j | 0 <= i < j < |a + b| ensures (a + b)[i].key < (a + b)[j].key {
      assert (a + b)[i] == s[if i < |a| then i else i + 1] && (a + b)[j] == s[if j < |a| then j else j + 1];
    }
  }

  lemma {:induction false} SortedMiddle(a: seq<Node>, m: seq<Node>, b: seq<Node>)
    requires Sorted(a + m + b)
    ensures Sorted(m)
  {
    forall i, j | 0 <= i < j < |m| ensures m[i].key < m[j].key {
      assert m[i] == (a + m + b)[|a| + i] && m[j] == (a + m + b)[|a| + j];
    }
  }

  lemma {:induction false} BinIsHigh(t: Shape)
    requires t.Bin?
    ensures Height(t) >= 1
  {
  }

  /** The position of a child. */
  ghost function Down(c: Ctx, t: Shape, d: Dir): Ctx
    requires t.Bin?
  {
    In(d, t.n, t.b, t.Kid(d.Opp()), c)
  }

  lemma {:induction false} PlugDown(c: Ctx, t: Shape, d: Dir)
    requires t.Bin?
    ensures Plug(Down(c, t, d), t.Kid(d)) == Plug(c, t)
  {
    KidsMk(d, t);
  }

  /** One step of a search: the key lies on side `d` of the node. */
  lemma {:induction false} Descend(c: Ctx, t: Shape, d: Dir, key: int)
    requires t.Bin? && Sorted(InOrder(t)) && Below(Before(c), key) && Above(Behind(c), key)
    requires key != t.n.key && d == (if key < t.n.key then Left else Right)
    ensures Plug(Down(c, t, d), t.Kid(d)) == Plug(c, t)
    ensures Below(Before(Down(c, t, d)), key) && Above(Behind(Down(c, t, d)), key)
    ensures Height(t.Kid(d)) < Height(t)
  {
    PlugDown(c, t, d);
    SortedWithout(InOrder(t.l), t.n, InOrder(t.r));
  }

  lemma {:induction false} RootInOrder(t: Shape)
    ensures t.Bin? ==> t.n in InOrder(t)
  {
  }

  lemma {:induction false} SingleParts(n: Node)
    ensures Nodes(Bin(Leaf, n, 0, Leaf)) == {n} && InOrder(Bin(Leaf, n, 0, Leaf)) == [n]
  {
    assert Nodes(Leaf) == {} && InOrder(Leaf) == [];
  }

  lemma {:induction false} NewLeaf(n: Node)
    requires n.left == null && n.right == null && n.balance == 0
    ensures var t := Bin(Leaf, n, 0, Leaf); Sub(t) && Nodes(t) == {n} && InOrder(t) == [n] && Distinct(t)
  {
  }

  lemma {:induction false} NewApart(c: Ctx, n: Node)
    requires Apart(c, Leaf) && n !in CtxNodes(c)
    ensures Apart(c, Bin(Leaf, n, 0, Leaf))
  {
  }

  lemma {:induction false} NewGrew(c: Ctx, n: Node)
    requires CtxAvl(c, 0)
    ensures Grew(c, Bin(Leaf, n, 0, Leaf))
  {
  }

  lemma {:induction false} SortedNeighbours(s: seq<Node>, a: seq<Node>, n: Node, b: seq<Node>, i: nat)
    requires s == a + [n] + b && Sorted(s) && i < |s| && s[i] == n
    ensures First(b) == if i + 1 < |s| then s[i + 1] else null
    ensures Last(a) == if i > 0 then s[i - 1] else null
  {
    assert s[|a|] == n;
  }

  /** Where `walk` goes is the neighbour in order. */
  lemma {:induction false} NeighbourIs(d: Dir, c: Ctx, t: Shape)
    requires t.Bin?
    ensures (if t.Kid(d).Bin? then Extreme(d.Opp(), t.Kid(d)) else Outward(d, c))
      == if d == Right then First(InOrder(t.r) + Behind(c)) else Last(Before(c) + InOrder(t.l))
  {
    KidEmpty(t.Kid(d));
    OutwardIsNeighbour(d, c);
    hide InOrder, Before, Behind, Extreme, Outward;
    if t.Kid(d).Bin? { ExtremeIsEnd(d.Opp(), t.Kid(d)); }
  }

  lemma {:induction false} KidEmpty(t: Shape)
    ensures t.Leaf? <==> InOrder(t) == []
  {
  }

  lemma {:induction false} ExtremeDown(d: Dir, t: Shape)
    requires t.Bin?
    ensures t.Kid(d).Bin? ==> Extreme(d, t) == Extreme(d, t.Kid(d))
    ensures t.Kid(d).Leaf? ==> Extreme(d, t) == t.n
  {
  }

  lemma {:induction false} OutwardUp(d: Dir, c: Ctx)
    ensures c.Top? ==> Outward(d, c) == null
    ensures c.In? && c.d == d ==> Outward(d, c) == Outward(d, c.up)
    ensures c.In? && c.d != d ==> Outward(d, c) == c.n
  {
  }

  lemma {:induction false} PlugUp(c: Ctx, t: Shape)
    requires c.In?
    ensures Plug(c, t) == Plug(c.up, Mk(c.d, t, c.n, c.b, c.sib))
  {
  }

  lemma {:induction false} Flatten(a: seq<Node>, l: seq<Node>, n: Node, r: seq<Node>, b: seq<Node>)
    ensures a + (l + [n] + r) + b == (a + l) + [n] + (r + b)
  {
  }

  lemma {:induction false} CutEqual(a: seq<Node>, b: seq<Node>, a': seq<Node>, b': seq<Node>)
    requires a + b == a' + b' && (a == a' || b == b')
    ensures a == a' && b == b'
  {
    assert |a| == |a'| && a == (a + b)[..|a|] && b == (a + b)[|a|..];
    assert a' == (a' + b')[..|a'|] && b' == (a' + b')[|a'|..];
  }

  /** The contents up to, and after, the place next to node `t.n` on side `d`. */
  ghost function Upto(c: Ctx, t: Shape, d: Dir): seq<Node>
    requires t.Bin?
  {
    Before(c) + InOrder(t.l) + if d == Right then [t.n] else []
  }

  ghost function Rest(c: Ctx, t: Shape, d: Dir): seq<Node>
    requires t.Bin?
  {
    (if d == Right then [] else [t.n]) + InOrder(t.r) + Behind(c)
  }

  /** The one of them that holds `t.n`. */
  ghost function Near(c: Ctx, t: Shape, d: Dir): seq<Node>
    requires t.Bin?
  {
    if d == Right then Upto(c, t, d) else Rest(c, t, d)
  }

  lemma {:induction false} UptoRest(c: Ctx, t: Shape, d: Dir)
    requires t.Bin?
    ensures Upto(c, t, d) + Rest(c, t, d) == (Before(c) + InOrder(t.l)) + [t.n] + (InOrder(t.r) + Behind(c))
  {
    hide Before, Behind, InOrder;
  }

  lemma {:induction false} HereDown(c: Ctx, t: Shape, d: Dir)
    requires t.Bin?
    ensures Beyond(d.Opp(), Down(c, t, d)) == Near(c, t, d)
  {
  }

  lemma {:induction false} BeyondDown(c: Ctx, t: Shape, d: Dir)
    requires t.Bin?
    ensures Beyond(d, Down(c, t, d)) == Beyond(d, c)
  {
  }

  // ---------------------------------------------------------------------------------------------
  // Removal of a node with two children

  /** How far a place lies below the root. */
  ghost function Depth(c: Ctx): nat { if c.Top? then 0 else 1 + Depth(c.up) }

  lemma {:induction false} PlugHeight(c: Ctx, t: Shape)
    ensures Depth(c) + Height(t) <= Height(Plug(c, t))
    decreases c
  {
    if c.In? {
      PlugHeight(c.up, Mk(c.d, t, c.n, c.b, c.sib));
    }
  }

  lemma {:induction false} UnderDepth(k: Ctx, base: Ctx)
    ensures Depth(Under(k, base)) == Depth(k) + Depth(base)
    decreases k
  {
    if k.In? { UnderDepth(k.up, base); }
  }

  lemma {:induction false} DepthUp(c: Ctx)
    ensures c.In? ==> Depth(c) == 1 + Depth(c.up)
  {
  }

  /** A side that is not the lower one may get lower by one: the node needs no rotation. */
  lemma {:induction false} TallerSideSpares(d: Dir, t: Shape, k: Shape)
    requires t.Bin? && Avl(t) && (d == Right <==> Height(t.l) < Height(t.r))
    requires Avl(k) && Height(k) == Height(t.Kid(d)) - 1
    ensures Avl(Mk(d, k, t.n, t.b - d.Sign(), t.Kid(d.Opp())))
  {
    KidsAvl(d, t);
    MkAvl(d, k, t.n, t.b - d.Sign(), t.Kid(d.Opp()));
  }

  /** The context `k` inside the hole of `base`. */
  ghost function Under(k: Ctx, base: Ctx): Ctx {
    if k.Top? then base else In(k.d, k.n, k.b, k.sib, Under(k.up, base))
  }

  lemma {:induction false} UnderPlug(k: Ctx, base: Ctx, t: Shape)
    ensures Plug(Under(k, base), t) == Plug(base, Plug(k, t))
    decreases k
  {
    if k.In? { UnderPlug(k.up, base, Mk(k.d, t, k.n, k.b, k.sib)); }
  }

  lemma {:induction false} TopPlug(u: Shape, base: Ctx)
    ensures Plug(Top, u) == u && Under(Top, base) == base
  {
  }

  lemma {:induction false} UnderDown(k: Ctx, base: Ctx, u: Shape, d: Dir)
    requires u.Bin?
    ensures Under(Down(k, u, d), base) == Down(Under(k, base), u, d)
  {
  }

  /** The nodes of the context `k` are linked with each other. */
  ghost predicate Strung(k: Ctx)
    reads CtxNodes(k)
  {
    k.Top? || (
      && k.n.Child(k.d.Opp()) == Root(k.sib) && k.n.balance == k.b && Linked(k.sib, k.n, k.d.Opp())
      && (k.up.In? ==>
            assert k.up.n in CtxNodes(k.up);
            k.n.parent == k.up.n && k.n.which == k.up.d && k.up.n.Child(k.up.d) == k.n && Strung(k.up)))
  }

  /** The outermost node of a context. */
  function Outer(k: Ctx): Node
    requires k.In?
  {
    if k.up.Top? then k.n else Outer(k.up)
  }

  lemma {:induction false} OuterIn(k: Ctx)
    requires k.In?
    ensures Outer(k) in CtxNodes(k)
  {
    if k.up.In? { OuterIn(k.up); }
  }

  /** ... and hang below `x`, on its side `d`. */
  ghost predicate Hung(k: Ctx, x: Node, d: Dir)
    reads CtxNodes(k), x, if k.In? then {Outer(k)} else {}
  {
    Strung(k) && (k.In? ==> Outer(k).parent == x && Outer(k).which == d && x.Child(d) == Outer(k))
  }

  lemma {:induction false} UnderLinked(k: Ctx, base: Ctx, root: Node?)
    requires base.In?
    ensures CtxLinked(Under(k, base), root) <==> CtxLinked(base, root) && Hung(k, base.n, base.d)
    decreases k
  {
    hide Linked;
    if k.In? { UnderLinked(k.up, base, root); }
  }

  lemma {:induction false} UnderNodes(k: Ctx, base: Ctx)
    ensures CtxNodes(Under(k, base)) == CtxNodes(k) + CtxNodes(base)
    ensures CtxDistinct(Under(k, base)) <==> CtxDistinct(k) && CtxDistinct(base) && CtxNodes(k) !! CtxNodes(base)
    decreases k
  {
    if k.In? { UnderNodes(k.up, base); }
  }

  /** Subtrees, and what is above a hole, stay linked when only the outer ends are relinked. */
  twostate lemma {:induction false} SubKept(t: Shape)
    requires old(Sub(t)) && Distinct(t)
    requires forall o | o in Nodes(t) :: old(allocated(o)) && (Root(t) == o || unchanged(o))
    requires t.Bin? ==> t.n.left == old(t.n.left) && t.n.right == old(t.n.right) && t.n.balance == old(t.n.balance)
    ensures Sub(t)
  {
    BinParts(t);
  }

  lemma {:induction false} OuterRoot(c: Ctx, root: Node?)
    requires c.In? && CtxLinked(c, root)
    ensures root == Outer(c)
  {
    if c.up.In? { OuterRoot(c.up, root); }
  }

  twostate lemma {:induction false} CtxKept(c: Ctx)
    requires c.In? && old(CtxLinked(c, Outer(c))) && CtxDistinct(c)
    requires forall o | o in CtxNodes(c) :: old(allocated(o)) && (o == c.n || unchanged(o))
    requires c.n.parent == old(c.n.parent) && c.n.which == old(c.n.which) && c.n.balance == old(c.n.balance)
    requires c.n.Child(c.d.Opp()) == old(c.n.Child(c.d.Opp()))
    ensures CtxLinked(c, Outer(c))
  {
    CtxParts(c);
  }

  twostate lemma {:induction false} StrungKept(k: Ctx)
    requires k.In? && old(Strung(k)) && CtxDistinct(k)
    requires forall o | o in CtxNodes(k) :: old(allocated(o)) && o.balance == old(o.balance) && o.which == old(o.which)
    requires forall o | o in CtxNodes(k) && o != Outer(k) :: o.parent == old(o.parent)
    requires forall o | o in CtxNodes(k) && o != k.n :: o.left == old(o.left) && o.right == old(o.right)
    requires forall o | o in CtxNodes(k) && o != k.n && o != Outer(k) :: unchanged(o)
    requires k.n.Child(k.d.Opp()) == old(k.n.Child(k.d.Opp()))
    ensures Strung(k)
    decreases k
  {
    CtxParts(k);
    if k.up.Top? {
      assert Linked(k.sib, k.n, k.d.Opp());
    } else {
      OuterIn(k.up);
      ParentIn(k.up);
      assert Linked(k.sib, k.n, k.d.Opp());
      StrungKept(k.up);
    }
  }

  /** The node above the hole of a context inside another. */
  lemma {:induction false} UnderHole(k: Ctx, base: Ctx)
    requires base.In?
    ensures var c := Under(k, base);
      c.In? && if k.Top? then c.n == base.n && c.d == base.d else c.n == k.n && c.d == k.d
  {
  }

  lemma {:induction false} TopLinked(root: Node?)
    ensures CtxLinked(Top, root)
  {
  }

  lemma {:induction false} TopStrung()
    ensures Strung(Top)
  {
  }

  lemma {:induction false} HungParts(k: Ctx, x: Node, d: Dir)
    requires Hung(k, x, d)
    ensures Strung(k)
    ensures k.In? ==>
      Outer(k) in CtxNodes(k) && Outer(k).parent == x && Outer(k).which == d && x.Child(d) == Outer(k)
  {
    if k.In? { OuterIn(k); }
  }

  lemma {:induction false} LinkedParts(t: Shape, p: Node?, w: Dir)
    requires Linked(t, p, w) && t.Bin?
    ensures Sub(t) && t.n.parent == p && (p != null ==> t.n.which == w)
  {
  }

  /** After the swap, too, no node is shared. */
  lemma {:induction false} SwapApart(k: Ctx, base: Ctx, u: Shape, tmp: Node)
    requires base.In? && u.Bin? && base.n == u.n && tmp !in CtxNodes(k) + CtxNodes(base.up) + Nodes(base.sib) + Nodes(u)
    requires CtxDistinct(base.up) && Distinct(base.sib) && CtxDistinct(k) && Distinct(u.l) && Distinct(u.r)
    requires u.n !in Nodes(u.l) && u.n !in Nodes(u.r) && Nodes(u.l) !! Nodes(u.r)
    requires CtxNodes(base.up) !! Nodes(base.sib) !! CtxNodes(k) !! Nodes(u)
    ensures Apart(Under(k, base), Bin(u.l, tmp, u.b, u.r))
    ensures CtxNodes(Under(k, base)) == CtxNodes(k) + {base.n} + Nodes(base.sib) + CtxNodes(base.up)
    ensures Nodes(Bin(u.l, tmp, u.b, u.r)) == Nodes(u) - {u.n} + {tmp}
  {
    hide Distinct, Nodes, CtxNodes, CtxDistinct, Under;
    UnderNodes(k, base);
    CtxParts(base);
    BinParts(u);
    BinParts(Bin(u.l, tmp, u.b, u.r));
  }

  /** Heights and balances do not depend on which node sits where. */
  lemma {:induction false} UnderAvl(k: Ctx, base: Ctx, base': Ctx, h: nat)
    requires base.In? && base'.In? && base' == base.(n := base'.n)
    ensures CtxAvl(Under(k, base), h) <==> CtxAvl(Under(k, base'), h)
    decreases k
  {
    if k.In? { UnderAvl(k.up, base, base', 1 + Max(h, Height(k.sib))); }
  }

  /** All steps of `k` go to side `o`. */
  ghost predicate Spine(k: Ctx, o: Dir) { k.In? ==> k.d == o && Spine(k.up, o) }

  lemma {:induction false} SpineEnd(k: Ctx, o: Dir)
    requires Spine(k, o)
    ensures Beyond(o, k) == []
  {
    if k.In? { SpineEnd(k.up, o); }
  }

  /** At the end of a spine sits the last node in its direction. */
  lemma {:induction false} SpineOrder(d: Dir, k: Ctx, u: Shape)
    requires u.Bin? && u.Kid(d.Opp()).Leaf? && Spine(k, d.Opp())
    ensures var rest := InOrder(Plug(k, u.Kid(d)));
      InOrder(Plug(k, u)) == if d == Left then rest + [u.n] else [u.n] + rest
  {
    SpineEnd(k, d.Opp());
    KidEmpty(u.Kid(d.Opp()));
    hide InOrder, Before, Behind, Plug;
    PlugInOrder(k, u);
    PlugInOrder(k, u.Kid(d));
    KidsMk(d, u);
    MkInOrder(d, u.Kid(d), u.n, u.b, u.Kid(d.Opp()));
  }

  /** With the neighbour `u.n` of `x`, found down the spine `k`, in the place of `x`, just `x` is
      missing from the order. */
  lemma {:induction false} SwapOrder(d: Dir, k: Ctx, u: Shape, x: Node, b: int, sib: Shape)
    requires u.Bin? && u.Kid(d.Opp()).Leaf? && Spine(k, d.Opp())
    ensures var t := Mk(d, Plug(k, u), x, b, sib);
      InOrder(Mk(d, Plug(k, u.Kid(d)), u.n, b, sib)) == InOrder(t.l) + InOrder(t.r)
  {
    hide InOrder, Plug;
    SpineOrder(d, k, u);
    MkInOrder(d, Plug(k, u.Kid(d)), u.n, b, sib);
    if d == Right { assert InOrder(sib) + [u.n] + InOrder(Plug(k, u.Kid(d))) == InOrder(sib) + InOrder(Plug(k, u)); }
  }

  /** The child that `Unlink` leaves. */
  function OnlyKid(t: Shape): Shape requires t.Bin? { if t.l.Bin? then t.l else t.r }

  /** Taking out a node with at most one child lowers its subtree by one. */
  lemma {:induction false} PlainSank(c: Ctx, t: Shape)
    requires t.Bin? && (t.l.Leaf? || t.r.Leaf?) && Avl(t) && CtxAvl(c, Height(t))
    ensures Sank(c, OnlyKid(t))
    ensures InOrder(Plug(c, OnlyKid(t))) == (Before(c) + InOrder(t.l)) + (InOrder(t.r) + Behind(c))
  {
    PlugInOrder(c, OnlyKid(t));
    KidEmpty(t.l);
    KidEmpty(t.r);
  }

  lemma {:induction false} SwapSank(d: Dir, c: Ctx, t: Shape, k: Ctx, u: Shape, tmp: Node)
    requires t.Bin? && Avl(t) && CtxAvl(c, Height(t)) && Plug(k, u) == t.Kid(d)
    requires u.Bin? && u.Kid(d.Opp()).Leaf? && Spine(k, d.Opp())
    ensures var c' := Under(k, In(d, u.n, t.b, t.Kid(d.Opp()), c)); var t' := Bin(u.l, tmp, u.b, u.r);
      && Sank(c', OnlyKid(t'))
      && InOrder(Plug(c', OnlyKid(t'))) == (Before(c) + InOrder(t.l)) + (InOrder(t.r) + Behind(c))
  {
    var sib, kid := t.Kid(d.Opp()), u.Kid(d);
    var base, base' := In(d, t.n, t.b, sib, c), In(d, u.n, t.b, sib, c);
    assert OnlyKid(Bin(u.l, tmp, u.b, u.r)) == kid;
    assert Height(u) == 1 + Height(kid) && (Avl(u) ==> Avl(kid));
    hide Height, Avl, CtxAvl, Plug, Under, InOrder, Before, Behind, Spine;
    KidsMk(d, t);
    PlugAvl(c, t);
    UnderPlug(k, base, u);
    PlugUp(base, Plug(k, u));
    PlugAvl(Under(k, base), u);
    UnderAvl(k, base, base', Height(u));
    UnderPlug(k, base', kid);
    PlugUp(base', Plug(k, kid));
    PlugInOrder(c, Mk(d, Plug(k, kid), u.n, t.b, sib));
    SwapOrder(d, k, u, t.n, t.b, sib);
    Regroup4(Before(c), InOrder(t.l), InOrder(t.r), Behind(c));
  }

  lemma {:induction false} Regroup4(a: seq<Node>, l: seq<Node>, r: seq<Node>, b: seq<Node>)
    ensures a + (l + r) + b == (a + l) + (r + b)
  {
  }

  /** `insertion_point`: null, or a child of a node. */
  datatype Point = Nowhere | At(parent: Node?, which: Dir)

  class Tree {
    var root: Node?
    var num: nat
    ghost var shape: Shape

    /** Links, stored balances, search order and node count are right. */
    ghost predicate Valid()
      reads this, Nodes(shape)
    {
      && Focus(Top, shape) && Distinct(shape) && Avl(shape)
      && Sorted(InOrder(shape)) && num == |InOrder(shape)|
    }

    /** The nodes in order: the contract of the tree. */
    ghost function Contents(): seq<Node> reads this { InOrder(shape) }

    constructor ()
      ensures Valid() && Contents() == []
    {
      root, num, shape := null, 0, Leaf;
    }

    /** The pointers form context `c` with tree `t` in its hole. */
    ghost predicate Focus(c: Ctx, t: Shape)
      reads this`root, CtxNodes(c), Nodes(t)
    {
      CtxLinked(c, root) && Linked(t, Parent(c), Side(c)) && Hole(c, root) == Root(t)
    }

    lemma {:induction false} FocusUp(c: Ctx, t: Shape)
      requires c.In?
      ensures Focus(c, t) <==> Focus(c.up, Mk(c.d, t, c.n, c.b, c.sib))
    {
      SubMk(c.d, t, c.n, c.b, c.sib);
    }

    lemma {:induction false} FocusPlug(c: Ctx, t: Shape)
      ensures Focus(c, t) <==> Focus(Top, Plug(c, t))
      decreases c
    {
      if c.In? {
        FocusUp(c, t);
        FocusPlug(c.up, Mk(c.d, t, c.n, c.b, c.sib));
      }
    }

    /** A tree, perhaps empty, is put into the hole: the parent, or the root pointer, points to it. */
    method PutInHole(x: Node?, parent: Node?, which: Dir, ghost c: Ctx, ghost t: Shape)
      requires CtxLinked(c, root) && Sub(t) && Root(t) == x && Apart(c, t)
      requires parent == Parent(c) && (c.In? ==> which == c.d)
      modifies this`root, x, parent
      ensures Focus(c, t)
    {
      hide Sub, Nodes, Distinct, CtxNodes, CtxDistinct;
      Alloc(t);
      CtxAlloc(c);
      BinParts(t);
      CtxParts(c);
      if c.In? { ParentIn(c.up); }
      if x != null {
        x.which := which;
        x.parent := parent;
      }
      if parent != null {
        parent.SetChild(which, x);
      } else {
        root := x;
      }
      BinParts(t);
    }

    method SingleRotation(node: Node, d: Dir, ghost c: Ctx, ghost b: int, ghost child: Shape, ghost sib: Shape)
      requires Focus(c, Mk(d, child, node, b, sib)) && Apart(c, Mk(d, child, node, b, sib))
      requires child.Bin?
      modifies this`root, CtxNodes(c), Nodes(Mk(d, child, node, b, sib))
      ensures Focus(c, Single(d, node, child, sib))
    {
      hide Sub, Nodes, Distinct, CtxNodes, CtxDistinct, CtxLinked;
      var o := d.Opp();
      ghost var t, a, r := Mk(d, child, node, b, sib), child.Kid(d), child.Kid(o);
      Alloc(t);
      CtxAlloc(c);
      ParentIn(c);
      RootIn(r);
      KidsMk(d, child);
      MkNodes(d, child, node, b, sib);
      MkNodes(d, a, child.n, child.b, r);
      SubMk(d, child, node, b, sib);
      SubMk(d, a, child.n, child.b, r);
      var parent, which, ch := node.parent, node.which, node.Child(d);
      var balance := ch.balance - d.Sign();
      ghost var low := Mk(d, r, node, -balance, sib);
      SingleNodes(d, node, b, child, sib);
      MkNodes(d, r, node, -balance, sib);
      MkFlip(d, a, ch, balance, low);
      Join(node, d, ch.Child(o), -balance, r, sib);
      Join(ch, o, node, balance, low, a);
      PutInHole(ch, parent, which, c, Single(d, node, child, sib));
    }

    method DoubleRotation(node: Node, d: Dir, ghost c: Ctx, ghost b: int, ghost child: Shape, ghost sib: Shape)
      requires Focus(c, Mk(d, child, node, b, sib)) && Apart(c, Mk(d, child, node, b, sib))
      requires child.Bin? && child.Kid(d.Opp()).Bin?
      modifies this`root, CtxNodes(c), Nodes(Mk(d, child, node, b, sib))
      ensures Focus(c, Double(d, node, child, sib))
    {
      hide Sub, Nodes, Distinct, CtxNodes, CtxDistinct, CtxLinked;
      var o, s := d.Opp(), d.Sign();
      ghost var t, a, g := Mk(d, child, node, b, sib), child.Kid(d), child.Kid(o);
      ghost var gl, gr := g.Kid(d), g.Kid(o);
      Alloc(t);
      CtxAlloc(c);
      ParentIn(c);
      RootIn(gl);
      RootIn(gr);
      KidsMk(d, child);
      KidsMk(d, g);
      MkNodes(d, child, node, b, sib);
      MkNodes(d, a, child.n, child.b, g);
      MkNodes(d, gl, g.n, g.b, gr);
      SubMk(d, child, node, b, sib);
      SubMk(d, a, child.n, child.b, g);
      SubMk(d, gl, g.n, g.b, gr);
      var parent, which, ch := node.parent, node.which, node.Child(d);
      var gch := ch.Child(o);
      var balance := gch.balance;
      var b1, b2 := if balance == -s then s else 0, if balance == s then -s else 0;
      DoubleNodes(d, node, b, child, sib);
      DoubleRelink(node, ch, gch, d, b1, b2, a, gl, gr, sib);
      PutInHole(gch, parent, which, c, Double(d, node, child, sib));
    }

    /** `rotation`: `node` is two too high on one side; tells whether the subtree got lower. */
    method Rotation(node: Node, balance: int, ghost c: Ctx, ghost b: int, ghost child: Shape, ghost sib: Shape)
      returns (shorter: bool)
      requires balance == -2 || balance == 2
      requires var d := Heavy(balance);
        && Focus(c, Mk(d, child, node, b, sib)) && Apart(c, Mk(d, child, node, b, sib)) && Rotatable(d, child)
      modifies this`root, CtxNodes(c), Nodes(Mk(Heavy(balance), child, node, b, sib))
      ensures Focus(c, Rotate(Heavy(balance), node, child, sib))
      ensures shorter <==> Rotate(Heavy(balance), node, child, sib).b == 0
    {
      hide Sub, CtxLinked, Nodes, Distinct, CtxNodes, CtxDistinct;
      var d := Heavy(balance);
      SubMk(d, child, node, b, sib);
      ChildBalance(child);
      var childBalance := node.Child(d).balance;
      if childBalance != -d.Sign() {
        SingleRotation(node, d, c, b, child, sib);
        shorter := childBalance - d.Sign() == 0;
      } else {
        DoubleRotation(node, d, c, b, child, sib);
        shorter := true;
      }
    }

    method SetBalance(n: Node, balance: int, ghost c: Ctx, ghost t: Shape)
      requires Focus(c, t) && Apart(c, t) && c.In? && c.n == n
      modifies n
      ensures Focus(c.up, Mk(c.d, t, n, balance, c.sib))
    {
      hide Nodes, Distinct, CtxNodes, CtxDistinct, Sub;
      CtxAlloc(c);
      Alloc(t);
      CtxParts(c);
      ParentIn(c.up);
      n.balance := balance;
      SubMk(c.d, t, n, balance, c.sib);
    }

    /** The loop of `insert_at`: on the way up balances are adjusted, until the height of a subtree
        did not change; at most one rotation is made, and it is the last step. */
    method RetraceInsert(parent: Node?, which: Dir, ghost c0: Ctx, ghost t0: Shape)
      returns (ghost s: Shape, ghost climbed: nat, ghost rotations: nat)
      requires Focus(c0, t0) && Apart(c0, t0) && Grew(c0, t0)
      requires parent == Parent(c0) && (c0.In? ==> which == c0.d)
      modifies this`root, CtxNodes(c0), Nodes(t0)
      ensures Focus(Top, s) && Distinct(s) && Avl(s)
      ensures climbed <= Depth(c0) && rotations <= 1
      ensures InOrder(s) == InOrder(Plug(c0, t0)) && Nodes(s) == CtxNodes(c0) + Nodes(t0)
    {
      hide Focus, Apart, Grew, Restored, Nodes, CtxNodes, Distinct, Avl, Height, CtxAvl, InOrder, Plug, Rotate, Depth;
      ghost var c, t := c0, t0;
      var n, w := parent, which;
      climbed, rotations := 0, 0;
      while n != null
        invariant Focus(c, t) && Apart(c, t) && Grew(c, t)
        invariant Same(c, t, c0, t0)
        invariant n == Parent(c) && (c.In? ==> w == c.d)
        invariant rotations == 0 && climbed + Depth(c) <= Depth(c0)
        decreases c
      {
        FocusParent(c, t);
        DepthUp(c);
        climbed := climbed + 1;
        CtxParts(c);
        MkNodes(c.d, t, n, c.b, c.sib);
        InsertStep(c, t);
        var newBalance := n.balance + w.Sign();
        if newBalance == 0 {
          SetBalance(n, 0, c, t);
          Climb(c, t, Mk(c.d, t, n, 0, c.sib), c0, t0);
          s := Finish(c.up, Mk(c.d, t, n, 0, c.sib), c0, t0);
          return;
        }
        if n.balance != 0 {
          FocusUp(c, t);
          ApartUp(c, t, c.b);
          var shorter := Rotation(n, newBalance, c.up, c.b, t, c.sib);
          rotations := rotations + 1;
          ClimbRotate(c, t, c0, t0);
          s := Finish(c.up, Rotate(c.d, n, t, c.sib), c0, t0);
          return;
        }
        SetBalance(n, newBalance, c, t);
        Climb(c, t, Mk(c.d, t, n, newBalance, c.sib), c0, t0);
        c, t := c.up, Mk(c.d, t, n, newBalance, c.sib);
        FocusRoot(c, t);
        n, w := n.parent, n.which;
      }
      GrewTop(t);
      s := Finish(c, t, c0, t0);
    }

    /** `remove_node` once the node has at most one child: the child moves up in its place. */
    method Unlink(x: Node, ghost c: Ctx, ghost t: Shape) returns (ghost k: Shape)
      requires Focus(c, t) && Apart(c, t) && t.Bin? && t.n == x && (t.l.Leaf? || t.r.Leaf?)
      modifies this`root, CtxNodes(c), Nodes(t)
      ensures k == OnlyKid(t) && Nodes(k) <= Nodes(t)
      ensures Focus(c, k) && Apart(c, k)
    {
      hide Sub, Nodes, Distinct, CtxNodes, CtxDistinct, CtxLinked;
      BinParts(t);
      ParentIn(c);
      RootIn(t.l);
      RootIn(t.r);
      k := OnlyKid(t);
      PutInHole(if x.left != null then x.left else x.right, x.parent, x.which, c, k);
    }

    /** The loop of `remove_node`: on the way up balances are adjusted and subtrees rotated, until
        the height of a subtree did not change. */
    method RetraceRemove(parent: Node?, which: Dir, ghost c0: Ctx, ghost t0: Shape)
      returns (ghost s: Shape, ghost climbed: nat)
      requires Focus(c0, t0) && Apart(c0, t0) && Sank(c0, t0)
      requires parent == Parent(c0) && (c0.In? ==> which == c0.d)
      modifies this`root, CtxNodes(c0), Nodes(t0)
      ensures Focus(Top, s) && Distinct(s) && Avl(s)
      ensures climbed <= Depth(c0)
      ensures InOrder(s) == InOrder(Plug(c0, t0)) && Nodes(s) == CtxNodes(c0) + Nodes(t0)
    {
      hide Focus, Apart, Sank, Restored, Nodes, CtxNodes, Distinct, Avl, Height, CtxAvl, InOrder, Plug, Rotate, Depth;
      ghost var c, t := c0, t0;
      var p, w := parent, which;
      climbed := 0;
      while p != null
        invariant Focus(c, t) && Apart(c, t) && Sank(c, t)
        invariant Same(c, t, c0, t0)
        invariant p == Parent(c) && (c.In? ==> w == c.d)
        invariant climbed + Depth(c) <= Depth(c0)
        decreases c
      {
        var n := p;
        FocusParent(c, t);
        DepthUp(c);
        climbed := climbed + 1;
        CtxParts(c);
        MkNodes(c.d, t, n, c.b, c.sib);
        RemoveStep(c, t);
        RemoveRotate(c, t);
        ghost var up := c.up;
        var oldBalance := n.balance;
        var newBalance := oldBalance - w.Sign();
        p, w := n.parent, n.which;
        if oldBalance == 0 {
          SetBalance(n, newBalance, c, t);
          Climb(c, t, Mk(c.d, t, n, newBalance, c.sib), c0, t0);
          s := Finish(up, Mk(c.d, t, n, newBalance, c.sib), c0, t0);
          return;
        }
        if newBalance == 0 {
          SetBalance(n, 0, c, t);
          Climb(c, t, Mk(c.d, t, n, 0, c.sib), c0, t0);
          t := Mk(c.d, t, n, 0, c.sib);
        } else {
          FocusUp(c, t);
          ApartUp(c, t, c.b);
          MkFlip(c.d, t, n, c.b, c.sib);
          var shorter := Rotation(n, newBalance, up, c.b, c.sib, t);
          ClimbFlip(c, t, c0, t0);
          t := Rotate(c.d.Opp(), n, c.sib, t);
          if !shorter {
            s := Finish(up, t, c0, t0);
            return;
          }
        }
        c := up;
      }
      SankTop(t);
      s := Finish(c, t, c0, t0);
    }

    /** A view of a valid tree from one of its positions. */
    lemma {:induction false} View(c: Ctx, t: Shape)
      requires Valid() && Plug(c, t) == shape
      ensures Focus(c, t) && Apart(c, t) && CtxAvl(c, Height(t)) && Avl(t)
      ensures Contents() == Before(c) + InOrder(t) + Behind(c)
      ensures CtxNodes(c) + Nodes(t) == Nodes(shape)
    {
      hide Focus, CtxDistinct, Distinct, CtxAvl, Avl, CtxNodes, Nodes, Plug, Height, InOrder;
      FocusPlug(c, t);
      PlugDistinct(c, t);
      PlugAvl(c, t);
      PlugInOrder(c, t);
      PlugNodes(c, t);
    }

    lemma {:induction false} InitialView(key: int)
      requires Valid()
      ensures Plug(Top, shape) == shape && root == Root(shape)
      ensures Below(Before(Top), key) && Above(Behind(Top), key)
    {
    }

    lemma {:induction false} RootLinks(c: Ctx, t: Shape)
      requires Focus(c, t) && t.Bin?
      ensures t.n.left == Root(t.l) && t.n.right == Root(t.r) && t.n.balance == t.b && t.n in Nodes(t)
      ensures t.n.parent == Parent(c) && (c.In? ==> t.n.which == c.d)
    {
      BinParts(t);
    }

    /** A path down to any place of the tree is logarithmic in the number of nodes. */
    lemma {:induction false} DepthBound(c: Ctx, t: Shape)
      requires Valid() && Plug(c, t) == shape
      ensures Fib(Depth(c) + 2) <= num + 1
    {
      hide Focus, Plug, Fib, Height, Depth, Avl;
      PlugHeight(c, t);
      StepsBound(Depth(c));
    }

    lemma {:induction false} StepsBound(steps: nat)
      requires Valid() && steps <= Height(shape)
      ensures Fib(steps + 2) <= num + 1
    {
      hide Fib;
      SizeBound(shape);
      FibMonotone(steps + 2, Height(shape) + 2);
    }

    /** `find_node`: a binary search, down to the node or to the insertion point of `key`. It visits
        at most as many nodes as the tree is high. */
    method FindNode(key: int)
      returns (node: Node?, parent: Node?, which: Dir, ghost c: Ctx, ghost t: Shape, ghost steps: nat)
      requires Valid()
      ensures Valid() && Plug(c, t) == shape && Root(t) == node
      ensures Below(Before(c), key) && Above(Behind(c), key)
      ensures node != null ==> node.key == key
      ensures node == null ==> parent == Parent(c) && (c.In? ==> which == c.d)
      ensures Fib(steps + 2) <= num + 1
    {
      hide Focus, Apart, Plug, Sorted, Below, Above, Before, Behind, InOrder, Nodes, CtxNodes, Distinct, Avl, CtxAvl,
        Height, Fib;
      InitialView(key);
      node, parent, which := root, null, Left;
      c, t, steps := Top, shape, 0;
      while node != null
        invariant Valid() && Plug(c, t) == shape && node == Root(t)
        invariant Below(Before(c), key) && Above(Behind(c), key)
        invariant parent == Parent(c) && (c.In? ==> which == c.d)
        invariant steps + Height(t) <= Height(shape)
        decreases t
      {
        View(c, t);
        RootLinks(c, t);
        BinIsHigh(t);
        steps := steps + 1;
        if key == node.key {
          StepsBound(steps);
          return;
        }
        SortedMiddle(Before(c), InOrder(t), Behind(c));
        parent := node;
        which := if key < node.key then Left else Right;
        Descend(c, t, which, key);
        c, t := Down(c, t, which), t.Kid(which);
        node := node.Child(which);
      }
      StepsBound(steps);
    }

    /** The new leaf of `insert_at`, linked in but not yet counted in the balances. */
    method AttachLeaf(key: int, parent: Node?, which: Dir, ghost c: Ctx) returns (n: Node)
      requires Focus(c, Leaf) && Apart(c, Leaf) && CtxAvl(c, 0)
      requires parent == Parent(c) && (c.In? ==> which == c.d)
      modifies this`root, CtxNodes(c)
      ensures fresh(n) && n.key == key
      ensures var t := Bin(Leaf, n, 0, Leaf); Focus(c, t) && Apart(c, t) && Grew(c, t)
    {
      hide Focus, CtxNodes, Apart, CtxAvl, Sub, CtxLinked, Grew;
      CtxAlloc(c);
      ParentIn(c);
      FocusCtx(c);
      n := new Node(parent, which, key);
      NewLeaf(n);
      NewApart(c, n);
      NewGrew(c, n);
      PutInHole(n, parent, which, c, Bin(Leaf, n, 0, Leaf));
    }

    /** `insert_at`: a new leaf at an insertion point, then retracing. */
    method InsertAt(key: int, parent: Node?, which: Dir, ghost c: Ctx)
      returns (n: Node, ghost climbed: nat, ghost rotations: nat)
      requires Valid() && Plug(c, Leaf) == shape && parent == Parent(c) && (c.In? ==> which == c.d)
      requires Below(Before(c), key) && Above(Behind(c), key)
      modifies this, Nodes(shape)
      ensures Valid() && fresh(n) && n.key == key
      ensures Contents() == Before(c) + [n] + Behind(c) && old(Contents()) == Before(c) + Behind(c)
      ensures Fib(climbed + 2) <= num && rotations <= 1
      ensures Nodes(shape) == old(Nodes(shape)) + {n}
    {
      hide Fib, Depth, Below, Above, Sorted, InOrder, Avl;
      ghost var s := InsertedShape(c);
      hide Focus, Plug, Before, Behind, Nodes, CtxNodes, Distinct, Apart, CtxAvl, Grew;
      num := num + 1;
      n := AttachLeaf(key, parent, which, c);
      ghost var s';
      s', climbed, rotations := RetraceInsert(parent, which, c, Bin(Leaf, n, 0, Leaf));
      FibMonotone(climbed + 2, Depth(c) + 2);
      Alloc(s');
      TopNodes();
      shape := s';
      InsertedOrder(c, n, s);
    }

    lemma {:induction false} InsertedShape(c: Ctx) returns (s: seq<Node>)
      requires Valid() && Plug(c, Leaf) == shape
      ensures Focus(c, Leaf) && Apart(c, Leaf) && CtxAvl(c, 0) && CtxNodes(c) == Nodes(shape)
      ensures s == Contents() == Before(c) + Behind(c) && Sorted(s) && Fib(Depth(c) + 2) <= num + 1
    {
      DepthBound(c, Leaf);
      View(c, Leaf);
      s := Contents();
    }

    lemma {:induction false} InsertedOrder(c: Ctx, n: Node, s: seq<Node>)
      requires s == Before(c) + Behind(c) && Sorted(s) && Below(Before(c), n.key) && Above(Behind(c), n.key)
      ensures var t := Bin(Leaf, n, 0, Leaf);
        && InOrder(Plug(c, t)) == Before(c) + [n] + Behind(c) && Nodes(t) == {n}
        && Sorted(InOrder(Plug(c, t))) && |InOrder(Plug(c, t))| == |s| + 1
    {
      var t := Bin(Leaf, n, 0, Leaf);
      hide *;
      SingleParts(n);
      PlugInOrder(c, t);
      SortedAt(Before(c), n, Behind(c));
    }

    lemma {:induction false} FocusCtx(c: Ctx)
      requires Focus(c, Leaf)
      ensures CtxLinked(c, root)
    {
    }

    /** `add`: find the insertion point, then insert. The key must not be there yet. */
    method Add(key: int) returns (n: Node, ghost c: Ctx, ghost climbed: nat, ghost rotations: nat)
      requires Valid() && forall m | m in Contents() :: m.key != key
      modifies this, Nodes(shape)
      ensures Valid() && fresh(n) && n.key == key
      ensures old(Contents()) == Before(c) + Behind(c) && Contents() == Before(c) + [n] + Behind(c)
      ensures Fib(climbed + 2) <= num && rotations <= 1
    {
      var node, parent, which;
      ghost var t, steps;
      node, parent, which, c, t, steps := FindNode(key);
      NotFound(key, c, t);
      n, climbed, rotations := InsertAt(key, parent, which, c);
    }

    lemma {:induction false} NotFound(key: int, c: Ctx, t: Shape)
      requires Valid() && Plug(c, t) == shape && (t.Bin? ==> t.n.key == key)
      requires forall m | m in Contents() :: m.key != key
      ensures t.Leaf?
    {
      if t.Bin? {
        View(c, t);
        RootInOrder(t);
        assert false;
      }
    }

    /** `walk`: the neighbour of a node in direction `d`. */
    method Walk(start: Node, d: Dir, ghost c0: Ctx, ghost t0: Shape) returns (r: Node?)
      requires Valid() && Plug(c0, t0) == shape && t0.Bin? && t0.n == start
      ensures Valid()
      ensures r == if t0.Kid(d).Bin? then Extreme(d.Opp(), t0.Kid(d)) else Outward(d, c0)
    {
      hide Valid, Plug, Focus, Extreme, Outward, CtxLinked, Sub;
      var o := d.Opp();
      ghost var c, t := c0, t0;
      ViewRoot(c, t);
      if start.Child(d) != null {
        PlugDown(c, t, d);
        c, t := Down(c, t, d), t.Kid(d);
        r := start.Child(d);
        ViewRoot(c, t);
        while r.Child(o) != null
          invariant Valid() && Plug(c, t) == shape && t.Bin? && r == t.n
          invariant Extreme(o, t) == Extreme(o, t0.Kid(d))
          invariant r.Child(o) == Root(t.Kid(o)) && r.Child(d) == Root(t.Kid(d))
          decreases t
        {
          PlugDown(c, t, o);
          ExtremeDown(o, t);
          c, t := Down(c, t, o), t.Kid(o);
          r := r.Child(o);
          ViewRoot(c, t);
        }
        ExtremeDown(o, t);
      } else {
        r := start;
        while true
          invariant Valid() && Plug(c, t) == shape && t.Bin? && r == t.n
          invariant Outward(d, c) == Outward(d, c0)
          invariant r.parent == Parent(c) && (c.In? ==> r.which == c.d)
          decreases c
        {
          var wasChild := r.which;
          r := r.parent;
          OutwardUp(d, c);
          if r == null {
            return;
          }
          if wasChild == o {
            return;
          }
          PlugUp(c, t);
          c, t := c.up, Mk(c.d, t, c.n, c.b, c.sib);
          ViewRoot(c, t);
        }
      }
    }

    lemma {:induction false} ViewRoot(c: Ctx, t: Shape)
      requires Valid() && Plug(c, t) == shape && t.Bin?
      ensures t.n.left == Root(t.l) && t.n.right == Root(t.r) && t.n.balance == t.b
      ensures t.n.parent == Parent(c) && (c.In? ==> t.n.which == c.d)
    {
      View(c, t);
      RootLinks(c, t);
    }

    /** `nearest`: the node before or after an insertion point of a non-empty tree; none for the null point,
        which `find` gives when it finds the value. */
    method Nearest(where: Point, d: Dir, ghost c: Ctx) returns (r: Node?)
      requires Valid()
      requires where.At? ==> Plug(c, Leaf) == shape && c.In? && where.parent == c.n && where.which == c.d
      ensures Valid()
      ensures where.Nowhere? ==> r == null
      ensures where.At? ==>
        Contents() == Before(c) + Behind(c) && r == if d == Left then Last(Before(c)) else First(Behind(c))
    {
      if where.Nowhere? {
        return null;
      }
      hide Valid, Plug, Outward, Before, Behind;
      PlugUp(c, Leaf);
      OutwardUp(d, c);
      OutwardIsNeighbour(d, c);
      if where.which != d {
        r := where.parent;
      } else {
        r := Walk(where.parent, d, c.up, Mk(c.d, Leaf, c.n, c.b, c.sib));
      }
      InsertionPoint(c);
    }

    lemma {:induction false} InsertionPoint(c: Ctx)
      requires Valid() && Plug(c, Leaf) == shape
      ensures Contents() == Before(c) + Behind(c)
    {
      View(c, Leaf);
    }

    /** `next` and `prev`: the neighbours of the i-th node are the (i+1)-st and the (i-1)-st. */
    method Step(node: Node, d: Dir, ghost i: nat) returns (r: Node?)
      requires Valid() && i < |Contents()| && Contents()[i] == node
      ensures d == Right ==> r == if i + 1 < |Contents()| then Contents()[i + 1] else null
      ensures d == Left ==> r == if i > 0 then Contents()[i - 1] else null
    {
      ghost var c, t := LocateAt(node);
      r := Walk(node, d, c, t);
      StepIs(i, d, c, t);
    }

    lemma {:induction false} LocateAt(node: Node) returns (c: Ctx, t: Shape)
      requires node in Contents()
      ensures Plug(c, t) == shape && t.Bin? && t.n == node
    {
      NodesInOrder(shape);
      c, t := Locate(Top, shape, node);
      assert Plug(Top, shape) == shape;
    }

    lemma {:induction false} StepIs(i: nat, d: Dir, c: Ctx, t: Shape)
      requires Valid() && Plug(c, t) == shape && t.Bin? && i < |Contents()| && Contents()[i] == t.n
      ensures var r := if t.Kid(d).Bin? then Extreme(d.Opp(), t.Kid(d)) else Outward(d, c);
        && (d == Right ==> r == if i + 1 < |Contents()| then Contents()[i + 1] else null)
        && (d == Left ==> r == if i > 0 then Contents()[i - 1] else null)
    {
      hide *;
      ViewOrder(c, t);
      SortedNeighbours(Contents(), Before(c) + InOrder(t.l), t.n, InOrder(t.r) + Behind(c), i);
      NeighbourIs(d, c, t);
    }

    lemma {:induction false} ViewOrder(c: Ctx, t: Shape)
      requires Valid() && Plug(c, t) == shape && t.Bin?
      ensures Contents() == (Before(c) + InOrder(t.l)) + [t.n] + (InOrder(t.r) + Behind(c)) && Sorted(Contents())
    {
      View(c, t);
      assert InOrder(t) == InOrder(t.l) + [t.n] + InOrder(t.r);
      hide *;
      Flatten(Before(c), InOrder(t.l), t.n, InOrder(t.r), Behind(c));
      SortedContents();
    }

    lemma {:induction false} SortedContents()
      requires Valid()
      ensures Sorted(Contents())
    {
    }

    /** `insert_here`: insert right before or right after the node `here`, at the nearest free place. */
    method InsertHere(key: int, here: Node, d: Dir, ghost c0: Ctx, ghost t0: Shape)
      returns (n: Node, ghost climbed: nat, ghost rotations: nat)
      requires Valid() && Plug(c0, t0) == shape && t0.Bin? && t0.n == here
      requires Below(Upto(c0, t0, d), key) && Above(Rest(c0, t0, d), key)
      modifies this, Nodes(shape)
      ensures Valid() && fresh(n) && n.key == key
      ensures old(Contents()) == Upto(c0, t0, d) + Rest(c0, t0, d)
      ensures Contents() == Upto(c0, t0, d) + [n] + Rest(c0, t0, d)
      ensures Fib(climbed + 2) <= num && rotations <= 1
    {
      hide Valid, Plug, Before, Behind, Below, Above, InOrder, Upto, Rest, Near, Beyond, Nodes;
      var node, child := here, d;
      ghost var c, t := c0, t0;
      ViewRoot(c, t);
      PlugDown(c, t, d);
      HereDown(c, t, d);
      c, t := Down(c, t, d), t.Kid(d);
      if node.Child(child) != null {
        node := node.Child(child);
        child := child.Opp();
        ViewRoot(c, t);
        while node.Child(child) != null
          invariant Valid() && shape == old(shape) && Plug(c, t) == shape && t.Bin? && node == t.n && child == d.Opp()
          invariant Beyond(child, c) == Near(c0, t0, d)
          invariant node.Child(child) == Root(t.Kid(child))
          decreases t
        {
          PlugDown(c, t, child);
          BeyondDown(c, t, child);
          c, t := Down(c, t, child), t.Kid(child);
          node := node.Child(child);
          ViewRoot(c, t);
        }
        PlugDown(c, t, child);
        BeyondDown(c, t, child);
        c, t := Down(c, t, child), t.Kid(child);
      }
      HereSplit(c, c0, t0, d);
      n, climbed, rotations := InsertAt(key, node, child, c);
    }

    lemma {:induction false} HereSplit(c: Ctx, c0: Ctx, t0: Shape, d: Dir)
      requires Valid() && Plug(c, Leaf) == shape && Plug(c0, t0) == shape && t0.Bin?
      requires Beyond(d.Opp(), c) == Near(c0, t0, d)
      ensures Before(c) == Upto(c0, t0, d) && Behind(c) == Rest(c0, t0, d)
    {
      InsertionPoint(c);
      ViewOrder(c0, t0);
      UptoRest(c0, t0, d);
      hide Valid, Plug, Before, Behind, InOrder, Upto, Rest;
      CutEqual(Before(c), Behind(c), Upto(c0, t0, d), Rest(c0, t0, d));
    }

    /** Two views of the same shape are equally good. */
    lemma {:induction false} Refocus(c: Ctx, t: Shape, c': Ctx, t': Shape)
      requires Focus(c, t) && Apart(c, t) && Plug(c, t) == Plug(c', t')
      ensures Focus(c', t') && Apart(c', t') && CtxNodes(c) + Nodes(t) == CtxNodes(c') + Nodes(t')
    {
      hide Focus, Plug, Nodes, CtxNodes, Distinct, CtxDistinct;
      FocusPlug(c, t);
      FocusPlug(c', t');
      PlugDistinct(c, t);
      PlugDistinct(c', t');
      PlugNodes(c, t);
      PlugNodes(c', t');
    }

    /** The neighbour of `x` on side `d`: one step down on that side, then as far as possible on the
        other. */
    method NeighbourBelow(x: Node, d: Dir, ghost c: Ctx, ghost t: Shape)
      returns (node: Node, ghost k: Ctx, ghost u: Shape)
      requires Valid() && Plug(c, t) == shape && t.Bin? && t.n == x && t.Kid(d).Bin?
      ensures Valid() && Plug(k, u) == t.Kid(d) && Spine(k, d.Opp())
      ensures u.Bin? && u.n == node && u.Kid(d.Opp()).Leaf?
    {
      hide Valid, Plug, Focus, Under;
      var o := d.Opp();
      ghost var base := Down(c, t, d);
      ViewRoot(c, t);
      PlugDown(c, t, d);
      node, k, u := x.Child(d), Top, t.Kid(d);
      TopPlug(u, base);
      ViewRoot(base, u);
      while node.Child(o) != null
        invariant Valid() && Plug(Under(k, base), u) == shape && Plug(k, u) == t.Kid(d) && Spine(k, o)
        invariant u.Bin? && u.n == node && node.Child(o) == Root(u.Kid(o))
        decreases u
      {
        PlugDown(k, u, o);
        PlugDown(Under(k, base), u, o);
        UnderDown(k, base, u, o);
        k, u := Down(k, u, o), u.Kid(o);
        node := node.Child(o);
        ViewRoot(Under(k, base), u);
      }
    }

    /** What there is to know before the swap: the contexts above and below `x`, the siblings, and the
        neighbour `node` with its subtrees. */
    lemma {:induction false} SwapParts(x: Node, d: Dir, c: Ctx, b: int, sib: Shape, k: Ctx, u: Shape)
      requires Focus(c, Mk(d, Plug(k, u), x, b, sib)) && Apart(c, Mk(d, Plug(k, u), x, b, sib)) && u.Bin?
      ensures CtxLinked(c, root) && Hung(k, x, d) && Linked(sib, x, d.Opp())
      ensures x.Child(d.Opp()) == Root(sib) && x.balance == b && x.parent == Parent(c) && (c.In? ==> x.which == c.d)
      ensures k.Top? ==> x.Child(d) == u.n && u.n.parent == x && u.n.which == d
      ensures k.In? ==> k.n.Child(k.d) == u.n && u.n.parent == k.n && u.n.which == k.d
      ensures u.n.left == Root(u.l) && u.n.right == Root(u.r) && u.n.balance == u.b
      ensures Linked(u.l, u.n, Left) && Linked(u.r, u.n, Right)
      ensures CtxDistinct(c) && Distinct(sib) && CtxDistinct(k) && Distinct(u.l) && Distinct(u.r)
      ensures x !in CtxNodes(c) && x !in Nodes(sib) && x !in CtxNodes(k) && x !in Nodes(u)
      ensures u.n !in Nodes(u.l) && u.n !in Nodes(u.r) && Nodes(u.l) !! Nodes(u.r)
      ensures Nodes(u) == Nodes(u.l) + {u.n} + Nodes(u.r)
      ensures CtxNodes(c) !! Nodes(sib) !! CtxNodes(k) !! Nodes(u)
      ensures CtxNodes(c) + Nodes(Mk(d, Plug(k, u), x, b, sib))
        == CtxNodes(c) + Nodes(sib) + CtxNodes(k) + Nodes(u) + {x}
    {
      hide Plug, Sub, Linked, CtxLinked, Nodes, CtxNodes, Distinct, CtxDistinct, Under, Hung;
      var base := In(d, x, b, sib, c);
      UnderPlug(k, base, u);
      PlugUp(base, Plug(k, u));
      Refocus(c, Mk(d, Plug(k, u), x, b, sib), Under(k, base), u);
      UnderNodes(k, base);
      UnderLinked(k, base, root);
      CtxParts(base);
      BinParts(u);
      BaseLinked(base);
      UnderHole(k, base);
      LinkedParts(u, Parent(Under(k, base)), Side(Under(k, base)));
    }

    lemma {:induction false} BaseLinked(base: Ctx)
      requires base.In? && CtxLinked(base, root)
      ensures base.n.Child(base.d.Opp()) == Root(base.sib) && base.n.balance == base.b
      ensures base.n.parent == Parent(base.up) && (base.up.In? ==> base.n.which == base.up.d)
      ensures Linked(base.sib, base.n, base.d.Opp()) && CtxLinked(base.up, root)
    {
    }

    /** The first half of the swap: `tmp` keeps the links of `node`, which takes the place of `x`. */
    method MoveUp(x: Node, node: Node, tmp: Node, d: Dir, ghost c: Ctx, ghost b: int, ghost sib: Shape, ghost k: Ctx)
      requires CtxLinked(c, root) && Hung(k, x, d) && Linked(sib, x, d.Opp()) && sib.Bin?
      requires x.Child(d.Opp()) == Root(sib) && x.balance == b && x.parent == Parent(c) && (c.In? ==> x.which == c.d)
      requires k.Top? ==> x.Child(d) == node
      requires CtxDistinct(c) && Distinct(sib) && CtxDistinct(k) && CtxNodes(c) !! Nodes(sib) !! CtxNodes(k)
      requires {x, node, tmp} !! CtxNodes(c) + Nodes(sib) + CtxNodes(k) && x != node && tmp != node && tmp != x
      modifies this`root, CtxNodes(c), Nodes(sib), CtxNodes(k), node, tmp`parent
      ensures CtxLinked(In(d, node, b, sib, c), root) && Hung(k, node, d)
      ensures k.Top? ==> node.Child(d) == tmp && tmp.parent == node
      ensures k.In? ==> tmp.parent == old(tmp.parent)
    {
      hide Nodes, CtxNodes, Distinct, CtxDistinct, CtxLinked, Sub, Strung, Outer, Linked, Hung;
      CtxAlloc(c);
      CtxAlloc(k);
      Alloc(sib);
      RootIn(sib);
      ParentIn(c);
      HungParts(k, x, d);
      LinkedParts(sib, x, d.Opp());
      CopyLinks(x, node, tmp, d);
      EnterAbove(node, c);
      TellChildren(node, tmp, d, sib, k);
      BaseIs(In(d, node, b, sib, c));
    }

    /** The children of `node` are told their new parent. */
    method TellChildren(node: Node, tmp: Node, d: Dir, ghost sib: Shape, ghost k: Ctx)
      requires Strung(k) && CtxDistinct(k) && (k.In? ==> Outer(k).which == d && node.Child(d) == Outer(k))
      requires k.Top? ==> node.Child(d) == tmp
      requires sib.Bin? && Sub(sib) && Distinct(sib) && sib.n.which == d.Opp() && node.Child(d.Opp()) == sib.n
      requires CtxNodes(k) !! Nodes(sib) && {node, tmp} !! Nodes(sib) + CtxNodes(k)
      requires tmp != node
      modifies node.Child(d)`parent, node.Child(d.Opp())`parent
      ensures Hung(k, node, d) && Linked(sib, node, d.Opp()) && node.Child(d).parent == node
    {
      CtxAlloc(k);
      Alloc(sib);
      RootIn(sib);
      if k.In? { OuterIn(k); }
      hide Nodes, CtxNodes, Distinct, CtxDistinct, Sub, Strung, Outer;
      node.Child(d).parent := node;
      node.Child(d.Opp()).parent := node;
      SubKept(sib);
      if k.In? { StrungKept(k); } else { TopStrung(); }
    }

    /** `node` gets the links of `x`; if it was the child of `x`, that child is `tmp` now. */
    method CopyLinks(x: Node, node: Node, tmp: Node, d: Dir)
      requires x != node && x.Child(d.Opp()) != node && tmp != node
      modifies node
      ensures node.Child(d) == if x.Child(d) == node then tmp else x.Child(d)
      ensures node.Child(d.Opp()) == x.Child(d.Opp())
      ensures node.parent == x.parent && node.which == x.which && node.balance == x.balance
    {
      node.left, node.right, node.parent, node.which, node.balance := x.left, x.right, x.parent, x.which, x.balance;
      if node.Child(d) == node {
        node.SetChild(d, tmp);
      }
    }

    /** The hole of `c` is made to point to `node`. */
    method EnterAbove(node: Node, ghost c: Ctx)
      requires CtxLinked(c, root) && CtxDistinct(c) && node !in CtxNodes(c)
      requires node.parent == Parent(c) && (c.In? ==> node.which == c.d)
      modifies this`root, node.parent
      ensures CtxLinked(c, root) && Hole(c, root) == node
    {
      CtxAlloc(c);
      ParentIn(c);
      if c.In? { OuterRoot(c, root); }
      hide CtxNodes, CtxDistinct, CtxLinked, Outer;
      var parent := node.parent;
      if parent != null {
        parent.SetChild(node.which, node);
        CtxKept(c);
      } else {
        root := node;
        TopLinked(root);
      }
    }

    lemma {:induction false} BaseIs(base: Ctx)
      requires base.In? && CtxLinked(base.up, root) && Hole(base.up, root) == base.n
      requires base.n.Child(base.d.Opp()) == Root(base.sib) && base.n.balance == base.b
      requires base.n.parent == Parent(base.up) && (base.up.In? ==> base.n.which == base.up.d)
      requires Linked(base.sib, base.n, base.d.Opp())
      ensures CtxLinked(base, root)
    {
    }

    /** The second half: `tmp` stands where the neighbour stood; it has at most one child. */
    method MoveDown(tmp: Node, node: Node, ghost c: Ctx, ghost t: Shape)
      requires t.Bin? && t.n == tmp && (t.l.Leaf? || t.r.Leaf?) && c.In? && CtxLinked(c, root) && Apart(c, t)
      requires tmp.left == Root(t.l) && tmp.right == Root(t.r) && tmp.balance == t.b
      requires tmp.parent == c.n && tmp.which == c.d
      requires Linked(t.l, node, Left) && Linked(t.r, node, Right)
      modifies c.n, Nodes(t)
      ensures Focus(c, t)
    {
      Alloc(t);
      CtxAlloc(c);
      BinParts(t);
      RootIn(t.l);
      RootIn(t.r);
      ParentIn(c);
      OuterRoot(c, root);
      hide Nodes, CtxNodes, Distinct, CtxDistinct, CtxLinked, Sub;
      var parent := tmp.parent;
      parent.SetChild(tmp.which, tmp);
      var which := if tmp.right != null then Right else Left;
      if tmp.Child(which) != null {
        tmp.Child(which).parent := tmp;
      }
      SubKept(t.l);
      SubKept(t.r);
      CtxKept(c);
      BinParts(t);
    }

    /** `remove_node` for a node `x` with two children: the neighbour `node` takes its place and the
        placeholder `tmp` that of the neighbour. */
    method SwapWithNeighbour(x: Node, node: Node, d: Dir, ghost c: Ctx, ghost b: int, ghost sib: Shape,
                             ghost k: Ctx, ghost u: Shape)
      returns (tmp: Node, ghost c': Ctx, ghost t': Shape)
      requires Focus(c, Mk(d, Plug(k, u), x, b, sib)) && Apart(c, Mk(d, Plug(k, u), x, b, sib))
      requires u.Bin? && u.n == node && u.Kid(d.Opp()).Leaf? && sib.Bin?
      modifies this`root, CtxNodes(c), Nodes(Mk(d, Plug(k, u), x, b, sib))
      ensures fresh(tmp) && t' == Bin(u.l, tmp, u.b, u.r) && c' == Under(k, In(d, node, b, sib, c))
      ensures Focus(c', t') && Apart(c', t')
      ensures CtxNodes(c') + Nodes(t') == CtxNodes(c) + Nodes(Mk(d, Plug(k, u), x, b, sib)) - {x} + {tmp}
    {
      hide Focus, Apart, Plug, Nodes, CtxNodes, Distinct, CtxDistinct, CtxLinked, Sub, Linked, Hung, Under;
      SwapParts(x, d, c, b, sib, k, u);
      CtxAlloc(c);
      CtxAlloc(k);
      Alloc(sib);
      Alloc(u);
      ParentIn(k);
      if k.In? { OuterIn(k); }
      tmp := new Node(node.parent, node.which, node.key);
      tmp.left, tmp.right, tmp.balance := node.left, node.right, node.balance;
      ghost var base := In(d, node, b, sib, c);
      c', t' := Under(k, base), Bin(u.l, tmp, u.b, u.r);
      MoveUp(x, node, tmp, d, c, b, sib, k);
      UnderLinked(k, base, root);
      UnderHole(k, base);
      SwapApart(k, base, u, tmp);
      MoveDown(tmp, node, c', t');
    }

    /** The side from which the neighbour is taken: the taller one, and the left one if they are even. */
    method TallerSide(x: Node, ghost c: Ctx, ghost t: Shape) returns (d: Dir)
      requires Valid() && Plug(c, t) == shape && t.Bin? && t.n == x
      ensures Valid() && (d == Right <==> Height(t.l) < Height(t.r))
    {
      hide Valid, Plug, Focus;
      ViewFocus(c, t);
      d := if x.balance == 1 then Right else Left;
    }

    /** `remove_node`: the other nodes stay, in their order. */
    method RemoveNode(x: Node, ghost c: Ctx, ghost t: Shape) returns (ghost climbed: nat)
      requires Valid() && Plug(c, t) == shape && t.Bin? && t.n == x
      modifies this, Nodes(shape)
      ensures Valid() && num == old(num) - 1 && Fib(climbed + 2) <= old(num) + 1
      ensures old(Contents()) == (Before(c) + InOrder(t.l)) + [x] + (InOrder(t.r) + Behind(c))
      ensures Contents() == (Before(c) + InOrder(t.l)) + (InOrder(t.r) + Behind(c))
    {
      hide Valid, Plug, Focus, Apart, Nodes, CtxNodes, InOrder, Before, Behind, Sank, Spine, Under, Avl, CtxAvl, Height,
        Fib, Depth;
      ViewOrder(c, t);
      ViewFocus(c, t);
      ghost var c', t' := c, t;
      var rm := x;
      if x.left != null && x.right != null {
        var d := TallerSide(x, c, t);
        ghost var k, u;
        var node;
        node, k, u := NeighbourBelow(x, d, c, t);
        KidsMk(d, t);
        SwapDepth(d, c, t, k, u);
        ViewFocus(c, t);
        rm, c', t' := SwapWithNeighbour(x, node, d, c, t.b, t.Kid(d.Opp()), k, u);
        SwapSank(d, c, t, k, u, rm);
      } else {
        DepthBound(c, t);
        PlainSank(c, t);
      }
      num := num - 1;
      climbed := RemoveLow(rm, c', t');
      FibMonotone(climbed + 2, Depth(c') + 2);
      Removed(Before(c) + InOrder(t.l), x, InOrder(t.r) + Behind(c));
    }

    /** The second half of `remove_node`. */
    method RemoveLow(rm: Node, ghost c: Ctx, ghost t: Shape) returns (ghost climbed: nat)
      requires Focus(c, t) && Apart(c, t) && t.Bin? && t.n == rm && (t.l.Leaf? || t.r.Leaf?)
      requires Sank(c, OnlyKid(t))
      modifies this`root, this`shape, CtxNodes(c), Nodes(t)
      ensures Focus(Top, shape) && Distinct(shape) && Avl(shape)
      ensures InOrder(shape) == InOrder(Plug(c, OnlyKid(t))) && climbed <= Depth(c)
    {
      hide Plug, Focus, Apart, Nodes, CtxNodes, InOrder, Sank, Avl, Distinct, Depth;
      var parent, which := rm.parent, rm.which;
      RootLinks(c, t);
      ghost var k := Unlink(rm, c, t);
      ghost var s;
      s, climbed := RetraceRemove(parent, which, c, k);
      Alloc(s);
      TopNodes();
      shape := s;
    }

    /** The place that the neighbour leaves, and from which retracing starts. */
    lemma {:induction false} SwapDepth(d: Dir, c: Ctx, t: Shape, k: Ctx, u: Shape)
      requires Valid() && t.Bin? && Plug(c, t) == shape && Plug(k, u) == t.Kid(d)
      ensures forall y: Node :: Fib(Depth(Under(k, In(d, y, t.b, t.Kid(d.Opp()), c))) + 2) <= num + 1
    {
      hide Valid, Plug, Under, Fib, Depth;
      var base := In(d, t.n, t.b, t.Kid(d.Opp()), c);
      KidsMk(d, t);
      UnderPlug(k, base, u);
      PlugUp(base, Plug(k, u));
      DepthBound(Under(k, base), u);
      UnderDepth(k, base);
      DepthUp(base);
      forall y: Node ensures Fib(Depth(Under(k, In(d, y, t.b, t.Kid(d.Opp()), c))) + 2) <= num + 1 {
        UnderDepth(k, In(d, y, t.b, t.Kid(d.Opp()), c));
        DepthUp(In(d, y, t.b, t.Kid(d.Opp()), c));
      }
    }

    lemma {:induction false} Removed(a: seq<Node>, x: Node, b: seq<Node>)
      requires Focus(Top, shape) && Distinct(shape) && Avl(shape) && InOrder(shape) == a + b
      requires Sorted(a + [x] + b) && num == |a| + |b|
      ensures Valid() && Contents() == a + b
    {
      SortedWithout(a, x, b);
    }

    lemma {:induction false} ViewFocus(c: Ctx, t: Shape)
      requires Valid() && Plug(c, t) == shape && t.Bin?
      ensures Focus(c, t) && Apart(c, t) && CtxNodes(c) + Nodes(t) == Nodes(shape)
      ensures t.n.left == Root(t.l) && t.n.right == Root(t.r) && t.n.balance == t.b && num == |Contents()|
      ensures Avl(t) && CtxAvl(c, Height(t))
    {
      View(c, t);
      RootLinks(c, t);
    }

    lemma {:induction false} FocusParent(c: Ctx, t: Shape)
      requires Focus(c, t) && c.In?
      ensures c.n.balance == c.b && c.n in CtxNodes(c)
      ensures c.n.parent == Parent(c.up) && (c.up.In? ==> c.n.which == c.up.d)
    {
    }

    lemma {:induction false} FocusRoot(c: Ctx, t: Shape)
      requires Focus(c, t) && t.Bin?
      ensures t.n.parent == Parent(c) && (c.In? ==> t.n.which == c.d)
    {
    }

    /** The whole tree, when the subtree in focus and everything above it are balanced. */
    lemma {:induction false} Finish(c: Ctx, t: Shape, c0: Ctx, t0: Shape) returns (s: Shape)
      requires Focus(c, t) && Apart(c, t) && Same(c, t, c0, t0) && Restored(c, t)
      ensures Focus(Top, s) && Distinct(s) && Avl(s)
      ensures InOrder(s) == InOrder(Plug(c0, t0)) && Nodes(s) == CtxNodes(c0) + Nodes(t0)
    {
      hide Focus, Nodes, CtxNodes, Distinct, CtxDistinct, Avl, Height, CtxAvl, InOrder, Plug;
      s := Plug(c, t);
      FocusPlug(c, t);
      PlugAvl(c, t);
      PlugDistinct(c, t);
      PlugNodes(c, t);
    }
  }
}
