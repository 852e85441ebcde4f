/**
  `destroy_nodes`: each call hands out the next node in post-order and unlinks the one handed out
  before, so that the caller may delete it; in the end the tree is empty.
 */
module AvlDestroy {
  import opened AvlShape
  import opened AvlTree

  ghost function PostOrder(t: Shape): seq<Node> {
    if t.Leaf? then [] else PostOrder(t.l) + PostOrder(t.r) + [t.n]
  }

  /** What is left to visit above a finished hole; left siblings of right children are gone. */
  ghost function PostCtx(c: Ctx): seq<Node> {
    if c.Top? then [] else PostOrder(c.sib) + [c.n] + PostCtx(c.up)
  }

  /** Left siblings are destroyed, right siblings are still whole. */
  ghost predicate Doomed(c: Ctx) {
    c.In? ==> (if c.d == Right then c.sib == Leaf else Avl(c.sib)) && Doomed(c.up)
  }

  lemma {:induction false} PostOrderCounts(t: Shape)
    ensures |PostOrder(t)| == |InOrder(t)| && multiset(PostOrder(t)) == multiset(InOrder(t))
  {
    if t.Bin? {
      PostOrderCounts(t.l);
      PostOrderCounts(t.r);
    }
  }

  /** Everything below a node is handed out before the node, and in one block. */
  lemma {:induction false} ChildrenFirst(c: Ctx, t: Shape) returns (a: seq<Node>, b: seq<Node>)
    requires t.Bin?
    ensures PostOrder(Plug(c, t)) == a + (PostOrder(t.l) + PostOrder(t.r) + [t.n]) + b
    decreases c
  {
    hide PostOrder, Plug;
    PostParts(t);
    if c.Top? {
      a, b := [], [];
      TopPlug(t, Top);
    } else {
      var m := Mk(c.d, t, c.n, c.b, c.sib);
      PlugUp(c, t);
      PostParts(m);
      var a', b' := ChildrenFirst(c.up, m);
      var p, q := PostOrder(t), PostOrder(c.sib);
      if c.d == Left {
        a, b := a', q + [c.n] + b';
        Spread(a', [], p, q, c.n, b');
      } else {
        a, b := a' + q, [c.n] + b';
        Spread(a', q, p, [], c.n, b');
      }
    }
  }

  lemma {:induction false} PostParts(t: Shape)
    requires t.Bin?
    ensures PostOrder(t) == PostOrder(t.l) + PostOrder(t.r) + [t.n]
    ensures t.l.Leaf? ==> PostOrder(t) == PostOrder(t.r) + [t.n]
  {
  }

  lemma {:induction false} Spread(a: seq<Node>, l: seq<Node>, p: seq<Node>, r: seq<Node>, n: Node, b: seq<Node>)
    ensures a + (l + p + r + [n]) + b == (a + l) + p + (r + [n] + b)
    ensures l + p + [] + [n] == l + p + [n] && [] + p + r + [n] == p + r + [n] && a + [] == a && [] + [n] + b == [n] + b
  {
  }

  /** Node `n` has been handed out, in the hole of `c`; `todo` is still to come. */
  ghost predicate HandedOut(tr: Tree, cur: Point, c: Ctx, n: Node, b: int, todo: seq<Node>)
    reads tr`root, tr`num, CtxNodes(c), Nodes(Bin(Leaf, n, b, Leaf))
  {
    && tr.Focus(c, Bin(Leaf, n, b, Leaf)) && Apart(c, Bin(Leaf, n, b, Leaf)) && Doomed(c)
    && cur.At? && cur.parent == Parent(c) && (c.In? ==> cur.which == c.d)
    && todo == PostCtx(c) && tr.num == |todo| + 1
  }

  /** An untouched subtree `t`, next in line, in the hole of `c`. */
  ghost predicate NextIn(tr: Tree, c: Ctx, t: Shape, todo: seq<Node>)
    reads tr`root, CtxNodes(c), Nodes(t)
  {
    && tr.Focus(c, t) && Apart(c, t) && Doomed(c) && t.Bin? && Avl(t)
    && todo == PostOrder(t) + PostCtx(c)
  }

  lemma {:induction false} NextLeft(tr: Tree, c: Ctx, t: Shape, todo: seq<Node>)
    requires NextIn(tr, c, t, todo) && t.l.Bin?
    ensures NextIn(tr, Down(c, t, Left), t.l, todo)
  {
    tr.FocusUp(Down(c, t, Left), t.l);
    ApartUp(Down(c, t, Left), t.l, t.b);
  }

  /** The leftmost node below, which has no left child. */
  method GoLeft(tr: Tree, start: Node, ghost c0: Ctx, ghost t0: Shape, ghost todo: seq<Node>)
    returns (node: Node, ghost c: Ctx, ghost t: Shape)
    requires NextIn(tr, c0, t0, todo) && t0.n == start
    ensures NextIn(tr, c, t, todo) && t.n == node && t.l.Leaf?
    ensures CtxNodes(c) + Nodes(t) == CtxNodes(c0) + Nodes(t0)
  {
    node, c, t := start, c0, t0;
    tr.RootLinks(c, t);
    while node.left != null
      invariant NextIn(tr, c, t, todo) && t.n == node && node.left == Root(t.l)
      invariant CtxNodes(c) + Nodes(t) == CtxNodes(c0) + Nodes(t0)
      decreases t
    {
      NextLeft(tr, c, t, todo);
      node, c, t := node.left, Down(c, t, Left), t.l;
      tr.RootLinks(c, t);
    }
  }

  /** `check_right_side`: a node without left child has, by balance, at most a leaf on its right. */
  method CheckRightSide(tr: Tree, start: Node, ghost c0: Ctx, ghost t0: Shape, ghost todo: seq<Node>)
    returns (node: Node, parent: Node?, ghost c: Ctx, ghost b: int)
    requires NextIn(tr, c0, t0, todo) && t0.n == start && t0.l.Leaf?
    ensures var t := Bin(Leaf, node, b, Leaf);
      && tr.Focus(c, t) && Apart(c, t) && Doomed(c) && todo == [node] + PostCtx(c)
      && parent == Parent(c) && (c.In? ==> node.which == c.d)
      && CtxNodes(c) + Nodes(t) == CtxNodes(c0) + Nodes(t0)
  {
    tr.RootLinks(c0, t0);
    PostParts(t0);
    LowTree(Leaf);
    node, parent, c, b := start, start.parent, c0, t0.b;
    if node.right != null {
      assert node.balance == 1;
      LowTree(t0.r);
      tr.FocusUp(Down(c0, t0, Right), t0.r);
      ApartUp(Down(c0, t0, Right), t0.r, t0.b);
      c, b := Down(c0, t0, Right), t0.r.b;
      parent, node := node, node.right;
      tr.RootLinks(c, t0.r);
      assert node.left == null && node.right == null;
    } else {
      assert node.balance <= 0;
    }
  }

  lemma {:induction false} LowTree(t: Shape)
    requires Height(t) <= 1
    ensures t.Bin? ==> t.l.Leaf? && t.r.Leaf? && PostOrder(t) == [t.n]
    ensures t.Leaf? ==> PostOrder(t) == []
  {
    if t.Bin? { assert Height(t.l) == 0 && Height(t.r) == 0; }
  }

  lemma {:induction false} UnlinkedUp(tr: Tree, c: Ctx)
    requires tr.Focus(c, Leaf) && Apart(c, Leaf) && c.In? && Doomed(c)
    ensures tr.Focus(c.up, Mk(c.d, Leaf, c.n, c.b, c.sib)) && Apart(c.up, Mk(c.d, Leaf, c.n, c.b, c.sib))
    ensures CtxNodes(c.up) + Nodes(Mk(c.d, Leaf, c.n, c.b, c.sib)) == CtxNodes(c)
    ensures c.sib.Leaf? ==> PostCtx(c) == [c.n] + PostCtx(c.up)
    ensures c.d == Left && c.sib.Bin? ==>
      && NextIn(tr, In(Right, c.n, c.b, Leaf, c.up), c.sib, PostCtx(c))
      && CtxNodes(In(Right, c.n, c.b, Leaf, c.up)) + Nodes(c.sib) == CtxNodes(c)
  {
    tr.FocusUp(c, Leaf);
    ApartUp(c, Leaf, c.b);
    if c.d == Left && c.sib.Bin? {
      var c' := In(Right, c.n, c.b, Leaf, c.up);
      tr.FocusUp(c', c.sib);
      ApartUp(c', c.sib, c.b);
    }
  }

  lemma {:induction false} HandedOutParts(c: Ctx, t: Shape)
    requires Apart(c, t) && Doomed(c)
    ensures Apart(c, Leaf)
    ensures c.Top? ==> PostCtx(c) == []
    ensures c.In? ==> |PostCtx(c)| >= 1 && c.n in CtxNodes(c) && Doomed(c.up) && (c.d == Right ==> c.sib.Leaf?)
    ensures c.In? ==> CtxNodes(c.up) <= CtxNodes(c)
  {
    BinParts(Leaf);
  }

  /** `destroy_nodes` after the first call: `last` is the node handed out before. */
  method DestroyNext(tr: Tree, cur: Point, ghost c: Ctx, ghost last: Node, ghost b: int, ghost todo: seq<Node>)
    returns (node: Node?, cur': Point, ghost c': Ctx, ghost b': int)
    requires HandedOut(tr, cur, c, last, b, todo)
    modifies tr, CtxNodes(c)
    ensures node == First(todo)
    ensures todo == [] ==> tr.root == null && tr.num == 0
    ensures todo != [] ==> HandedOut(tr, cur', c', node, b', todo[1..]) && CtxNodes(c') <= CtxNodes(c)
  {
    hide Apart, Doomed, PostOrder, PostCtx, Nodes, CtxNodes;
    HandedOutParts(c, Bin(Leaf, last, b, Leaf));
    CtxAlloc(c);
    var parent := cur.parent;
    cur', c', b' := cur, c, b;
    if parent == null {
      assert tr.num == 1;
      tr.root, tr.num := null, 0;
      return null, cur', c', b';
    }
    var child := cur.which;
    assert tr.num > 1;
    tr.num := tr.num - 1;
    tr.PutInHole(null, parent, child, c, Leaf);
    UnlinkedUp(tr, c);
    if child == Right || parent.right == null {
      node, parent := parent, parent.parent;
      c', b' := c.up, c.b;
      assert Mk(c.d, Leaf, c.n, c.b, c.sib) == Bin(Leaf, node, b', Leaf);
      tr.RootLinks(c', Bin(Leaf, node, b', Leaf));
    } else {
      var n;
      ghost var t;
      n, c', t := GoLeft(tr, parent.right, In(Right, c.n, c.b, Leaf, c.up), c.sib, todo);
      node, parent, c', b' := CheckRightSide(tr, n, c', t, todo);
    }
    cur' := if parent == null then At(null, Right) else At(parent, node.which);
  }

  lemma {:induction false} WholeTree(tr: Tree)
    requires tr.Valid()
    ensures tr.root == Root(tr.shape) && tr.num == |PostOrder(tr.shape)|
    ensures tr.shape.Bin? ==> NextIn(tr, Top, tr.shape, PostOrder(tr.shape))
    ensures tr.shape.Leaf? ==> PostOrder(tr.shape) == []
    ensures CtxNodes(Top) + Nodes(tr.shape) == Nodes(tr.shape)
  {
    PostOrderCounts(tr.shape);
  }

  /** The first call of `destroy_nodes`: it starts at `first_node`, the leftmost one. */
  method DestroyFirst(tr: Tree) returns (node: Node?, cur: Point, ghost c: Ctx, ghost b: int)
    requires tr.Valid()
    ensures node == First(PostOrder(tr.shape))
    ensures node == null ==> tr.root == null && tr.num == 0 && PostOrder(tr.shape) == []
    ensures node != null ==>
      && HandedOut(tr, cur, c, node, b, PostOrder(tr.shape)[1..]) && CtxNodes(c) <= Nodes(tr.shape)
  {
    hide Apart, Doomed, PostOrder, PostCtx, Nodes, CtxNodes;
    ghost var todo := PostOrder(tr.shape);
    WholeTree(tr);
    c, b := Top, 0;
    if tr.root == null {
      return null, At(null, Right), c, b;
    }
    var first, parent;
    ghost var t;
    first, c, t := GoLeft(tr, tr.root, Top, tr.shape, todo);
    node, parent, c, b := CheckRightSide(tr, first, c, t, todo);
    cur := if parent == null then At(null, Right) else At(parent, node.which);
  }

  /** `~avltree`: every node is handed out exactly once, in post-order, and the tree ends up empty. */
  method Destroy(tr: Tree) returns (deleted: seq<Node>)
    requires tr.Valid()
    modifies tr, Nodes(tr.shape)
    ensures deleted == PostOrder(old(tr.shape)) && multiset(deleted) == multiset(old(tr.Contents()))
    ensures tr.root == null && tr.num == 0
  {
    hide HandedOut, PostOrder, Nodes, CtxNodes, InOrder, Tree.Valid;
    ghost var nodes, all := Nodes(tr.shape), PostOrder(tr.shape);
    PostOrderCounts(tr.shape);
    Alloc(tr.shape);
    var node, cur;
    ghost var c, b;
    node, cur, c, b := DestroyFirst(tr);
    deleted := [];
    ghost var todo := if node == null then [] else all[1..];
    while node != null
      invariant node != null ==> HandedOut(tr, cur, c, node, b, todo) && CtxNodes(c) <= nodes
      invariant all == deleted + (if node == null then [] else [node] + todo)
      invariant node == null ==> tr.root == null && tr.num == 0
      decreases node != null, |todo|
    {
      deleted := deleted + [node];
      assert all == deleted + todo;
      assert todo != [] ==> todo == [todo[0]] + todo[1..];
      node, cur, c, b := DestroyNext(tr, cur, c, node, b, todo);
      todo := if todo == [] then [] else todo[1..];
    }
  }
}
