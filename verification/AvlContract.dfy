/**
  The contract between the lock manager and its tree: the manager works on an ascending sequence of
  ranges, the tree on nodes with the starts of those ranges as keys.
 */
module AvlContract {
  import opened AvlShape
  import opened AvlTree
  import R = RangeTree

  /** The nodes hold the ranges of `t`, in this order. */
  ghost predicate Holds(s: seq<Node>, t: R.Tree) {
    |s| == |t| && forall i | 0 <= i < |s| :: s[i].key == t[i].start
  }

  /** The nodes before an insertion point are those of smaller rank. */
  lemma PlaceIsRank(a: seq<Node>, b: seq<Node>, t: R.Tree, x: int)
    requires Holds(a + b, t) && Below(a, x) && (b != [] ==> x <= b[0].key)
    ensures R.Rank(t, x) == |a|
  {
    forall i | 0 <= i < |a| ensures t[i].start < x {
      assert a[i] in a && (a + b)[i] == a[i];
    }
    assert b != [] ==> (a + b)[|a|] == b[0];
  }

  lemma InsertHolds(a: seq<Node>, n: Node, b: seq<Node>, t: R.Tree, r: R.Range)
    requires Holds(a + b, t) && Below(a, r.start) && Above(b, r.start) && n.key == r.start
    ensures Holds(a + [n] + b, R.Insert(t, r))
  {
    PlaceIsRank(a, b, t, r.start);
    var s, u := a + [n] + b, R.Insert(t, r);
    forall i | 0 <= i < |s| ensures s[i].key == u[i].start {
      if i < |a| {
        assert s[i] == (a + b)[i];
      } else if i > |a| {
        assert s[i] == (a + b)[i - 1];
      }
    }
  }

  lemma RemoveHolds(a: seq<Node>, n: Node, b: seq<Node>, t: R.Tree)
    requires Holds(a + [n] + b, t)
    ensures Holds(a + b, R.RemoveAt(t, |a|))
  {
    var s := a + [n] + b;
    forall i | 0 <= i < |a + b| ensures (a + b)[i].key == R.RemoveAt(t, |a|)[i].start {
      assert (a + b)[i] == s[if i < |a| then i else i + 1];
    }
  }

  /** `find_node`: it finds a node if and only if a range starts at `x`, the one of rank `Rank(t, x)`. */
  method Find(tree: Tree, x: int, ghost t: R.Tree) returns (node: Node?)
    requires tree.Valid() && Holds(tree.Contents(), t)
    ensures var i := R.Rank(t, x); node == if i < |t| && t[i].start == x then tree.Contents()[i] else null
  {
    var parent, which;
    ghost var c, u, steps;
    node, parent, which, c, u, steps := tree.FindNode(x);
    FindIs(tree, x, t, c, u);
  }

  lemma FindIs(tree: Tree, x: int, t: R.Tree, c: Ctx, u: Shape)
    requires tree.Valid() && Holds(tree.Contents(), t) && Plug(c, u) == tree.shape
    requires Below(Before(c), x) && Above(Behind(c), x) && (u.Bin? ==> u.n.key == x)
    ensures var i := R.Rank(t, x); Root(u) == if i < |t| && t[i].start == x then tree.Contents()[i] else null
  {
    hide Tree.Valid, Plug, Before, Behind, InOrder, Below;
    if u.Leaf? {
      tree.InsertionPoint(c);
      PlaceIsRank(Before(c), Behind(c), t, x);
      if Behind(c) != [] { assert tree.Contents()[|Before(c)|] == Behind(c)[0]; }
    } else {
      var a, b := Before(c) + InOrder(u.l), [u.n] + (InOrder(u.r) + Behind(c));
      tree.ViewOrder(c, u);
      assert a + b == tree.Contents();
      SortedWithout(a, u.n, InOrder(u.r) + Behind(c));
      PlaceIsRank(a, b, t, x);
    }
  }

  /** `find` and `nearest` on a non-empty tree: the ranges around the place of `x`, if none starts there. */
  method Around(tree: Tree, x: int, d: Dir, ghost t: R.Tree) returns (r: Node?)
    requires tree.Valid() && Holds(tree.Contents(), t) && t != []
    ensures var i := R.Rank(t, x);
      r == if i < |t| && t[i].start == x then null
           else if d == Left then if i > 0 then tree.Contents()[i - 1] else null
           else if i < |t| then tree.Contents()[i] else null
  {
    var node, parent, which;
    ghost var c, u, steps;
    node, parent, which, c, u, steps := tree.FindNode(x);
    FindIs(tree, x, t, c, u);
    if node != null {
      r := tree.Nearest(Nowhere, d, c);
    } else {
      InsidePlace(tree, c);
      r := tree.Nearest(At(parent, which), d, c);
      PlaceIsRank(Before(c), Behind(c), t, x);
    }
  }

  lemma InsidePlace(tree: Tree, c: Ctx)
    requires tree.Valid() && Plug(c, Leaf) == tree.shape && tree.Contents() != []
    ensures c.In?
  {
  }

  /** `add` of a range that is not there yet. */
  method AddRange(tree: Tree, r: R.Range, ghost t: R.Tree) returns (n: Node)
    requires tree.Valid() && Holds(tree.Contents(), t) && forall q | q in t :: q.start != r.start
    modifies tree, Nodes(tree.shape)
    ensures tree.Valid() && n.key == r.start && Holds(tree.Contents(), R.Insert(t, r))
    ensures tree.Contents()[R.Rank(t, r.start)] == n
  {
    var node, parent, which;
    ghost var c, u, steps, climbed, rotations;
    node, parent, which, c, u, steps := tree.FindNode(r.start);
    FindIs(tree, r.start, t, c, u);
    n, climbed, rotations := tree.InsertAt(r.start, parent, which, c);
    InsertHolds(Before(c), n, Behind(c), t, r);
    PlaceIsRank(Before(c), Behind(c), t, r.start);
  }

  /** `remove_node` of the range at `i`. */
  method RemoveRange(tree: Tree, n: Node, ghost i: nat, ghost t: R.Tree)
    requires tree.Valid() && Holds(tree.Contents(), t) && i < |t| && tree.Contents()[i] == n
    modifies tree, Nodes(tree.shape)
    ensures tree.Valid() && Holds(tree.Contents(), R.RemoveAt(t, i))
  {
    ghost var c, u := tree.LocateAt(n);
    ghost var a, b := Before(c) + InOrder(u.l), InOrder(u.r) + Behind(c);
    tree.ViewOrder(c, u);
    SamePlace(tree.Contents(), a, n, b, i);
    ghost var climbed := tree.RemoveNode(n, c, u);
    RemoveHolds(a, n, b, t);
  }

  /** `insert_at`, at the insertion point that `find` gave. */
  method InsertRangeAt(tree: Tree, r: R.Range, parent: Node?, which: Dir, ghost c: Ctx, ghost t: R.Tree)
    returns (n: Node)
    requires tree.Valid() && Holds(tree.Contents(), t) && Plug(c, Leaf) == tree.shape
    requires parent == Parent(c) && (c.In? ==> which == c.d) && Below(Before(c), r.start) && Above(Behind(c), r.start)
    modifies tree, Nodes(tree.shape)
    ensures tree.Valid() && n.key == r.start && Holds(tree.Contents(), R.Insert(t, r))
  {
    ghost var climbed, rotations;
    tree.InsertionPoint(c);
    n, climbed, rotations := tree.InsertAt(r.start, parent, which, c);
    InsertHolds(Before(c), n, Behind(c), t, r);
  }

  /** `next` of the range at `i`. */
  method NextRange(tree: Tree, n: Node, ghost i: nat, ghost t: R.Tree) returns (r: Node?)
    requires tree.Valid() && Holds(tree.Contents(), t) && i < |t| && tree.Contents()[i] == n
    ensures r == if i + 1 < |t| then tree.Contents()[i + 1] else null
    ensures r != null ==> r.key == t[i + 1].start
  {
    r := tree.Step(n, Right, i);
  }

  /** `insert_here`, right behind the range at `i`: the same as `add` when the new start lies between those of
      the range and of its neighbour. */
  method InsertBehind(tree: Tree, r: R.Range, n: Node, ghost i: nat, ghost t: R.Tree) returns (m: Node)
    requires tree.Valid() && Holds(tree.Contents(), t) && i < |t| && tree.Contents()[i] == n
    requires t[i].start < r.start && (i + 1 < |t| ==> r.start < t[i + 1].start)
    modifies tree, Nodes(tree.shape)
    ensures tree.Valid() && m.key == r.start && Holds(tree.Contents(), R.Insert(t, r))
    ensures R.Insert(t, r) == t[..i + 1] + [r] + t[i + 1..]
  {
    ghost var c, u := tree.LocateAt(n);
    ghost var a, b := Before(c) + InOrder(u.l), InOrder(u.r) + Behind(c);
    tree.ViewOrder(c, u);
    SamePlace(tree.Contents(), a, n, b, i);
    HerePlace(tree.Contents(), a, n, b, t, r);
    BehindIs(c, u);
    hide Tree.Valid, Plug, Before, Behind, InOrder, Upto, Rest, Below, Above, Holds, Sorted, R.Insert;
    ghost var climbed, rotations;
    m, climbed, rotations := tree.InsertHere(r.start, n, Right, c, u);
    InsertHolds(a + [n], m, b, t, r);
  }

  lemma BehindIs(c: Ctx, u: Shape)
    requires u.Bin?
    ensures Upto(c, u, Right) == (Before(c) + InOrder(u.l)) + [u.n] && Rest(c, u, Right) == InOrder(u.r) + Behind(c)
  {
  }

  lemma HerePlace(s: seq<Node>, a: seq<Node>, n: Node, b: seq<Node>, t: R.Tree, r: R.Range)
    requires s == a + [n] + b && Sorted(s) && Holds(s, t) && t[|a|].start < r.start
    requires |a| + 1 < |t| ==> r.start < t[|a| + 1].start
    ensures Below(a + [n], r.start) && Above(b, r.start) && R.Insert(t, r) == t[..|a| + 1] + [r] + t[|a| + 1..]
  {
    forall m | m in a + [n] ensures m.key < r.start {
      var k :| 0 <= k < |a + [n]| && (a + [n])[k] == m;
      assert s[k] == m && s[|a|] == n;
    }
    forall m | m in b ensures r.start < m.key {
      var k :| 0 <= k < |b| && b[k] == m;
      assert s[|a| + 1 + k] == m && s[|a| + 1] == b[0];
    }
    PlaceIsRank(a + [n], b, t, r.start);
  }

  lemma SamePlace(s: seq<Node>, a: seq<Node>, n: Node, b: seq<Node>, i: nat)
    requires s == a + [n] + b && Sorted(s) && i < |s| && s[i] == n
    ensures i == |a|
  {
    assert s[|a|] == n;
  }
}
