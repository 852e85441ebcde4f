/**
  `tree_builder`: the balanced index over the leaves of a segment tree. Inner nodes come from a pool
  whose size was computed beforehand, and are linked level by level up to the root.
 */
module IndexBuilder {

  /** A pointer to a leaf (by position) or to a node of the pool. */
  datatype Ref = Null | Leaf(i: nat) | Inner(i: nat)

  datatype PoolNode = PoolNode(low: int, high: int, left: Ref, right: Ref)

  function Half(n: nat): nat { (n + 1) / 2 }

  /** Inner nodes above a level of n nodes. */
  function Above(n: nat): nat
    decreases n
  {
    if n <= 1 then 0 else Half(n) + Above(Half(n))
  }

  /** One round of the loop of `count_needed_nonleaf_nodes`, and `k` rounds of it; at one it stops. */
  function Round(n: nat): nat { if n == 1 then 1 else Half(n) }
  function Rounds(n: nat, k: nat): nat { if k == 0 then n else Rounds(Round(n), k - 1) }

  /** The loop comes to its end if and only if there is a leaf: zero is a fixed point of its body. */
  lemma {:induction false} CountStopsIff(leaves: nat)
    ensures (exists k: nat :: Rounds(leaves, k) == 1) <==> leaves >= 1
    decreases leaves
  {
    if leaves == 0 {
      forall k: nat ensures Rounds(0, k) == 0 { ZeroStays(k); }
    } else if leaves == 1 {
      assert Rounds(1, 0) == 1;
    } else {
      CountStopsIff(Half(leaves));
      var k: nat :| Rounds(Half(leaves), k) == 1;
      assert Rounds(leaves, k + 1) == 1;
    }
  }

  lemma {:induction false} ZeroStays(k: nat)
    ensures Rounds(0, k) == 0
  {
    if k > 0 { ZeroStays(k - 1); }
  }

  /** `count_needed_nonleaf_nodes` */
  method CountNeeded(leaves: nat) returns (count: nat)
    requires leaves >= 1
    ensures count == Above(leaves)
  {
    var n := leaves;
    count := 0;
    while n != 1
      invariant n >= 1 && count + Above(n) == Above(leaves)
      decreases n
    {
      ghost var before := n;
      if n % 2 == 1 {
        n := n + 1;
      }
      n := n / 2;
      assert n == Round(before);
      count := count + n;
    }
  }

  /** What `build` takes from the pool: a single leaf gets a parent too. */
  function Consumed(leaves: nat): nat { if leaves == 0 then 0 else Half(leaves) + Above(Half(leaves)) }

  /** The computed pool size is what `build` takes, except for a single leaf. */
  lemma PoolSizeIff(leaves: nat)
    requires leaves >= 1
    ensures Consumed(leaves) == Above(leaves) <==> leaves >= 2
  {
    assert Above(1) == 0;
  }

  /** A level of `m` pool nodes from `base` on. */
  function Level(base: nat, m: nat): seq<Ref> { seq(m, (j: nat) => Inner(base + j)) }

  /** The intervals of a level lie end to end from `first` to `last`. */
  ghost predicate Contiguous(pool: seq<PoolNode>, base: nat, m: nat, first: int, last: int) {
    && 0 < m && base + m <= |pool|
    && pool[base].low == first && pool[base + m - 1].high == last
    && (forall j | base < j < base + m :: pool[j - 1].high == pool[j].low)
  }

  /** The pool nodes from `base` on are, in order, the parents of pairs of `down`; an odd one out at the
      end is an only child. */
  ghost predicate Parents(pool: seq<PoolNode>, parents: map<Ref, nat>, down: seq<Ref>, base: nat) {
    && base + Half(|down|) <= |pool|
    && (forall j | 0 <= j < Half(|down|) :: pool[base + j].left == down[2 * j]
          && pool[base + j].right == if 2 * j + 1 < |down| then down[2 * j + 1] else Null)
    && (forall k | 0 <= k < |down| :: down[k] in parents && parents[down[k]] == base + k / 2)
  }

  /** The first `n` parents are in place. */
  ghost predicate Paired(pool: seq<PoolNode>, parents: map<Ref, nat>, down: seq<Ref>, base: nat, n: nat) {
    && n <= Half(|down|) && base + n <= |pool|
    && (forall j | 0 <= j < n :: pool[base + j].left == down[2 * j]
          && pool[base + j].right == if 2 * j + 1 < |down| then down[2 * j + 1] else Null)
    && (forall k | 0 <= k < |down| && k < 2 * n :: down[k] in parents && parents[down[k]] == base + k / 2)
  }

  ghost predicate Different(down: seq<Ref>) { forall i, j | 0 <= i < j < |down| :: down[i] != down[j] }

  lemma NonePaired(pool: seq<PoolNode>, parents: map<Ref, nat>, down: seq<Ref>, base: nat)
    requires base <= |pool|
    ensures Paired(pool, parents, down, base, 0)
  {
  }

  lemma AllPaired(pool: seq<PoolNode>, parents: map<Ref, nat>, down: seq<Ref>, base: nat)
    requires Paired(pool, parents, down, base, Half(|down|))
    ensures Parents(pool, parents, down, base)
  {
  }

  /** One more parent, made by `make_parent_node`. */
  lemma PairOne(pool: seq<PoolNode>, parents: map<Ref, nat>, down: seq<Ref>, base: nat, n: nat, node: PoolNode)
    requires Paired(pool, parents, down, base, n) && Different(down) && 2 * n < |down| && base + n < |pool|
    requires node.left == down[2 * n]
    requires node.right == if 2 * n + 1 < |down| then down[2 * n + 1] else Null
    requires Null !in down
    ensures var up := parents[node.left := base + n];
      Paired(pool[base + n := node], if node.right == Null then up else up[node.right := base + n], down, base, n + 1)
  {
  }

  /** Level upon level, `down` is linked up to `root`, each level covering the keys end to end. */
  ghost predicate Indexed(pool: seq<PoolNode>, parents: map<Ref, nat>, down: seq<Ref>, base: nat, root: Ref,
                          first: int, last: int)
    decreases |down|
  {
    if |down| <= 1 then down == [root]
    else
      && Parents(pool, parents, down, base) && Contiguous(pool, base, Half(|down|), first, last)
      && Indexed(pool, parents, Level(base, Half(|down|)), base + Half(|down|), root, first, last)
  }

  // ---------------------------------------------------------------------------------------------
  // What a node stands for

  /** The upper bound of leaves that end before position `j`. */
  function High(keys: seq<int>, j: nat): int
    requires 0 < j <= |keys|
  {
    keys[if j < |keys| then j else |keys| - 1]
  }

  /** The subtree `r`, of height `h`, has the leaves [i, j), and each of its nodes knows its interval. */
  ghost predicate Covers(keys: seq<int>, pool: seq<PoolNode>, r: Ref, h: nat, i: nat, j: nat)
    decreases h, 1
  {
    match r
    case Null => false
    case Leaf(k) => h == 0 && k == i && j == i + 1 <= |keys|
    case Inner(p) =>
      && h > 0 && p < |pool| && i < j <= |keys| && pool[p].low == keys[i] && pool[p].high == High(keys, j)
      && (pool[p].left.Inner? ==> pool[p].left.i < p) && (pool[p].right.Inner? ==> pool[p].right.i < p)
      && if pool[p].right == Null then j == |keys| && Covers(keys, pool, pool[p].left, h - 1, i, j)
         else exists m :: Halves(keys, pool, p, h, i, m, j)
  }

  ghost predicate Halves(keys: seq<int>, pool: seq<PoolNode>, p: nat, h: nat, i: nat, m: nat, j: nat)
    decreases h, 0
  {
    && h > 0 && p < |pool| && i < m < j
    && Covers(keys, pool, pool[p].left, h - 1, i, m) && Covers(keys, pool, pool[p].right, h - 1, m, j)
  }

  lemma CoversInner(keys: seq<int>, pool: seq<PoolNode>, p: nat, h: nat, i: nat, m: nat, j: nat)
    requires p < |pool| && i < m <= j <= |keys| && pool[p].low == keys[i] && pool[p].high == High(keys, j)
    requires pool[p].left.Inner? ==> pool[p].left.i < p
    requires pool[p].right.Inner? ==> pool[p].right.i < p
    requires Covers(keys, pool, pool[p].left, h, i, m)
    requires if pool[p].right == Null then m == j == |keys| else m < j && Covers(keys, pool, pool[p].right, h, m, j)
    ensures Covers(keys, pool, Inner(p), h + 1, i, j)
  {
    if m < j { assert Halves(keys, pool, p, h + 1, i, m, j); }
  }

  lemma CoversParts(keys: seq<int>, pool: seq<PoolNode>, p: nat, h: nat, i: nat, j: nat) returns (m: nat)
    requires Covers(keys, pool, Inner(p), h, i, j)
    ensures h > 0 && p < |pool| && i < m <= j <= |keys| && pool[p].low == keys[i] && pool[p].high == High(keys, j)
    ensures Covers(keys, pool, pool[p].left, h - 1, i, m)
    ensures if pool[p].right == Null then m == j == |keys| else m < j && Covers(keys, pool, pool[p].right, h - 1, m, j)
  {
    if pool[p].right == Null { m := j; } else { m :| Halves(keys, pool, p, h, i, m, j); }
  }

  lemma CoversKind(keys: seq<int>, pool: seq<PoolNode>, r: Ref, h: nat, i: nat, j: nat)
    requires Covers(keys, pool, r, h, i, j)
    ensures i < j <= |keys|
    ensures if h == 0 then r == Leaf(i) && j == i + 1 <= |keys|
            else r.Inner? && r.i < |pool| && pool[r.i].low == keys[i] && pool[r.i].high == High(keys, j)
  {
  }

  /** Later nodes of the pool do not matter. */
  lemma {:induction false} CoversKept(keys: seq<int>, pool: seq<PoolNode>, pool': seq<PoolNode>, r: Ref, h: nat, i: nat,
                                      j: nat, bound: nat)
    requires Covers(keys, pool, r, h, i, j) && (r.Inner? ==> r.i < bound)
    requires bound <= |pool| && bound <= |pool'| && forall k | 0 <= k < bound :: pool'[k] == pool[k]
    ensures Covers(keys, pool', r, h, i, j)
    decreases h
  {
    if r.Inner? {
      var node := pool[r.i];
      if node.right == Null {
        CoversKept(keys, pool, pool', node.left, h - 1, i, j, bound);
        CoversInner(keys, pool', r.i, h - 1, i, j, j);
      } else {
        var m :| Halves(keys, pool, r.i, h, i, m, j);
        CoversKept(keys, pool, pool', node.left, h - 1, i, m, bound);
        CoversKept(keys, pool, pool', node.right, h - 1, m, j, bound);
        CoversInner(keys, pool', r.i, h - 1, i, m, j);
      }
    }
  }

  /** The nodes of a level, of height `h`, share the leaves out among them, cut at `cuts`. */
  ghost predicate Shared(keys: seq<int>, pool: seq<PoolNode>, down: seq<Ref>, h: nat, cuts: seq<nat>) {
    && |cuts| == |down| + 1 && cuts[0] == 0 && cuts[|down|] == |keys|
    && forall t | 0 <= t < |down| :: Share(keys, pool, down[t], h, cuts, t)
  }

  ghost predicate Share(keys: seq<int>, pool: seq<PoolNode>, r: Ref, h: nat, cuts: seq<nat>, t: nat) {
    t + 1 < |cuts| && cuts[t] < cuts[t + 1] <= |keys| && Covers(keys, pool, r, h, cuts[t], cuts[t + 1])
  }

  /** The cuts of the level above. */
  function PairCuts(cuts: seq<nat>): seq<nat>
    requires cuts != []
  {
    var m := |cuts| - 1;
    seq(Half(m) + 1, (t: nat) requires t <= Half(m) => if 2 * t <= m then cuts[2 * t] else cuts[m])
  }

  function LeafCuts(n: nat): seq<nat> { seq(n + 1, (i: nat) => i) }

  /** The bounds of the nodes above are those of their leaves. */
  ghost predicate Bounded(keys: seq<int>, pool: seq<PoolNode>, base: nat, cuts: seq<nat>) {
    && cuts != [] && base + |cuts| - 1 <= |pool|
    && forall t | 0 <= t < |cuts| - 1 :: Bounds(keys, pool, base, cuts, t)
  }

  ghost predicate Bounds(keys: seq<int>, pool: seq<PoolNode>, base: nat, cuts: seq<nat>, t: nat) {
    && t + 1 < |cuts| && cuts[t] < cuts[t + 1] <= |keys| && base + t < |pool|
    && pool[base + t].low == keys[cuts[t]] && pool[base + t].high == High(keys, cuts[t + 1])
  }

  lemma SharedUp(keys: seq<int>, pool: seq<PoolNode>, parents: map<Ref, nat>, down: seq<Ref>, base: nat, h: nat,
                 cuts: seq<nat>)
    requires Shared(keys, pool, down, h, cuts) && Parents(pool, parents, down, base) && |down| >= 1
    requires Null !in down && forall r | r in down && r.Inner? :: r.i < base
    requires Bounded(keys, pool, base, PairCuts(cuts))
    ensures Shared(keys, pool, Level(base, Half(|down|)), h + 1, PairCuts(cuts))
  {
    hide Covers, High;
    var up, b := Level(base, Half(|down|)), PairCuts(cuts);
    forall t | 0 <= t < |up| ensures Share(keys, pool, up[t], h + 1, b, t) {
      assert down[2 * t] in down && Share(keys, pool, down[2 * t], h, cuts, 2 * t);
      assert pool[base + t].left == down[2 * t] && Bounds(keys, pool, base, b, t);
      if 2 * t + 1 < |down| {
        assert down[2 * t + 1] in down && Share(keys, pool, down[2 * t + 1], h, cuts, 2 * t + 1);
        CoversInner(keys, pool, base + t, h, b[t], cuts[2 * t + 1], b[t + 1]);
      } else {
        CoversInner(keys, pool, base + t, h, b[t], b[t + 1], b[t + 1]);
      }
    }
  }

  lemma SharedKept(keys: seq<int>, pool: seq<PoolNode>, pool': seq<PoolNode>, down: seq<Ref>, h: nat, cuts: seq<nat>,
                   bound: nat)
    requires Shared(keys, pool, down, h, cuts)
    requires bound <= |pool| && |pool'| == |pool| && pool'[..bound] == pool[..bound]
    requires forall r | r in down && r.Inner? :: r.i < bound
    ensures Shared(keys, pool', down, h, cuts)
  {
    forall k | 0 <= k < bound ensures pool'[k] == pool[k] { assert pool'[..bound][k] == pool[..bound][k]; }
    forall t | 0 <= t < |down| ensures Share(keys, pool', down[t], h, cuts, t) {
      assert down[t] in down && Share(keys, pool, down[t], h, cuts, t);
      CoversKept(keys, pool, pool', down[t], h, cuts[t], cuts[t + 1], bound);
    }
  }

  lemma LeavesShared(keys: seq<int>, pool: seq<PoolNode>)
    ensures Shared(keys, pool, Leaves(|keys|), 0, LeafCuts(|keys|))
  {
  }

  lemma LeavesBounded(keys: seq<int>, pool: seq<PoolNode>, base: nat)
    requires |keys| >= 1 && LeafBounds(pool, keys, base, Half(|keys|))
    ensures Bounded(keys, pool, base, PairCuts(LeafCuts(|keys|)))
  {
    var b := PairCuts(LeafCuts(|keys|));
    forall t | 0 <= t < |b| - 1 ensures Bounds(keys, pool, base, b, t) {
      assert b[t] == 2 * t && pool[base + t].low == keys[2 * t] && pool[base + t].high == LeafHigh(keys, t);
    }
  }

  lemma InnerBounded(keys: seq<int>, pool: seq<PoolNode>, d: nat, m: nat, base: nat, h: nat, cuts: seq<nat>)
    requires Shared(keys, pool, Level(d, m), h, cuts) && 1 <= m && InnerBounds(pool, d, m, base, Half(m))
    ensures Bounded(keys, pool, base, PairCuts(cuts))
  {
    var b, down := PairCuts(cuts), Level(d, m);
    forall t | 0 <= t < |b| - 1 ensures Bounds(keys, pool, base, b, t) {
      var l := LastOf(m, t);
      assert pool[base + t].low == pool[d + 2 * t].low && pool[base + t].high == pool[d + l].high;
      assert Share(keys, pool, down[2 * t], h, cuts, 2 * t) && Share(keys, pool, down[l], h, cuts, l);
    }
  }

  /** The number of levels above a level of n nodes, or of leaves. */
  function Levels(n: nat): nat
    decreases n
  {
    if n <= 1 then 0 else 1 + Levels(Half(n))
  }

  function Pow2(k: nat): nat { if k == 0 then 1 else 2 * Pow2(k - 1) }

  /** It is the logarithm of n, rounded up. */
  lemma {:induction false} LevelsLog(n: nat)
    requires n >= 1
    ensures n <= Pow2(Levels(n)) && (n >= 2 ==> Pow2(Levels(n) - 1) < n)
    decreases n
  {
    if n >= 2 { LevelsLog(Half(n)); }
  }

  class Builder {
    const keys: seq<int>
    var pool: seq<PoolNode>
    var pos: nat
    var parents: map<Ref, nat>

    constructor (keys: seq<int>, capacity: nat)
      ensures this.keys == keys && |pool| == capacity && pos == 0 && parents == map[]
    {
      this.keys := keys;
      pool, pos, parents := seq(capacity, i => PoolNode(0, 0, Null, Null)), 0, map[];
    }

    predicate Fits(r: Ref)
      reads this
    {
      match r
      case Null => false
      case Leaf(i) => i < |keys|
      case Inner(i) => i < pos <= |pool|
    }

    function LowOf(r: Ref): int
      requires Fits(r)
      reads this
    {
      match r case Leaf(i) => keys[i] case Inner(i) => pool[i].low
    }

    /** `fill_nonleaf_value_handler`: the upper bound over the last child. */
    function HighOf(left: Ref, right: Ref): int
      requires Fits(left) && (right != Null ==> Fits(right))
      reads this
    {
      match right
      case Leaf(i) => if i + 1 < |keys| then keys[i + 1] else keys[i]
      case Inner(i) => pool[i].high
      case Null => match left case Leaf(i) => keys[i] case Inner(i) => pool[i].high
    }

    /** `make_parent_node` */
    method MakeParent(node1: Ref, node2: Ref)
      requires pos < |pool| && Fits(node1) && (node2 != Null ==> Fits(node2))
      modifies this`pool, this`pos, this`parents
      ensures pos == old(pos) + 1 && |pool| == |old(pool)|
      ensures pool == old(pool)[old(pos) := PoolNode(old(LowOf(node1)), old(HighOf(node1, node2)), node1, node2)]
      ensures parents == if node2 == Null then old(parents)[node1 := old(pos)]
                         else old(parents)[node1 := old(pos)][node2 := old(pos)]
    {
      var low, high := LowOf(node1), HighOf(node1, node2);
      parents := parents[node1 := pos];
      if node2 != Null {
        parents := parents[node2 := pos];
      }
      pool := pool[pos := PoolNode(low, high, node1, node2)];
      pos := pos + 1;
    }

    /** The leaf loop of `build`. */
    method BuildLeaves()
      requires |keys| >= 1 && pos + Half(|keys|) <= |pool|
      modifies this`pool, this`pos, this`parents
      ensures pos == old(pos) + Half(|keys|) && |pool| == |old(pool)|
      ensures pool[..old(pos)] == old(pool)[..old(pos)]
      ensures Parents(pool, parents, Leaves(|keys|), old(pos))
      ensures Contiguous(pool, old(pos), Half(|keys|), keys[0], keys[|keys| - 1])
      ensures forall r | r in parents :: r in old(parents) || r.Leaf?
      ensures LeafBounds(pool, keys, old(pos), Half(|keys|))
    {
      hide Paired, Parents, Contiguous, LeafBounds;
      ghost var base, down := pos, Leaves(|keys|);
      NonePaired(pool, parents, down, base);
      NoneBound(pool, keys, base);
      var node1 := 0;
      ghost var n: nat := 0;
      while true
        invariant node1 == 2 * n < |keys| && pos == base + n && |pool| == |old(pool)|
        invariant Paired(pool, parents, down, base, n)
        invariant pool[..base] == old(pool)[..base]
        invariant LeafBounds(pool, keys, base, n)
        invariant forall r | r in parents :: r in old(parents) || r.Leaf?
        decreases |keys| - node1
      {
        var node2 := if node1 + 1 < |keys| then Leaf(node1 + 1) else Null;
        ghost var node := PoolNode(LowOf(Leaf(node1)), HighOf(Leaf(node1), node2), Leaf(node1), node2);
        PairOne(pool, parents, down, base, n, node);
        BoundOne(pool, keys, base, n, node);
        MakeParent(Leaf(node1), node2);
        n := n + 1;
        if node1 + 2 >= |keys| {
          break;
        }
        node1 := node1 + 2;
      }
      AllPaired(pool, parents, down, base);
      LeafLevel(pool, keys, base);
    }

    /** The first `n` parents of the level [d, d + m) are made, behind `before`. */
    ghost predicate Progress(d: nat, m: nat, n: nat, before: seq<PoolNode>, parents0: map<Ref, nat>)
      reads this
    {
      && n <= Half(m) && pos == d + m + n <= |pool| == |before| && pool[..d + m] == before[..d + m]
      && Paired(pool, parents, Level(d, m), d + m, n) && InnerBounds(pool, d, m, d + m, n)
      && Extends(parents0, parents, d, m)
    }

    method MakeNext(node1: Ref, node2: Ref, ghost d: nat, ghost m: nat, ghost n: nat,
                    ghost before: seq<PoolNode>, ghost parents0: map<Ref, nat>)
      requires Progress(d, m, n, before, parents0) && 2 * n < m && pos < |pool|
      requires node1 == Inner(d + 2 * n) && node2 == if 2 * n + 1 < m then Inner(d + 2 * n + 1) else Null
      modifies this`pool, this`pos, this`parents
      ensures Progress(d, m, n + 1, before, parents0)
    {
      hide Paired, InnerBounds, Extends;
      ghost var base := d + m;
      ghost var node := PoolNode(LowOf(node1), HighOf(node1, node2), node1, node2);
      PairOne(pool, parents, Level(d, m), base, n, node);
      InnerOne(pool, d, m, base, n, node);
      ExtendsOne(parents0, parents, d, m, 2 * n, base + n);
      if node2 != Null {
        ExtendsOne(parents0, parents[node1 := base + n], d, m, 2 * n + 1, base + n);
      }
      MakeParent(node1, node2);
    }

    /** The loop of `build_tree_non_leaf` over the nodes [d, d + m) of the level below. */
    method PairLevel(d: nat, m: nat, ghost first: int, ghost last: int)
      requires 2 <= m && d + m == pos && pos + Half(m) <= |pool| && Contiguous(pool, d, m, first, last)
      modifies this`pool, this`pos, this`parents
      ensures pos == old(pos) + Half(m) && |pool| == |old(pool)|
      ensures pool[..old(pos)] == old(pool)[..old(pos)]
      ensures Parents(pool, parents, Level(d, m), old(pos))
      ensures Contiguous(pool, old(pos), Half(m), first, last)
      ensures Extends(old(parents), parents, d, m)
      ensures InnerBounds(pool, d, m, old(pos), Half(m))
    {
      hide Paired, Parents, Contiguous, InnerBounds, Extends;
      ghost var base := pos;
      NonePaired(pool, parents, Level(d, m), base);
      NoneInner(pool, d, m, base);
      ExtendsSame(parents, d, m);
      var node1, k := Null, 0;
      ghost var n: nat := 0;
      while k < m
        invariant k <= m && Progress(d, m, n, old(pool), old(parents))
        invariant if node1 == Null then k == 2 * n else k == 2 * n + 1 && node1 == Inner(d + 2 * n)
      {
        if node1 != Null {
          MakeNext(node1, Inner(d + k), d, m, n, old(pool), old(parents));
          n := n + 1;
          node1 := Null;
        } else {
          node1 := Inner(d + k);
        }
        k := k + 1;
      }
      if node1 != Null {
        MakeNext(node1, Null, d, m, n, old(pool), old(parents));
        n := n + 1;
      }
      AllPaired(pool, parents, Level(d, m), base);
      InnerLevel(pool, old(pool), d, m, base, first, last);
    }

    /** `build_tree_non_leaf` */
    method BuildNonLeaf(d: nat, m: nat, ghost first: int, ghost last: int, ghost h: nat, ghost cuts: seq<nat>)
      returns (root: Ref)
      requires 1 <= m && d + m == pos && pos + Above(m) <= |pool| && Contiguous(pool, d, m, first, last)
      requires forall i: nat | Inner(i) in parents :: i < d
      requires Shared(keys, pool, Level(d, m), h, cuts)
      modifies this`pool, this`pos, this`parents
      ensures pos == old(pos) + Above(m) && |pool| == |old(pool)|
      ensures pool[..old(pos)] == old(pool)[..old(pos)]
      ensures forall r | r in old(parents) :: r in parents && parents[r] == old(parents)[r]
      ensures Indexed(pool, parents, Level(d, m), old(pos), root, first, last)
      ensures root.Inner? && root.i < pos && pool[root.i].low == first && pool[root.i].high == last
      ensures Covers(keys, pool, root, h + Levels(m), 0, |keys|)
      decreases m
    {
      hide Parents, Extends, Contiguous, Above, Indexed, Half, Shared, Covers, InnerBounds, PairCuts, Levels;
      AboveStep(m);
      var base := pos;
      ghost var down := Level(d, m);
      if m == 1 {
        OneRoot(pool, parents, d, pos, first, last);
        OneShared(keys, pool, d, h, cuts);
        return Inner(d);
      }
      PairLevel(d, m, first, last);
      SharedLevel(keys, old(pool), pool, parents, d, m, h, cuts);
      ghost var pool1, parents1 := pool, parents;
      ExtendsParts(old(parents), parents, d, m);
      root := BuildNonLeaf(base, Half(m), first, last, h + 1, PairCuts(cuts));
      ParentsKept(pool1, parents1, pool, parents, down, base);
      ContiguousKept(pool1, pool, base, Half(m), first, last);
      IndexedStep(pool, parents, d, m, base, root, first, last);
    }

    /** `build`: takes its nodes from the pool, level by level; the root spans all keys. */
    method Build() returns (root: Ref)
      requires pos == 0 && parents == map[] && Consumed(|keys|) <= |pool|
      modifies this`pool, this`pos, this`parents
      ensures pos == Consumed(|keys|) <= |pool| == |old(pool)|
      ensures keys == [] ==> root == Null && pool == old(pool) && parents == map[]
      ensures keys != [] ==>
        && root.Inner? && root.i < pos && pool[root.i].low == keys[0] && pool[root.i].high == keys[|keys| - 1]
        && Parents(pool, parents, Leaves(|keys|), 0)
        && Contiguous(pool, 0, Half(|keys|), keys[0], keys[|keys| - 1])
        && Indexed(pool, parents, Level(0, Half(|keys|)), Half(|keys|), root, keys[0], keys[|keys| - 1])
        && Covers(keys, pool, root, 1 + Levels(Half(|keys|)), 0, |keys|)
    {
      hide Parents, Contiguous, Indexed, Covers, Shared, LeafBounds, Levels, Above, PairCuts, LeafCuts;
      if keys == [] {
        return Null;
      }
      BuildLeaves();
      ghost var pool1, parents1, leaves := pool, parents, Leaves(|keys|);
      LeavesShared(keys, pool);
      LeavesBounded(keys, pool, 0);
      SharedUp(keys, pool, parents, leaves, 0, 0, LeafCuts(|keys|));
      root := BuildNonLeaf(0, Half(|keys|), keys[0], keys[|keys| - 1], 1, PairCuts(LeafCuts(|keys|)));
      ParentsKept(pool1, parents1, pool, parents, leaves, 0);
      ContiguousKept(pool1, pool, 0, Half(|keys|), keys[0], keys[|keys| - 1]);
    }
  }

  /** `flat_segment_tree::build_tree`: the pool is made as large as was counted, and all of it is used. */
  method BuildTree(keys: seq<int>) returns (pool: seq<PoolNode>, root: Ref)
    requires |keys| >= 2
    ensures |pool| == Above(|keys|) == Consumed(|keys|)
    ensures Covers(keys, pool, root, Levels(|keys|), 0, |keys|)
  {
    var count := CountNeeded(|keys|);
    PoolSizeIff(|keys|);
    hide Covers, Above, Consumed, Parents, Contiguous, Indexed;
    var builder := new Builder(keys, count);
    root := builder.Build();
    pool := builder.pool;
    assert builder.pos == |pool|;
  }

  lemma OneShared(keys: seq<int>, pool: seq<PoolNode>, d: nat, h: nat, cuts: seq<nat>)
    requires Shared(keys, pool, Level(d, 1), h, cuts)
    ensures Covers(keys, pool, Inner(d), h + Levels(1), 0, |keys|)
  {
    assert Level(d, 1)[0] == Inner(d) && Share(keys, pool, Level(d, 1)[0], h, cuts, 0);
  }

  lemma SharedLevel(keys: seq<int>, before: seq<PoolNode>, pool: seq<PoolNode>, parents: map<Ref, nat>, d: nat, m: nat,
                    h: nat, cuts: seq<nat>)
    requires Shared(keys, before, Level(d, m), h, cuts) && m >= 2 && d + m <= |pool| == |before|
    requires pool[..d + m] == before[..d + m] && InnerBounds(pool, d, m, d + m, Half(m))
    requires Parents(pool, parents, Level(d, m), d + m)
    ensures cuts != []
    ensures Shared(keys, pool, Level(d + m, Half(m)), h + 1, PairCuts(cuts)) && Levels(m) == 1 + Levels(Half(m))
  {
    assert cuts != [];
    assert Levels(m) == 1 + Levels(Half(m));
    hide Shared, Parents, InnerBounds, Bounded, PairCuts, Covers, Levels, Half;
    SharedKept(keys, before, pool, Level(d, m), h, cuts, d + m);
    InnerBounded(keys, pool, d, m, d + m, h, cuts);
    SharedUp(keys, pool, parents, Level(d, m), d + m, h, cuts);
  }

  lemma AboveStep(m: nat)
    requires m >= 1
    ensures Above(1) == 0
    ensures m >= 2 ==> Above(m) == Half(m) + Above(Half(m)) && 1 <= Half(m) < m
  {
  }

  lemma OneRoot(pool: seq<PoolNode>, parents: map<Ref, nat>, d: nat, base: nat, first: int, last: int)
    requires Contiguous(pool, d, 1, first, last)
    ensures Indexed(pool, parents, Level(d, 1), base, Inner(d), first, last)
    ensures d < |pool| && pool[d].low == first && pool[d].high == last
  {
  }

  lemma IndexedStep(pool: seq<PoolNode>, parents: map<Ref, nat>, d: nat, m: nat, base: nat, root: Ref, first: int,
                    last: int)
    requires 2 <= m && Parents(pool, parents, Level(d, m), base) && Contiguous(pool, base, Half(m), first, last)
    requires Indexed(pool, parents, Level(base, Half(m)), base + Half(m), root, first, last)
    ensures Indexed(pool, parents, Level(d, m), base, root, first, last)
  {
  }

  lemma ParentsKept(pool: seq<PoolNode>, parents: map<Ref, nat>, pool': seq<PoolNode>, parents': map<Ref, nat>,
                    down: seq<Ref>, base: nat)
    requires Parents(pool, parents, down, base) && |pool'| == |pool|
    requires pool'[..base + Half(|down|)] == pool[..base + Half(|down|)]
    requires forall r | r in parents :: r in parents' && parents'[r] == parents[r]
    ensures Parents(pool', parents', down, base)
  {
    forall j | 0 <= j < base + Half(|down|) ensures pool'[j] == pool[j] {
      assert pool'[..base + Half(|down|)][j] == pool[..base + Half(|down|)][j];
    }
  }

  lemma ContiguousKept(pool: seq<PoolNode>, pool': seq<PoolNode>, base: nat, m: nat, first: int, last: int)
    requires Contiguous(pool, base, m, first, last) && |pool'| == |pool| && pool'[..base + m] == pool[..base + m]
    ensures Contiguous(pool', base, m, first, last)
  {
    forall j | 0 <= j < base + m ensures pool'[j] == pool[j] {
      assert pool'[..base + m][j] == pool[..base + m][j];
    }
  }

  /** Only nodes of the level [d, d + m) got new parents. */
  ghost predicate Extends(parents: map<Ref, nat>, parents': map<Ref, nat>, d: nat, m: nat) {
    && (forall r | r in parents && !(r.Inner? && d <= r.i < d + m) :: r in parents' && parents'[r] == parents[r])
    && (forall r | r in parents' :: r in parents || (r.Inner? && d <= r.i < d + m))
  }

  lemma ExtendsSame(parents: map<Ref, nat>, d: nat, m: nat)
    ensures Extends(parents, parents, d, m)
  {
  }

  lemma ExtendsOne(parents: map<Ref, nat>, parents': map<Ref, nat>, d: nat, m: nat, k: nat, p: nat)
    requires Extends(parents, parents', d, m) && k < m
    ensures Extends(parents, parents'[Inner(d + k) := p], d, m)
  {
  }

  lemma ExtendsParts(parents: map<Ref, nat>, parents': map<Ref, nat>, d: nat, m: nat)
    requires Extends(parents, parents', d, m) && forall i: nat | Inner(i) in parents :: i < d
    ensures forall r | r in parents :: r in parents' && parents'[r] == parents[r]
    ensures forall i: nat | Inner(i) in parents' :: i < d + m
  {
  }

  ghost predicate InnerBounds(pool: seq<PoolNode>, d: nat, m: nat, base: nat, n: nat) {
    && n <= Half(m) && d + m <= base && base + n <= |pool|
    && forall j | 0 <= j < n :: pool[base + j].low == pool[d + 2 * j].low
          && pool[base + j].high == pool[d + LastOf(m, j)].high
  }

  /** The last child of the j-th parent in a level of m. */
  function LastOf(m: nat, j: nat): nat
    requires 2 * j < m
  {
    if 2 * j + 1 < m then 2 * j + 1 else 2 * j
  }

  lemma NoneInner(pool: seq<PoolNode>, d: nat, m: nat, base: nat)
    requires d + m <= base <= |pool|
    ensures InnerBounds(pool, d, m, base, 0)
  {
  }

  lemma InnerOne(pool: seq<PoolNode>, d: nat, m: nat, base: nat, n: nat, node: PoolNode)
    requires InnerBounds(pool, d, m, base, n) && 2 * n < m && base + n < |pool|
    requires node.low == pool[d + 2 * n].low && node.high == pool[d + LastOf(m, n)].high
    ensures InnerBounds(pool[base + n := node], d, m, base, n + 1)
  {
  }

  lemma InnerLevel(pool: seq<PoolNode>, before: seq<PoolNode>, d: nat, m: nat, base: nat, first: int, last: int)
    requires 2 <= m && d + m == base <= |pool| == |before| && pool[..base] == before[..base]
    requires Contiguous(before, d, m, first, last) && InnerBounds(pool, d, m, base, Half(m))
    ensures Contiguous(pool, base, Half(m), first, last)
  {
    ContiguousKept(before, pool, d, m, first, last);
    var h := Half(m);
    assert pool[base + 0].low == pool[d + 2 * 0].low && pool[base + (h - 1)].high == pool[d + LastOf(m, h - 1)].high;
    forall j | base < j < base + h ensures pool[j - 1].high == pool[j].low {
      var t := j - base;
      assert pool[base + (t - 1)].high == pool[d + LastOf(m, t - 1)].high && pool[base + t].low == pool[d + 2 * t].low;
      assert pool[d + 2 * t - 1].high == pool[d + 2 * t].low;
    }
  }

  ghost predicate LeafBounds(pool: seq<PoolNode>, keys: seq<int>, base: nat, n: nat) {
    && n <= Half(|keys|) && base + n <= |pool|
    && forall j | 0 <= j < n :: pool[base + j].low == keys[2 * j] && pool[base + j].high == LeafHigh(keys, j)
  }

  lemma NoneBound(pool: seq<PoolNode>, keys: seq<int>, base: nat)
    requires base <= |pool|
    ensures LeafBounds(pool, keys, base, 0)
  {
  }

  lemma BoundOne(pool: seq<PoolNode>, keys: seq<int>, base: nat, n: nat, node: PoolNode)
    requires LeafBounds(pool, keys, base, n) && 2 * n < |keys| && base + n < |pool|
    requires node.low == keys[2 * n] && node.high == LeafHigh(keys, n)
    ensures LeafBounds(pool[base + n := node], keys, base, n + 1)
  {
  }

  lemma LeafLevel(pool: seq<PoolNode>, keys: seq<int>, base: nat)
    requires |keys| >= 1 && LeafBounds(pool, keys, base, Half(|keys|))
    ensures Contiguous(pool, base, Half(|keys|), keys[0], keys[|keys| - 1])
  {
    var m := Half(|keys|);
    assert pool[base + 0].low == keys[2 * 0] && pool[base + (m - 1)].high == LeafHigh(keys, m - 1);
    forall j | base < j < base + m ensures pool[j - 1].high == pool[j].low {
      var t := j - base;
      assert pool[base + (t - 1)].high == LeafHigh(keys, t - 1) && pool[base + t].low == keys[2 * t];
    }
  }

  function Leaves(n: nat): seq<Ref> { seq(n, (i: nat) => Leaf(i)) }

  /** The upper bound of the j-th parent of leaves: the key after its pair, or the last key. */
  function LeafHigh(keys: seq<int>, j: nat): int
    requires 2 * j < |keys|
  {
    if 2 * j + 2 < |keys| then keys[2 * j + 2] else keys[|keys| - 1]
  }
}
