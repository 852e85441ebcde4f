/**
  `flat_segment_tree::search_tree`: the descent through the index to the leaf whose segment holds a key.
 */
module IndexSearch {
  import opened Basics
  import opened IndexBuilder

  /** The leaves [i, j) below `r` are where `x` must be. */
  ghost predicate Here(keys: seq<int>, pool: seq<PoolNode>, r: Ref, h: nat, i: nat, j: nat, x: int) {
    i < j <= |keys| && Covers(keys, pool, r, h, i, j) && keys[i] <= x < High(keys, j)
  }

  /** Above the last layer, exactly one child is the right one: the left child if `x` is in its interval,
      and else there is a right child, with `x` in its interval. */
  lemma Descend(keys: seq<int>, pool: seq<PoolNode>, p: nat, h: nat, i: nat, j: nat, x: int) returns (m: nat)
    requires Here(keys, pool, Inner(p), h, i, j, x) && h > 1
    ensures p < |pool| && pool[p].left.Inner? && pool[p].left.i < |pool|
    ensures var v := pool[pool[p].left.i];
      if v.low <= x < v.high then Here(keys, pool, pool[p].left, h - 1, i, m, x)
      else
        && pool[p].right.Inner? && pool[p].right.i < |pool|
        && pool[pool[p].right.i].low <= x < pool[pool[p].right.i].high
        && Here(keys, pool, pool[p].right, h - 1, m, j, x)
  {
    m := CoversParts(keys, pool, p, h, i, j);
    hide Covers;
    CoversKind(keys, pool, pool[p].left, h - 1, i, m);
    if pool[p].right != Null { CoversKind(keys, pool, pool[p].right, h - 1, m, j); }
  }

  /** In the last layer there is a right child, and one of the two leaves has a next one, beyond `x`. */
  lemma LastLayer(keys: seq<int>, pool: seq<PoolNode>, p: nat, i: nat, j: nat, x: int)
    requires Here(keys, pool, Inner(p), 1, i, j, x)
    ensures p < |pool| && pool[p].left == Leaf(i) && pool[p].right == Leaf(i + 1) && i + 1 < |keys|
    ensures keys[i] <= x < keys[i + 1] || (keys[i + 1] <= x < pool[p].high && i + 2 < |keys| && x < keys[i + 2])
  {
    var m := CoversParts(keys, pool, p, 1, i, j);
    CoversKind(keys, pool, pool[p].left, 0, i, m);
    if pool[p].right != Null { CoversKind(keys, pool, pool[p].right, 0, m, j); }
  }

  /** `search_tree`: the leaf at or before `x` that is followed by one beyond `x`; nothing if and only if `x`
      is outside of the keys, or there is no index. Each step goes one level down. */
  method SearchTree(keys: seq<int>, pool: seq<PoolNode>, root: Ref, x: int, ghost h: nat)
    returns (r: Option<nat>, ghost steps: nat)
    requires keys != [] && (root == Null || (root.Inner? && Covers(keys, pool, root, h, 0, |keys|)))
    ensures r.None? <==> root == Null || x < keys[0] || keys[|keys| - 1] <= x
    ensures r.Some? ==> r.value + 1 < |keys| && keys[r.value] <= x < keys[r.value + 1] && steps == h
  {
    steps := 0;
    if root == Null {
      return None, 0;
    }
    if x < keys[0] || keys[|keys| - 1] <= x {
      return None, 0;
    }
    hide Covers;
    var cur: nat := root.i;
    ghost var i: nat, j: nat, k: nat := 0, |keys|, h;
    LayerOf(keys, pool, cur, h, 0, |keys|);
    while true
      invariant Here(keys, pool, Inner(cur), k, i, j, x) && 1 <= k && steps + k == h
      invariant cur < |pool| && (pool[cur].left.Leaf? <==> k == 1) && pool[cur].left != Null
      decreases k
    {
      steps := steps + 1;
      if pool[cur].left.Leaf? {
        break;
      }
      ghost var m := Descend(keys, pool, cur, k, i, j, x);
      var v := pool[pool[cur].left.i];
      if v.low <= x < v.high {
        cur, j := pool[cur].left.i, m;
      } else {
        cur, i := pool[cur].right.i, m;
      }
      k := k - 1;
      LayerOf(keys, pool, cur, k, i, j);
    }
    LastLayer(keys, pool, cur, i, j, x);
    var left, right := pool[cur].left.i, pool[cur].right.i;
    if keys[left] <= x < keys[right] {
      r := Some(left);
    } else {
      r := Some(right);
    }
  }

  lemma LayerOf(keys: seq<int>, pool: seq<PoolNode>, p: nat, h: nat, i: nat, j: nat)
    requires Covers(keys, pool, Inner(p), h, i, j)
    ensures p < |pool| && h >= 1 && (pool[p].left.Leaf? <==> h == 1) && pool[p].left != Null
  {
    var m := CoversParts(keys, pool, p, h, i, j);
    CoversKind(keys, pool, pool[p].left, h - 1, i, m);
  }
}
