/**
  `lock_manager` as it is programmed: the tree is updated in place, piece by piece, by the loops of
  `add_reader`, `lock_range_reader` and `unlock_range_reader`. Each call is proved to take exactly
  the protocol step of module `RangeLock`.
 */
module LockManager {
  import opened Basics
  import opened RangeTree
  import opened RangeLock
  import opened RangeLockSafety

  /** `off_t`. */
  predicate IsOffset(x: int) { -(WORD / 2) <= x < WORD / 2 }

  // The steps of `Cover` that the loops take, with `done` already in place.

  lemma CoverPass(h: Range, t: Tree, s: int, e: int, born: nat)
    requires s < e && h.start < e && h.end <= s
    ensures Cover([h] + t, s, e, born) == [h] + Cover(t, s, e, born)
  {
    assert ([h] + t)[1..] == t;
  }

  lemma CoverGap(done: Tree, h: Range, t: Tree, s: int, e: int, born: nat)
    requires s < h.start < e && h.start < h.end
    ensures done + Cover([h] + t, s, e, born)
      == done + [NewProxy(s, h.start, born)] + Cover([h] + t, h.start, e, born)
  {
  }

  lemma CoverWhole(done: Tree, h: Range, t: Tree, e: int, born: nat)
    requires h.start < h.end <= e
    ensures done + Cover([h] + t, h.start, e, born)
      == done + [Bump(Proxify(h, born))] + Cover(t, h.end, e, born)
    ensures Cover(t, e, e, born) == t
  {
    assert ([h] + t)[1..] == t;
  }

  lemma CoverPart(done: Tree, h: Range, t: Tree, e: int, born: nat)
    requires h.Straddles(e)
    ensures done + Cover([h] + t, h.start, e, born)
      == done + ([Bump(Front(h, e, born))] + ([Rear(h, e, born)] + t))
  {
    assert ([h] + t)[1..] == t;
  }

  lemma CoverTail(done: Tree, t: Tree, s: int, e: int, born: nat)
    requires s < e && (t == [] || e <= t[0].start)
    ensures done + Cover(t, s, e, born) == done + [NewProxy(s, e, born)] + t
  {
  }

  /** `Cover` passes over ranges that end at or before `s`. */
  lemma {:induction false} CoverSkip(a: Tree, b: Tree, s: int, e: int, born: nat)
    requires s < e && forall r | r in a :: r.start < e && r.end <= s
    ensures Cover(a + b, s, e, born) == a + Cover(b, s, e, born)
  {
    hide Cover;
    if a == [] {
      assert a + b == b;
    } else {
      CoverSkip(a[1..], b, s, e, born);
      assert a + b == [a[0]] + (a[1..] + b);
      CoverPass(a[0], a[1..] + b, s, e, born);
    }
  }

  /** What `range_split` at `s` leaves for `Cover` to do. */
  lemma CoverSplit(a: Tree, h: Range, b: Tree, s: int, e: int, born: nat)
    requires s < e && h.Straddles(s) && forall r | r in a :: r.start < e && r.end <= s
    ensures Cover(a + ([h] + b), s, e, born)
      == a + ([Front(h, s, born)] + Cover([Rear(h, s, born)] + b, s, e, born))
  {
    CoverSkip(a, [h] + b, s, e, born);
    assert ([h] + b)[1..] == b;
  }

  lemma Assoc(a: Tree, b: Tree, c: Tree)
    ensures a + b + c == a + (b + c)
  {
  }

  /** What is known around the insertion point of `s`. */
  lemma BeforeRank(t: Tree, s: int)
    requires Ordered(t)
    ensures var n := Rank(t, s);
      && (forall r | r in t[..n] :: r.start < s)
      && (n > 0 ==> forall r | r in t[..n - 1] :: r.start < s && r.end < s)
      && (n > 0 && n < |t| && t[n].start == s ==> t[n - 1].end <= s)
  {
  }

  lemma FromRank(t: Tree, s: int)
    requires Ordered(t)
    ensures var n := Rank(t, s); Chain(t[n..], s) && forall r | r in t[n..] :: s <= r.start < r.end
    ensures var n := Rank(t, s); n > 0 ==> Chain(t[n..], t[n - 1].end)
  {
    var n := Rank(t, s);
    OrderedChain(t[n..], s);
    ChainOrdered(t[n..], s);
    if n > 0 { OrderedChain(t[n..], t[n - 1].end); }
  }

  /** A new reader may join every range of `b` that starts before `e`. */
  ghost predicate Open(b: Tree, e: int) {
    forall r | r in b && r.start < e :: OpenRange(r)
  }

  ghost predicate OpenRange(r: Range) {
    !r.readWanted && !r.writeWanted && (!r.proxy ==> r.refs == 1)
  }

  lemma JoinableOpen(t: Tree, s: int, e: int, b: Tree)
    requires TreeOk(t) && Joinable(t, s, e) && forall r | r in b :: r in t && s < r.end
    ensures Open(b, e)
  {
  }

  /** No range ends inside the new lock before the insertion point: nothing to split at `s`. */
  lemma EntryPlain(t: Tree, s: int, e: int, born: nat)
    requires TreeOk(t) && Joinable(t, s, e) && s < e
    requires var n := Rank(t, s); n > 0 ==> t[n - 1].end <= s
    ensures var n := Rank(t, s); var b := t[n..];
      && t == t[..n] + b && Chain(b, s) && Open(b, e)
      && Cover(t, s, e, born) == t[..n] + Cover(b, s, e, born)
      && (Free(t, s, e) <==> b == [] || e <= b[0].start)
  {
    hide Cover, Ordered, Rank, Chain, Open, Counted, FlagsOk;
    var n := Rank(t, s);
    var a, b := t[..n], t[n..];
    assert t == a + b;
    BeforeRank(t, s);
    FromRank(t, s);
    if n > 0 { assert a == t[..n - 1] + [t[n - 1]]; }
    CoverSkip(a, b, s, e, born);
    JoinableOpen(t, s, e, b);
    FreeSuffix(a, b, s, e);
  }

  lemma PlainBefore(t: Tree, s: int)
    requires TreeOk(t)
    ensures var n := Rank(t, s); n > 0 && n < |t| && t[n].start == s ==> t[n - 1].end <= s
    ensures var n := Rank(t, s); n > 0 ==> t[n - 1].start < s
  {
    BeforeRank(t, s);
  }

  lemma FreeSuffix(a: Tree, b: Tree, s: int, e: int)
    requires s < e && Chain(b, s) && forall r | r in a :: r.end <= s
    ensures Free(a + b, s, e) <==> b == [] || e <= b[0].start
  {
    ChainOrdered(b, s);
    if b != [] { assert b[0] in a + b; }
  }

  /** The range before the insertion point reaches into the new lock and is split at `s`. */
  lemma EntrySplit(t: Tree, s: int, e: int, born: nat)
    requires TreeOk(t) && Joinable(t, s, e) && s < e
    requires var n := Rank(t, s); n > 0 && s < t[n - 1].end
    ensures var n := Rank(t, s); var h := t[n - 1]; var b := [Rear(h, s, born)] + t[n..];
      && h.Straddles(s) && OpenRange(h) && !Free(t, s, e) && b[0].start < e
      && t == t[..n - 1] + ([h] + t[n..]) && Chain(b, s) && Open(b, e)
      && Cover(t, s, e, born) == t[..n - 1] + [Front(h, s, born)] + Cover(b, s, e, born)
  {
    hide Cover, Ordered, Rank, Chain;
    var n := Rank(t, s);
    var a, h, b := t[..n - 1], t[n - 1], t[n..];
    assert h in t && t == a + ([h] + b);
    BeforeRank(t, s);
    FromRank(t, s);
    assert h in t[..n];
    CoverSplit(a, h, b, s, e, born);
    ConsChain(Rear(h, s, born), b, s);
    JoinableOpen(t, s, e, b);
  }

  ghost predicate NoneBlocks(t: Tree, s: int, e: int, n: nat) {
    n <= |t| && forall i | 0 <= i < n :: !(t[i].Overlaps(s, e) && t[i].Blocks())
  }

  lemma FirstBlockerIs(t: Tree, s: int, e: int, n: nat)
    requires NoneBlocks(t, s, e, n) && (n < |t| ==> t[n].Overlaps(s, e) && t[n].Blocks())
    ensures FirstBlocker(t, s, e) == n
  {
  }

  /** The scan may stop at a range that starts, or after one that ends, at or behind `e`. */
  lemma NoBlocker(t: Tree, s: int, e: int, n: nat)
    requires Ordered(t) && NoneBlocks(t, s, e, n)
    requires n == |t| || e <= t[n].start || (n > 0 && e <= t[n - 1].end)
    ensures FirstBlocker(t, s, e) == |t|
  {
    assert NoneBlocks(t, s, e, |t|);
    FirstBlockerIs(t, s, e, |t|);
  }

  // ---------------------------------------------------------------------------------------------
  // The walk over the proxies of a lock

  /** `b` begins with shared proxies that tile [c, e) without a gap. */
  ghost predicate Tiled(b: Tree, c: int, e: int) {
    c == e || (b != [] && ProxyOk(b[0]) && b[0].start == c < b[0].end <= e && Tiled(b[1..], b[0].end, e))
  }

  ghost predicate ProxyOk(r: Range) { r.refs >= 1 && r.kind == Reader && r.proxy }

  lemma {:induction false} CoveredIsTiled(b: Tree, c: int, e: int)
    requires Chain(b, c) && c <= e && NoStraddle(b, e)
    requires forall x | c <= x < e :: Load(b, x) > 0
    requires forall r | r in b && r.start < e :: ProxyOk(r)
    ensures Tiled(b, c, e)
  {
    if c < e {
      assert Load(b, c) > 0;
      ChainOrdered(b, c);
      var i := LoadCovered(b, c);
      assert b[0].start == c;
      forall x | b[0].end <= x < e ensures Load(b[1..], x) > 0 {
        assert Load(b, x) > 0;
      }
      assert b[0] in b;
      CoveredIsTiled(b[1..], b[0].end, e);
    }
  }

  /** Nothing of [s, e) lies in the ranges `a` before it. */
  lemma {:induction false} ReleaseSkip(a: Tree, b: Tree, s: int, e: int)
    requires forall r | r in a :: r.start < s
    ensures Release(a + b, s, e) == a + Release(b, s, e)
    ensures Dropped(a + b, s, e) == Dropped(b, s, e)
  {
    if a == [] {
      assert a + b == b;
    } else {
      ReleaseSkip(a[1..], b, s, e);
      assert (a + b)[0] == a[0] && (a + b)[1..] == a[1..] + b && a[0] in a;
    }
  }

  /** Nothing of [s, e) lies in the ranges from `e` on. */
  lemma {:induction false} ReleaseRest(b: Tree, s: int, e: int, lo: int)
    requires Chain(b, lo) && e <= lo
    ensures Release(b, s, e) == b && Dropped(b, s, e) == []
  {
    if b != [] {
      ReleaseRest(b[1..], s, e, b[0].end);
    }
  }

  /** The wrapped length is zero only at the end of the lock. */
  lemma WrapZero(cur: int, end: int)
    requires IsOffset(cur) && IsOffset(end) && cur <= end
    ensures (cur - end) % WORD == 0 <==> cur == end
  {
    if cur != end { assert cur - end == -WORD + (cur - end + WORD); }
  }

  lemma WrapStep(cur: int, next: int, end: int)
    ensures ((cur - end) % WORD - (cur - next)) % WORD == (next - end) % WORD
  {
    var q := (cur - end) / WORD;
    assert (cur - end) % WORD == cur - end - q * WORD;
    ModShift(next - end, -q);
  }

  lemma ModShift(x: int, q: int)
    ensures (x + q * WORD) % WORD == x % WORD
  {
  }

  /** One round of the walk: the asserts of the loop hold and one proxy is accounted for. */
  lemma TileStep(b: Tree, s: int, c: int, e: int, len: int)
    requires Tiled(b, c, e) && Chain(b, c) && s <= c <= e && IsOffset(s) && IsOffset(e)
    requires len == (c - e) % WORD && len != 0
    ensures b != [] && b == [b[0]] + b[1..] && ProxyOk(b[0]) && b[0].start == c < b[0].end <= e
    ensures Tiled(b[1..], b[0].end, e) && Chain(b[1..], b[0].end)
    ensures var l := (len - (b[0].start - b[0].end)) % WORD;
      && l == (b[0].end - e) % WORD
      && (l != 0 ==> b[1..] != [] && b[1].start == b[0].end && ProxyOk(b[1]))
    ensures b[0].refs == 1 ==>
      Release(b, s, e) == Release(b[1..], s, e) && Dropped(b, s, e) == [b[0]] + Dropped(b[1..], s, e)
    ensures b[0].refs != 1 ==>
      && Release(b, s, e) == [b[0].(refs := b[0].refs - 1)] + Release(b[1..], s, e)
      && Dropped(b, s, e) == Dropped(b[1..], s, e)
  {
    WrapZero(c, e);
    WrapStep(c, b[0].end, e);
    WrapZero(b[0].end, e);
  }

  lemma ProxiedRange(st: State, k: nat, r: Range)
    requires Inv(st) && k < |st.held| && !Live(st.tree, st.held[k])
    requires r in st.tree && r.Overlaps(st.held[k].start, st.held[k].end)
    ensures ProxyOk(r)
  {
    hide Bounded, ParkedOk;
    var l := st.held[k];
    assert HandleOk(st.tree, l, st.calls);
    if !r.proxy {
      var o :| o in st.held && o.Owns(r);
      if o == l {
        NamesLive(st.tree, l, r);
      } else {
        var j :| 0 <= j < |st.held| && st.held[j] == o;
        var x := if r.start < l.start then l.start else r.start;
        OriginalCountsOne(st.tree, st.held, r, x);
        TwoCount(st.held, j, k, x);
      }
      assert false;
    }
  }

  lemma SuffixLoad(a: Tree, b: Tree, s: int, x: int)
    requires s <= x && NoStraddle(a + b, s) && forall r | r in a :: r.start < s
    ensures Load(b, x) == Load(a + b, x)
  {
    LoadConcat(a, b, x);
    forall r | r in a ensures !r.Covers(x) { assert r in a + b; }
    LoadOutside(a, x);
  }

  lemma HeldTile(t: Tree, n: nat, held: seq<Lock>, l: Lock)
    requires n <= |t| && Accounted(t, held) && l in held && l.start < l.end
    requires NoStraddle(t, l.start) && NoStraddle(t, l.end) && Chain(t[n..], l.start)
    requires forall r | r in t[..n] :: r.start < l.start
    requires forall r | r in t[n..] && r.start < l.end :: ProxyOk(r)
    ensures Tiled(t[n..], l.start, l.end)
  {
    assert t == t[..n] + t[n..];
    forall x | l.start <= x < l.end ensures Load(t[n..], x) > 0 {
      CountHeld(held, l, x);
      SuffixLoad(t[..n], t[n..], l.start, x);
      assert Load(t, x) == Count(held, x);
    }
    CoveredIsTiled(t[n..], l.start, l.end);
  }

  lemma ProxiedSuffix(st: State, k: nat, n: nat)
    requires Inv(st) && k < |st.held| && !Live(st.tree, st.held[k]) && n <= |st.tree|
    requires forall r | r in st.tree[n..] :: st.held[k].start < r.end
    ensures forall r | r in st.tree[n..] && r.start < st.held[k].end :: ProxyOk(r)
  {
    hide Inv, Live, ProxyOk;
    forall r | r in st.tree[n..] && r.start < st.held[k].end ensures ProxyOk(r) {
      assert r in st.tree;
      ProxiedRange(st, k, r);
    }
  }

  lemma HeldEdges(st: State, l: Lock)
    requires Inv(st) && l in st.held
    ensures l.start < l.end && NoStraddle(st.tree, l.start) && NoStraddle(st.tree, l.end)
    ensures Ordered(st.tree) && Accounted(st.tree, st.held)
  {
    assert HandleOk(st.tree, l, st.calls);
    EdgesNotStraddled(st.tree, l.start);
    EdgesNotStraddled(st.tree, l.end);
  }

  /** The proxies of a held lock whose descriptor was replaced start at its start offset and tile
      it, whatever was split in the meantime. */
  lemma ProxiesTile(st: State, k: nat)
    requires Inv(st) && k < |st.held| && !Live(st.tree, st.held[k])
    ensures var l := st.held[k]; var n := Rank(st.tree, l.start);
      && Tiled(st.tree[n..], l.start, l.end) && Chain(st.tree[n..], l.start)
      && (forall r | r in st.tree[..n] :: r.start < l.start)
  {
    hide *;
    var t, l := st.tree, st.held[k];
    var n := Rank(t, l.start);
    HeldEdges(st, l);
    BeforeRank(t, l.start);
    FromRank(t, l.start);
    ProxiedSuffix(st, k, n);
    HeldTile(t, n, st.held, l);
  }

  ghost predicate Below(a: Tree, x: int) { forall r | r in a :: r.start < x }

  /** `x` is a place between the starts of `a` and of `b`. */
  ghost predicate Around(a: Tree, x: int, b: Tree) { Below(a, x) && forall r | r in b :: x < r.start }

  lemma InsertAround(a: Tree, r: Range, b: Tree)
    requires Around(a, r.start, b)
    ensures Insert(a + b, r) == a + [r] + b
  {
    var t := a + b;
    forall i | 0 <= i < |a| ensures t[i].start < r.start { assert t[i] == a[i] && a[i] in a; }
    if b != [] { assert t[|a|] == b[0] && b[0] in b; }
    assert Rank(t, r.start) == |a|;
  }

  lemma BelowSnoc(a: Tree, r: Range, x: int, y: int)
    requires Below(a, x) && x <= r.start < y
    ensures Below(a + [r], y)
  {
  }

  lemma BelowMore(a: Tree, x: int, y: int)
    requires Below(a, x) && x <= y
    ensures Below(a, y)
  {
  }

  /** A chain that begins beyond `x` lies beyond it. */
  lemma AroundChain(a: Tree, x: int, b: Tree, lo: int)
    requires Below(a, x) && Chain(b, lo) && (b != [] ==> x < b[0].start)
    ensures Around(a, x, b)
  {
    if b != [] {
      OrderedStart(b, lo);
      ChainOrdered(b, b[0].start);
    }
  }

  lemma OrderedStart(b: Tree, lo: int)
    requires Chain(b, lo) && b != []
    ensures Chain(b, b[0].start)
  {
  }

  /** The place of `s` inside the range `i`. */
  lemma AroundAt(t: Tree, i: nat, s: int)
    requires TreeOk(t) && i < |t| && t[i].start <= s < t[i].end
    ensures Around(t[..i], t[i].start, t[i + 1..]) && Around(t[..i], s, t[i + 1..])
  {
    forall r | r in t[..i] ensures r.start < t[i].start { var k :| 0 <= k < i && t[k] == r; }
    forall r | r in t[i + 1..] ensures t[i].end <= r.start { var k :| i < k < |t| && t[k] == r; }
  }

  lemma BelowRank(t: Tree, s: int)
    ensures Below(t[..Rank(t, s)], s)
  {
  }

  lemma AroundParts(a: Tree, x: int, b: Tree)
    requires Around(a, x, b)
    ensures Below(a, x)
  {
  }

  lemma ChainTail(h: Range, tail: Tree, lo: int)
    requires Chain([h] + tail, lo)
    ensures lo <= h.start < h.end && Chain(tail, h.end)
  {
    assert ([h] + tail)[1..] == tail;
  }

  lemma AroundTail(a: Tree, h: Range, tail: Tree)
    requires Below(a, h.start) && Chain(tail, h.end) && h.start < h.end
    ensures Around(a, h.start, tail) && forall x | h.start <= x < h.end :: Around(a, x, tail)
  {
    ChainOrdered(tail, h.end);
  }

  lemma SetAt(a: Tree, h: Range, b: Tree, r: Range)
    ensures (a + ([h] + b))[|a|] == h && (a + ([h] + b))[|a| := r] == a + ([r] + b)
  {
  }

  lemma SplitPlaces(a: Tree, h: Range, b: Tree, x: int, born: nat)
    requires Around(a, h.start, b) && Around(a, x, b) && h.start < x
    ensures Around(a + [Front(h, x, born)], x, b)
  {
  }

  lemma RemoveMiddle(a: Tree, h: Range, b: Tree)
    ensures RemoveAt(a + ([h] + b), |a|) == a + b
  {
  }

  class Manager {
    var tree: Tree
    var calls: nat
    ghost var held: seq<Lock>
    ghost var pending: map<nat, Request>
    ghost var parked: map<nat, Place>

    ghost function Abs(): State reads this { State(tree, held, calls, pending, parked) }

    lemma AbsIs()
      ensures Abs() == State(tree, held, calls, pending, parked)
    {
    }

    constructor ()
      ensures Abs() == INITIAL
    {
      tree, calls, held, pending, parked := [], 0, [], map[], map[];
    }

    /** `add`: the tree finds the place of the range itself; there must be none with its start. */
    method TreeAdd(r: Range, ghost a: Tree, ghost b: Tree)
      requires tree == a + b && Around(a, r.start, b)
      modifies this`tree
      ensures tree == Insert(old(tree), r) == a + [r] + b
    {
      InsertAround(a, r, b);
      tree := Insert(tree, r);
    }

    /** `insert_here`, right behind the range `at`; that is where the range belongs. */
    method TreeInsertHere(at: nat, r: Range, ghost a: Tree, ghost b: Tree)
      requires tree == a + b && |a| == at + 1 && Around(a, r.start, b)
      modifies this`tree
      ensures tree == Insert(old(tree), r) == a + [r] + b
    {
      InsertAround(a, r, b);
      tree := tree[..at + 1] + [r] + tree[at + 1..];
    }

    /** `range_new_proxy` */
    method RangeNewProxy(offset: int, end: int, ghost a: Tree, ghost b: Tree)
      requires offset < end && tree == a + b && Around(a, offset, b)
      modifies this`tree
      ensures tree == Insert(old(tree), NewProxy(offset, end, calls)) == a + [NewProxy(offset, end, calls)] + b
    {
      TreeAdd(NewProxy(offset, end, calls), a, b);
    }

    /** `range_proxify`: an original node is removed, and a new proxy for the same range is added. */
    method RangeProxify(at: nat, ghost a: Tree, ghost h: Range, ghost b: Tree)
      requires tree == a + ([h] + b) && |a| == at && Around(a, h.start, b)
      requires h.proxy || OpenRange(h)
      modifies this`tree
      ensures tree == if h.proxy then old(tree) else Insert(RemoveAt(old(tree), at), NewProxy(h.start, h.end, calls))
      ensures tree == a + ([Proxify(h, calls)] + b)
    {
      hide Insert;
      if !tree[at].proxy {
        var start, end := tree[at].start, tree[at].end;
        RemoveMiddle(a, h, b);
        tree := RemoveAt(tree, at);
        TreeAdd(NewProxy(start, end, calls), a, b);
        Assoc(a, [NewProxy(start, end, calls)], b);
      }
    }

    /** `range_split`: the front keeps its place, and `insert_here` puts the rear right after it. */
    method RangeSplit(at: nat, offset: int, ghost a: Tree, ghost h: Range, ghost b: Tree)
      requires tree == a + ([h] + b) && |a| == at && Around(a, h.start, b) && Around(a, offset, b)
      requires h.Straddles(offset) && OpenRange(h)
      modifies this`tree
      ensures tree == a + ([Front(h, offset, calls)] + ([Rear(h, offset, calls)] + b))
      ensures Around(a + [Front(h, offset, calls)], offset, b)
    {
      var end, refs := tree[at].end, tree[at].refs;
      ghost var front, rear := Front(h, offset, calls), NewProxy(offset, h.end, calls);
      SplitPlaces(a, h, b, offset, calls);
      hide Around, Insert;
      RangeProxify(at, a, h, b);
      SetAt(a, Proxify(h, calls), b, front);
      tree := tree[at := tree[at].(end := offset)];
      Assoc(a, [front], b);
      TreeInsertHere(at, NewProxy(offset, end, calls), a + [front], b);
      Assoc(a + [front], [rear], b);
      SetAt(a + [front], rear, b, Rear(h, offset, calls));
      tree := tree[at + 1 := tree[at + 1].(refs := refs)];
      Assoc(a, [front], [Rear(h, offset, calls)] + b);
    }

    /** One round of the search loop of `add_reader` at the overlapped range `h`. */
    method CoverOne(next: nat, end: int, ghost done: Tree, ghost h: Range, ghost tail: Tree)
      requires tree == done + ([h] + tail) && |done| == next && h.start < h.end && h.start < end
      requires OpenRange(h) && Below(done, h.start) && Chain(tail, h.end)
      modifies this`tree
      ensures end < h.end ==> tree == done + Cover([h] + tail, h.start, end, calls)
      ensures h.end <= end ==> tree == done + [Bump(Proxify(h, calls))] + tail
    {
      AroundTail(done, h, tail);
      hide Chain, Below, Around, Cover, Insert;
      if end < tree[next].end {
        RangeSplit(next, end, done, h, tail);
        SetAt(done, Front(h, end, calls), [Rear(h, end, calls)] + tail, Bump(Front(h, end, calls)));
        CoverPart(done, h, tail, end, calls);
      } else {
        RangeProxify(next, done, h, tail);
        SetAt(done, Proxify(h, calls), tail, Bump(Proxify(h, calls)));
        Assoc(done, [Bump(Proxify(h, calls))], tail);
      }
      tree := tree[next := tree[next].(refs := tree[next].refs + 1)];
    }

    /** The search loop of `add_reader`, from the range `first` on which the lock is covered. */
    method CoverForward(first: nat, end: int, ghost a: Tree, ghost b: Tree)
      requires tree == a + b && |a| == first
      requires b != [] && b[0].start < end && Chain(b, b[0].start) && Open(b, end)
      requires Below(a, b[0].start)
      modifies this`tree
      ensures tree == a + Cover(b, b[0].start, end, calls)
    {
      hide Cover, Insert, Around, Below;
      ghost var result := a + Cover(b, b[0].start, end, calls);
      var prev, next := -1, first;
      ghost var done, rest, cur := a, b, b[0].start; // [.., cur) has its new reference
      while next < |tree|
        invariant |done| == next && tree == done + rest && cur < end
        invariant if prev == -1 then rest == b && cur == b[0].start
                  else 0 <= prev == next - 1 && cur == tree[prev].end
        invariant Chain(rest, cur) && Open(rest, end) && Below(done, cur)
        invariant result == done + Cover(rest, cur, end, calls)
        decreases |rest|
      {
        if end <= tree[next].start {
          break;
        }
        ghost var h, tail := rest[0], rest[1..];
        assert rest == [h] + tail && tree[next] == h && h in rest;
        ChainTail(h, tail, cur);
        BelowMore(done, cur, h.start);
        if prev != -1 && tree[prev].end < tree[next].start {
          CoverGap(done, h, tail, cur, end, calls);
          AroundChain(done, cur, rest, cur);
          RangeNewProxy(tree[prev].end, tree[next].start, done, rest);
          BelowSnoc(done, NewProxy(cur, h.start, calls), cur, h.start);
          done := done + [NewProxy(cur, h.start, calls)];
          next := next + 1;
        }
        assert result == done + Cover([h] + tail, h.start, end, calls);
        var last := tree[next].end;
        CoverOne(next, end, done, h, tail);
        if end < last {
          return;
        }
        CoverWhole(done, h, tail, end, calls);
        BelowSnoc(done, Bump(Proxify(h, calls)), h.start, h.end);
        done, rest, cur := done + [Bump(Proxify(h, calls))], tail, h.end;
        if end == last {
          return;
        }
        prev, next := next, next + 1;
      }
      CoverTail(done, rest, cur, end, calls);
      AroundChain(done, cur, rest, cur);
      RangeNewProxy(tree[prev].end, end, done, rest);
    }

    /** The first part of `add_reader`: a range that reaches into the new lock is split, so that
        `next` is the first range that starts at or after `start`. */
    method SplitAtStart(start: int, end: int, prev: int, where: nat)
      returns (next: nat, ghost a: Tree, ghost b: Tree)
      requires TreeOk(tree) && start < end && where == Rank(tree, start) && Joinable(tree, start, end)
      requires prev == if where < |tree| && tree[where].start == start then where else where - 1
      modifies this`tree
      ensures tree == a + b && |a| == next && Chain(b, start) && Open(b, end) && Below(a, start)
      ensures Cover(old(tree), start, end, calls) == a + Cover(b, start, end, calls)
      ensures Free(old(tree), start, end) <==> b == [] || end <= b[0].start
      ensures Free(old(tree), start, end) ==> tree == old(tree) && next == where
    {
      hide *;
      next := where;
      if prev != -1 && start < tree[prev].end && tree[prev].start != start {
        EntrySplit(tree, start, end, calls);
        PlainBefore(tree, start);
        AroundAt(tree, prev, start);
        ghost var p, h, tail := tree[..prev], tree[prev], tree[where..];
        RangeSplit(prev, start, p, h, tail);
        a, b := p + [Front(h, start, calls)], [Rear(h, start, calls)] + tail;
        Assoc(p, [Front(h, start, calls)], b);
        AroundParts(a, start, tail);
      } else {
        PlainBefore(tree, start);
        EntryPlain(tree, start, end, calls);
        BelowRank(tree, start);
        a, b := tree[..where], tree[where..];
      }
    }

    /** `add_reader`. */
    method AddReader(start: int, end: int, prev: int, where: nat) returns (ptr: Ptr)
      requires TreeOk(tree) && start < end && where == Rank(tree, start) && Joinable(tree, start, end)
      requires prev == if where < |tree| && tree[where].start == start then where else where - 1
      modifies this`tree
      ensures Free(old(tree), start, end) ==>
        tree == Insert(old(tree), Original(Request(start, end, Reader), calls)) && ptr == Descriptor(calls)
      ensures !Free(old(tree), start, end) ==> tree == Cover(old(tree), start, end, calls) && ptr == Null
    {
      hide Cover;
      var next;
      ghost var a, b;
      next, a, b := SplitAtStart(start, end, prev, where);
      if next == |tree| || end <= tree[next].start {
        tree := tree[..where] + [Original(Request(start, end, Reader), calls)] + tree[where..];
        return Descriptor(calls);
      }
      ptr := Null;
      ghost var h, tail := b[0], b[1..];
      assert b == [h] + tail;
      if start < tree[next].start {
        CoverGap(a, h, tail, start, end, calls);
        AroundChain(a, start, b, start);
        RangeNewProxy(start, tree[next].start, a, b);
        BelowSnoc(a, NewProxy(start, h.start, calls), start, h.start);
        a := a + [NewProxy(start, h.start, calls)];
        next := next + 1;
      }
      CoverForward(next, end, a, b);
    }

    /** The search of `lock_range_reader` for a range that keeps the reader out. */
    method ScanForWriters(start: int, end: int) returns (prev: int, where: nat, blocker: nat)
      requires Ordered(tree) && start < end
      ensures where == Rank(tree, start)
      ensures prev == if where < |tree| && tree[where].start == start then where else where - 1
      ensures blocker == FirstBlocker(tree, start, end)
    {
      hide Ordered, Rank, FirstBlocker;
      where := Rank(tree, start);
      prev := if where < |tree| && tree[where].start == start then where else where - 1;
      BeforePrev(tree, start, end, prev);
      if prev >= 0 && start < tree[prev].end {
        if tree[prev].Blocks() {
          return prev, where, prev;
        }
        if end < tree[prev].end {
          NoBlocker(tree, start, end, prev + 1);
          return prev, where, |tree|;
        }
      }
      var next := prev + 1;
      while next < |tree|
        invariant prev < next <= |tree| && NoneBlocks(tree, start, end, next)
      {
        if end <= tree[next].start {
          NoBlocker(tree, start, end, next);
          return prev, where, |tree|;
        }
        if tree[next].Blocks() {
          FirstBlockerIs(tree, start, end, next);
          return prev, where, next;
        }
        if end <= tree[next].end {
          NoBlocker(tree, start, end, next + 1);
          return prev, where, |tree|;
        }
        next := next + 1;
      }
      NoBlocker(tree, start, end, next);
      return prev, where, |tree|;
    }

    ghost method GrantTo(thread: nat, l: Lock)
      modifies this`held, this`pending, this`parked
      ensures held == old(held) + [l]
      ensures pending == old(pending) - {thread} && parked == old(parked) - {thread}
    {
      held, pending, parked := held + [l], pending - {thread}, parked - {thread};
    }

    /** `wait`: the flag of range `i` is raised and the thread sleeps on its condition variable. */
    method WaitOn(i: nat, thread: nat, req: Request)
      requires i < |tree|
      modifies this
      ensures Abs() == Park(old(Abs()), thread, req, i) && held == old(held)
    {
      pending, parked := pending[thread := req], parked[thread := Place(tree[i].start, tree[i].born)];
      tree := tree[i := if req.kind == Writer then tree[i].(writeWanted := true) else tree[i].(readWanted := true)];
    }

    /** One pass of `lock_range_reader`; a retried one starts behind the test for an empty tree. */
    method LockRangeReader(thread: nat, start: int, end: int, retried: bool) returns (granted: bool, ptr: Ptr)
      requires Inv(Abs()) && start < end && (retried ==> tree != [])
      modifies this
      ensures Next(Abs()) == Attempt(old(Abs()), thread, Request(start, end, Reader), retried)
      ensures granted ==> held == old(held) + [Lock(start, end, Reader, ptr)]
      ensures !granted ==> held == old(held)
    {
      ghost var st, req := Abs(), Request(start, end, Reader);
      assert Target(tree, req) == FirstBlocker(tree, start, end);
      hide *;
      InvTree(st);
      assert st == State(tree, held, calls, pending, parked) by { AbsIs(); }
      if !retried && tree == [] {
        tree := [Original(Request(start, end, Reader), calls)];
        ptr := Descriptor(calls);
        EmptyInsert(Original(req, calls), start, end);
        AttemptGrants(st, thread, req, retried, tree, ptr);
      } else {
        var prev, where, blocker := ScanForWriters(start, end);
        if blocker < |tree| {
          AttemptParks(st, thread, req, retried, blocker);
          WaitOn(blocker, thread, Request(start, end, Reader));
          return false, Null;
        }
        FirstBlockerIsFullScan(tree, start, end);
        ptr := AddReader(start, end, prev, where);
        AttemptGrants(st, thread, req, retried, tree, ptr);
      }
      granted := true;
      calls := calls + 1;
      GrantTo(thread, Lock(start, end, Reader, ptr));
      AbsIs();
    }

    /** One pass of the loop of `lock_range_writer`. */
    method LockRangeWriter(thread: nat, start: int, end: int, ghost retried: bool) returns (granted: bool, ptr: Ptr)
      requires Inv(Abs()) && start < end
      modifies this
      ensures Next(Abs()) == Attempt(old(Abs()), thread, Request(start, end, Writer), retried)
      ensures granted ==> held == old(held) + [Lock(start, end, Writer, ptr)]
      ensures !granted ==> held == old(held)
    {
      hide Inv, TreeOk, Cover, Rank;
      assert TreeOk(tree) && Ordered(tree) by { InvTree(Abs()); }
      WriterTargetIsFullScan(tree, start, end);
      var req := Request(start, end, Writer);
      if tree == [] {
        tree := [Original(req, calls)];
        EmptyInsert(Original(req, calls), start, end);
      } else {
        var where := Rank(tree, start);
        if where < |tree| && tree[where].start == start {
          WaitOn(where, thread, req);
          return false, Null;
        }
        if where < |tree| && tree[where].start < end {
          WaitOn(where, thread, req);
          return false, Null;
        }
        if where > 0 && tree[where - 1].end > start {
          WaitOn(where - 1, thread, req);
          return false, Null;
        }
        tree := tree[..where] + [Original(req, calls)] + tree[where..];
      }
      granted, ptr := true, Descriptor(calls);
      calls := calls + 1;
      GrantTo(thread, Lock(start, end, Writer, ptr));
    }

    /** `unlock_range_writer`, and the first case of `unlock_range_reader`. */
    method RemoveOriginal(rl: Lock, ghost k: nat)
      requires k < |held| && held[k] == rl && Live(tree, rl)
      modifies this
      ensures Abs() == Unlock(old(Abs()), k)
    {
      var i := Rank(tree, rl.start);
      parked := Asleep(Abs(), [tree[i]]); // notify_all on its condition variables
      tree := tree[..i] + tree[i + 1..];
      held := held[..k] + held[k + 1..];
    }

    /** The walk of `unlock_range_reader`; `len` counts up from minus the length of the lock. */
    method ReleaseProxies(start: int, end: int, ghost first: nat)
      returns (ghost removed: seq<Range>)
      requires IsOffset(start) && IsOffset(end) && start < end && first == Rank(tree, start)
      requires Tiled(tree[first..], start, end) && Chain(tree[first..], start)
      requires forall r | r in tree[..first] :: r.start < start
      modifies this`tree
      ensures tree == Release(old(tree), start, end) && removed == Dropped(old(tree), start, end)
    {
      hide Release, Dropped, Rank, Chain, Tiled;
      var pr, len := Rank(tree, start), (start - end) % WORD;
      ghost var done, rest, cur := tree[..pr], tree[pr..], start;
      removed := [];
      assert tree == done + rest;
      ReleaseSkip(done, rest, start, end);
      while len != 0
        invariant tree == done + rest && |done| == pr && start <= cur <= end
        invariant len == (cur - end) % WORD
        invariant Tiled(rest, cur, end) && Chain(rest, cur)
        invariant Release(old(tree), start, end) == done + Release(rest, start, end)
        invariant Dropped(old(tree), start, end) == removed + Dropped(rest, start, end)
        decreases |rest|
      {
        TileStep(rest, start, cur, end, len);
        ghost var h, tail := rest[0], rest[1..];
        assert tree[pr] == h && tree == done + ([h] + tail);
        var last := tree[pr].end;
        len := (len - (tree[pr].start - last)) % WORD;
        if len != 0 {
          assert pr + 1 < |tree| && tree[pr + 1] == tail[0];
          assert last == tree[pr + 1].start && ProxyOk(tree[pr + 1]);
        }
        if tree[pr].refs == 1 {
          removed := removed + [h];
          tree := tree[..pr] + tree[pr + 1..];
        } else {
          tree := tree[pr := tree[pr].(refs := tree[pr].refs - 1)];
          done := done + [h.(refs := h.refs - 1)];
          pr := pr + 1;
        }
        rest, cur := tail, h.end;
      }
      WrapZero(cur, end);
      ReleaseRest(rest, start, end, cur);
    }

    /** The second case of `unlock_range_reader`. */
    method UnlockProxies(rl: Lock, ghost k: nat)
      requires Inv(Abs()) && k < |held| && held[k] == rl && IsOffset(rl.start) && IsOffset(rl.end)
      requires !Live(tree, rl)
      modifies this
      ensures Abs() == Unlock(old(Abs()), k)
    {
      hide *;
      AbsIs();
      HeldEdges(Abs(), rl);
      ProxiesTile(Abs(), k);
      UnlockProxied(Abs(), k);
      ghost var st := Abs();
      ghost var removed := ReleaseProxies(rl.start, rl.end, Rank(tree, rl.start));
      parked := Asleep(st, removed); // notify_all on the condition variables of the removed ranges
      held := held[..k] + held[k + 1..];
      AbsIs();
    }

    /** `unlock_range`. */
    method UnlockRange(rl: Lock, ghost k: nat)
      requires Inv(Abs()) && k < |held| && held[k] == rl && IsOffset(rl.start) && IsOffset(rl.end)
      modifies this
      ensures Abs() == Unlock(old(Abs()), k)
    {
      hide *;
      AbsIs();
      if rl.kind == Writer { WriterIsLive(Abs(), rl); }
      if rl.kind == Writer || Live(tree, rl) {
        RemoveOriginal(rl, k);
      } else {
        UnlockProxies(rl, k);
      }
    }
  }

  lemma UnlockProxied(st: State, k: nat)
    requires k < |st.held| && !Live(st.tree, st.held[k])
    ensures var l := st.held[k];
      Unlock(st, k) == State(Release(st.tree, l.start, l.end), st.held[..k] + st.held[k + 1..], st.calls, st.pending,
                             Asleep(st, Dropped(st.tree, l.start, l.end)))
  {
  }

  /** The outcome of a granted request, from the new tree and pointer. */
  lemma AttemptGrants(st: State, th: nat, req: Request, retried: bool, u: Tree, ptr: Ptr)
    requires Target(st.tree, req) == |st.tree| && (retried && req.kind == Reader ==> st.tree != [])
    requires Free(st.tree, req.start, req.end) ==>
      u == Insert(st.tree, Original(req, st.calls)) && ptr == Descriptor(st.calls)
    requires !Free(st.tree, req.start, req.end) ==>
      u == Cover(st.tree, req.start, req.end, st.calls) && ptr == Null
    ensures Attempt(st, th, req, retried) == Next(
      State(u, st.held + [Lock(req.start, req.end, req.kind, ptr)], st.calls + 1, st.pending - {th}, st.parked - {th}))
  {
  }

  lemma AttemptParks(st: State, th: nat, req: Request, retried: bool, i: nat)
    requires Target(st.tree, req) == i < |st.tree|
    ensures Attempt(st, th, req, retried) == Next(Park(st, th, req, i))
  {
  }

  lemma InvTree(st: State)
    requires Inv(st)
    ensures TreeOk(st.tree) && Ordered(st.tree)
  {
  }

  lemma EmptyInsert(r: Range, s: int, e: int)
    ensures Insert([], r) == [r] && Free([], s, e) && WriterTarget([], s, e) == 0 && FirstBlocker([], s, e) == 0
  {
  }

  /** What the reader knows of the range found at, or just before, its start offset. */
  lemma BeforePrev(t: Tree, s: int, e: int, prev: int)
    requires Ordered(t) && s < e
    requires prev == var n := Rank(t, s); if n < |t| && t[n].start == s then n else n - 1
    ensures prev >= 0 && s < t[prev].end && t[prev].Blocks() ==> FirstBlocker(t, s, e) == prev
    ensures !(prev >= 0 && s < t[prev].end && t[prev].Blocks()) ==> NoneBlocks(t, s, e, prev + 1)
    ensures forall i | prev < i < |t| :: s < t[i].end
  {
    if prev >= 0 && s < t[prev].end && t[prev].Blocks() { FirstBlockerIs(t, s, e, prev); }
  }

  lemma WriterIsLive(st: State, l: Lock)
    requires Inv(st) && l in st.held && l.kind == Writer
    ensures Live(st.tree, l)
  {
    assert HandleOk(st.tree, l, st.calls);
    var r :| r in st.tree && l.Owns(r);
    NamesLive(st.tree, l, r);
  }
}
