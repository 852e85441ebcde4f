/**
  The ranges kept by `lock_manager`, as values, and the effect of each tree operation of the
  range lock on them. The AVL tree is represented by its contract: the sequence of ranges in
  order of their start offset (module `AvlTree` proves that contract for the pointer structure).
 */
module RangeTree {

  datatype Kind = Reader | Writer

  /** A range descriptor. `born` is the number of the lock call that allocated it; together with
      `start` it identifies the descriptor, since one call allocates at most one per offset. */
  datatype Range = Range(
    start: int, end: int, kind: Kind, refs: int, proxy: bool,
    readWanted: bool, writeWanted: bool, born: nat)
  {
    predicate Overlaps(s: int, e: int) { start < e && s < end }

    predicate Covers(x: int) { start <= x < end }

    /** A reader may not join this range and has to wait for it. */
    predicate Blocks() { kind == Writer || writeWanted }

    predicate Straddles(x: int) { start < x < end }
  }

  type Tree = seq<Range>

  /** Non-empty, pairwise disjoint ranges in ascending order. */
  ghost predicate Ordered(t: Tree) {
    && (forall i | 0 <= i < |t| :: t[i].start < t[i].end)
    && (forall i, j | 0 <= i < j < |t| :: t[i].end <= t[j].start)
  }

  /** The references that the tree holds on offset `x`. */
  ghost function Load(t: Tree, x: int): int {
    if t == [] then 0 else (if t[0].Covers(x) then t[0].refs else 0) + Load(t[1..], x)
  }

  /** `range_new_proxy`: a fresh proxy with one reference. */
  function NewProxy(s: int, e: int, born: nat): Range {
    Range(s, e, Reader, 1, true, false, false, born)
  }

  /** `range_proxify`: a proxy stays, an original is replaced by a fresh proxy. */
  function Proxify(r: Range, born: nat): Range {
    if r.proxy then r else NewProxy(r.start, r.end, born)
  }

  /** The two pieces of `range_split`. */
  function Front(r: Range, x: int, born: nat): Range { Proxify(r, born).(end := x) }
  function Rear(r: Range, x: int, born: nat): Range { NewProxy(x, r.end, born).(refs := r.refs) }

  function Bump(r: Range): Range { r.(refs := r.refs + 1) }

  /** One more reference on every offset of [s, e): straddling ranges are split, overlapped ones
      become proxies and gaps are filled with new proxies. */
  function Cover(t: Tree, s: int, e: int, born: nat): Tree
    decreases |t|, e - s, t != [] && t[0].Straddles(s)
  {
    if s >= e then t
    else if t == [] || e <= t[0].start then [NewProxy(s, e, born)] + t
    else if t[0].end <= s then [t[0]] + Cover(t[1..], s, e, born)
    else if t[0].start < s then
      [Front(t[0], s, born)] + Cover([Rear(t[0], s, born)] + t[1..], s, e, born)
    else if s < t[0].start then [NewProxy(s, t[0].start, born)] + Cover(t, t[0].start, e, born)
    else if e < t[0].end then [Bump(Front(t[0], e, born)), Rear(t[0], e, born)] + t[1..]
    else [Bump(Proxify(t[0], born))] + Cover(t[1..], t[0].end, e, born)
  }

  /** One reference less on every range inside [s, e); a range without references goes away. */
  function Release(t: Tree, s: int, e: int): Tree {
    if t == [] then []
    else if s <= t[0].start && t[0].end <= e then
      (if t[0].refs == 1 then [] else [t[0].(refs := t[0].refs - 1)]) + Release(t[1..], s, e)
    else [t[0]] + Release(t[1..], s, e)
  }

  /** The number of ranges that start before `x`: the insertion point of `find_node`. */
  function Rank(t: Tree, x: int): (n: nat)
    ensures n <= |t|
    ensures forall i | 0 <= i < n :: t[i].start < x
    ensures n < |t| ==> x <= t[n].start
  {
    if t == [] || x <= t[0].start then 0 else 1 + Rank(t[1..], x)
  }

  function Insert(t: Tree, r: Range): Tree { t[..Rank(t, r.start)] + [r] + t[Rank(t, r.start)..] }

  predicate Free(t: Tree, s: int, e: int) { forall r | r in t :: !r.Overlaps(s, e) }

  /** No range overlapping [s, e) keeps a reader out. */
  ghost predicate Joinable(t: Tree, s: int, e: int) {
    forall r | r in t && r.Overlaps(s, e) :: !r.Blocks()
  }

  // ---------------------------------------------------------------------------------------------
  // Facts about Load

  lemma {:induction false} LoadConcat(a: Tree, b: Tree, x: int)
    ensures Load(a + b, x) == Load(a, x) + Load(b, x)
  {
    if a == [] {
      assert a + b == b;
    } else {
      LoadConcat(a[1..], b, x);
      assert (a + b)[1..] == a[1..] + b;
    }
  }

  lemma {:induction false} LoadOutside(t: Tree, x: int)
    requires forall r | r in t :: !r.Covers(x)
    ensures Load(t, x) == 0
  {
    if t != [] {
      LoadOutside(t[1..], x);
    }
  }

  /** In an ordered tree the load of an offset is the count of the one range that covers it. */
  lemma {:induction false} LoadAt(t: Tree, i: nat, x: int)
    requires Ordered(t) && i < |t| && t[i].Covers(x)
    ensures Load(t, x) == t[i].refs
  {
    assert t == t[..i] + ([t[i]] + t[i + 1..]);
    LoadConcat(t[..i], [t[i]] + t[i + 1..], x);
    LoadConcat([t[i]], t[i + 1..], x);
    LoadOutside(t[..i], x);
    LoadOutside(t[i + 1..], x);
  }

  lemma LoadCovered(t: Tree, x: int) returns (i: nat)
    requires Load(t, x) > 0
    ensures i < |t| && t[i].Covers(x)
  {
    if forall r | r in t :: !r.Covers(x) { LoadOutside(t, x); }
    var r :| r in t && r.Covers(x);
    i :| i < |t| && t[i] == r;
  }

  lemma {:induction false} ConcatOrdered(a: Tree, b: Tree)
    requires Ordered(a) && Ordered(b)
    requires a != [] && b != [] ==> a[|a| - 1].end <= b[0].start
    ensures Ordered(a + b)
  {
    forall i, j | 0 <= i < j < |a + b| ensures (a + b)[i].end <= (a + b)[j].start {
      if i < |a| && |a| <= j {
        assert a[i].end <= a[|a| - 1].end;
        assert b[0].start <= b[j - |a|].start;
      }
    }
  }

  // ---------------------------------------------------------------------------------------------
  // Facts about Cover

  lemma TailOrdered(t: Tree)
    requires Ordered(t) && t != []
    ensures Ordered(t[1..]) && forall r | r in t[1..] :: t[0].end <= r.start
  {
  }

  /** `Ordered`, with lower bound `lo`, said along the recursion of `Cover` and `Release`. */
  ghost predicate Chain(t: Tree, lo: int) {
    t == [] || (lo <= t[0].start < t[0].end && Chain(t[1..], t[0].end))
  }

  lemma {:induction false} ChainOrdered(t: Tree, lo: int)
    requires Chain(t, lo)
    ensures Ordered(t) && forall r | r in t :: lo <= r.start
  {
    if t != [] {
      ChainOrdered(t[1..], t[0].end);
      assert t == [t[0]] + t[1..];
      ConcatOrdered([t[0]], t[1..]);
    }
  }

  lemma {:induction false} OrderedChain(t: Tree, lo: int)
    requires Ordered(t) && (t != [] ==> lo <= t[0].start)
    ensures Chain(t, lo)
  {
    if t != [] {
      OrderedChain(t[1..], t[0].end);
    }
  }

  lemma ConsChain(r: Range, t: Tree, lo: int)
    requires lo <= r.start < r.end && Chain(t, r.end)
    ensures Chain([r] + t, lo)
  {
    assert ([r] + t)[1..] == t;
  }

  lemma {:induction false} CoverChain(t: Tree, s: int, e: int, born: nat, lo: int)
    requires Chain(t, lo) && lo <= s
    ensures Chain(Cover(t, s, e, born), lo)
    decreases |t|, e - s, t != [] && t[0].Straddles(s)
  {
    if s >= e {
      return;
    } else if t == [] || e <= t[0].start {
      ConsChain(NewProxy(s, e, born), t, lo);
      return;
    }
    var h, tail := t[0], t[1..];
    if h.end <= s {
      CoverChain(tail, s, e, born, h.end);
      ConsChain(h, Cover(tail, s, e, born), lo);
    } else if h.start < s {
      var rest := [Rear(h, s, born)] + tail;
      ConsChain(Rear(h, s, born), tail, s);
      CoverChain(rest, s, e, born, s);
      ConsChain(Front(h, s, born), Cover(rest, s, e, born), lo);
    } else if s < h.start {
      CoverChain(t, h.start, e, born, h.start);
      ConsChain(NewProxy(s, h.start, born), Cover(t, h.start, e, born), lo);
    } else if e < h.end {
      var rest := [Rear(h, e, born)] + tail;
      ConsChain(Rear(h, e, born), tail, e);
      ConsChain(Bump(Front(h, e, born)), rest, lo);
      assert Cover(t, s, e, born) == [Bump(Front(h, e, born))] + rest;
    } else {
      CoverChain(tail, h.end, e, born, h.end);
      ConsChain(Bump(Proxify(h, born)), Cover(tail, h.end, e, born), lo);
    }
  }

  /** `add_reader` keeps the tree ordered and disjoint. */
  lemma CoverOrdered(t: Tree, s: int, e: int, born: nat)
    requires Ordered(t)
    ensures Ordered(Cover(t, s, e, born))
  {
    var lo := if t != [] && t[0].start < s then t[0].start else s;
    OrderedChain(t, lo);
    CoverChain(t, s, e, born, lo);
    ChainOrdered(Cover(t, s, e, born), lo);
  }

  function In(s: int, x: int, e: int): int { if s <= x < e then 1 else 0 }

  ghost predicate Counted(t: Tree) { forall r | r in t :: 1 <= r.refs && (!r.proxy ==> r.refs == 1) }

  lemma ConsLoad(r: Range, t: Tree, x: int)
    ensures Load([r] + t, x) == (if r.Covers(x) then r.refs else 0) + Load(t, x)
  {
    assert ([r] + t)[1..] == t;
  }

  /** A split moves no reference. */
  lemma SplitLoad(h: Range, cut: int, born: nat, t: Tree, x: int)
    requires h.Straddles(cut) && (!h.proxy ==> h.refs == 1)
    ensures Load([Front(h, cut, born)] + ([Rear(h, cut, born)] + t), x) == Load([h] + t, x)
  {
    hide Load;
    ConsLoad(h, t, x);
    ConsLoad(Rear(h, cut, born), t, x);
    ConsLoad(Front(h, cut, born), [Rear(h, cut, born)] + t, x);
  }

  /** The heart of `add_reader`: the count rises by exactly one on [s, e) and nowhere else. */
  lemma {:induction false} CoverLoad(t: Tree, s: int, e: int, born: nat, x: int)
    requires Counted(t)
    ensures Load(Cover(t, s, e, born), x) == Load(t, x) + In(s, x, e)
    decreases |t|, e - s, t != [] && t[0].Straddles(s)
  {
    if s >= e {
      return;
    } else if t == [] || e <= t[0].start {
      ConsLoad(NewProxy(s, e, born), t, x);
      return;
    }
    var h, tail := t[0], t[1..];
    assert t == [h] + tail;
    if h.end <= s {
      CoverLoad(tail, s, e, born, x);
      ConsLoad(h, Cover(tail, s, e, born), x);
    } else if h.start < s {
      var rest := [Rear(h, s, born)] + tail;
      CoverLoad(rest, s, e, born, x);
      SplitLoad(h, s, born, tail, x);
      ConsLoad(Front(h, s, born), rest, x);
      ConsLoad(Front(h, s, born), Cover(rest, s, e, born), x);
    } else if s < h.start {
      CoverLoad(t, h.start, e, born, x);
      ConsLoad(NewProxy(s, h.start, born), Cover(t, h.start, e, born), x);
    } else if e < h.end {
      CoverSplitLoad(t, s, e, born, x);
    } else {
      CoverLoad(tail, h.end, e, born, x);
      ConsLoad(Bump(Proxify(h, born)), Cover(tail, h.end, e, born), x);
    }
  }

  lemma CoverSplitLoad(t: Tree, s: int, e: int, born: nat, x: int)
    requires Counted(t) && t != [] && s == t[0].start < e < t[0].end
    ensures Load(Cover(t, s, e, born), x) == Load(t, x) + In(s, x, e)
  {
    var h, tail := t[0], t[1..];
    var rest := [Rear(h, e, born)] + tail;
    assert t == [h] + tail;
    assert Cover(t, s, e, born) == [Bump(Front(h, e, born))] + rest;
    hide *;
    SplitLoad(h, e, born, tail, x);
    ConsLoad(Front(h, e, born), rest, x);
    ConsLoad(Bump(Front(h, e, born)), rest, x);
  }

  ghost predicate NoStraddle(t: Tree, y: int) { forall r | r in t :: !r.Straddles(y) }

  ghost predicate HasStart(t: Tree, y: int) { exists r :: r in t && r.start == y }
  ghost predicate HasEnd(t: Tree, y: int) { exists r :: r in t && r.end == y }

  lemma EdgesNotStraddled(t: Tree, y: int)
    requires Ordered(t) && (HasStart(t, y) || HasEnd(t, y))
    ensures NoStraddle(t, y)
  {
  }

  /** The ends of the new lock become range boundaries, and no boundary is lost. */
  lemma {:induction false} CoverEdges(t: Tree, s: int, e: int, born: nat, y: int)
    ensures (s < e && y == s) || HasStart(t, y) ==> HasStart(Cover(t, s, e, born), y)
    ensures (s < e && y == e) || HasEnd(t, y) ==> HasEnd(Cover(t, s, e, born), y)
    decreases |t|, e - s, t != [] && t[0].Straddles(s)
  {
    if s >= e {
      return;
    }
    var c := Cover(t, s, e, born);
    if t == [] || e <= t[0].start {
      assert c[0] in c && c[0].start == s && c[0].end == e;
      return;
    }
    var h, tail := t[0], t[1..];
    assert c[0] in c;
    if h.end <= s {
      CoverEdges(tail, s, e, born, y);
    } else if h.start < s {
      var rest := [Rear(h, s, born)] + tail;
      assert rest[0] in rest;
      CoverEdges(rest, s, e, born, y);
    } else if s < h.start {
      CoverEdges(t, h.start, e, born, y);
    } else if e < h.end {
      assert c[1] in c;
    } else {
      CoverEdges(tail, h.end, e, born, y);
    }
  }

  /** A read-wanted range is one that keeps readers out. */
  ghost predicate FlagsOk(t: Tree) {
    forall r | r in t :: (r.readWanted ==> r.Blocks()) && (r.proxy ==> r.kind == Reader)
  }

  /** What `add_reader` leaves on [s, e): an unwanted proxy that is new or was a proxy before. */
  ghost predicate Piece(q: Range, t: Tree, born: nat) {
    && q.proxy && q.kind == Reader && !q.readWanted && !q.writeWanted && q.refs >= 1
    && (q.born == born || exists p :: p in t && p.proxy && p.start == q.start && p.born == q.born)
  }

  lemma {:induction false} CoverMember(t: Tree, s: int, e: int, born: nat, q: Range)
    requires Counted(t) && FlagsOk(t) && Joinable(t, s, e)
    requires q in Cover(t, s, e, born)
    ensures q in t || Piece(q, t, born)
    decreases |t|, e - s, t != [] && t[0].Straddles(s)
  {
    if s >= e {
      return;
    } else if t == [] || e <= t[0].start {
      return;
    }
    var h, tail := t[0], t[1..];
    assert h in t && Counted(tail) && FlagsOk(tail);
    if h.end <= s {
      if q != h { CoverMember(tail, s, e, born, q); }
    } else if h.start < s {
      var rest := [Rear(h, s, born)] + tail;
      if q != Front(h, s, born) { CoverMember(rest, s, e, born, q); }
    } else if s < h.start {
      if q != NewProxy(s, h.start, born) { CoverMember(t, h.start, e, born, q); }
    } else if e < h.end {
    } else {
      if q != Bump(Proxify(h, born)) { CoverMember(tail, h.end, e, born, q); }
    }
  }

  /** Ranges outside [s, e) are not touched. */
  lemma {:induction false} CoverKeeps(t: Tree, s: int, e: int, born: nat, r: Range)
    requires r in t && !r.Overlaps(s, e)
    ensures r in Cover(t, s, e, born)
    decreases |t|, e - s, t != [] && t[0].Straddles(s)
  {
    if s >= e {
      return;
    } else if t == [] || e <= t[0].start {
      return;
    }
    var h, tail := t[0], t[1..];
    if h.end <= s {
      if r != h { CoverKeeps(tail, s, e, born, r); }
    } else if h.start < s {
      CoverKeeps([Rear(h, s, born)] + tail, s, e, born, r);
    } else if s < h.start {
      CoverKeeps(t, h.start, e, born, r);
    } else if e < h.end {
    } else {
      CoverKeeps(tail, h.end, e, born, r);
    }
  }

  // ---------------------------------------------------------------------------------------------
  // Facts about Release

  ghost predicate Inside(r: Range, s: int, e: int) { s <= r.start && r.end <= e }

  /** Whatever is in the tree after a release was there before, perhaps with one reference more. */
  lemma {:induction false} ReleaseMembers(t: Tree, s: int, e: int)
    requires Counted(t)
    ensures forall q | q in Release(t, s, e) ::
      (q in t && !Inside(q, s, e)) || (Inside(q, s, e) && q.refs >= 1 && q.proxy && Bump(q) in t)
  {
    if t != [] {
      ReleaseMembers(t[1..], s, e);
    }
  }

  lemma {:induction false} ReleaseKeeps(t: Tree, s: int, e: int, r: Range)
    requires r in t
    ensures !Inside(r, s, e) ==> r in Release(t, s, e)
    ensures Inside(r, s, e) && r.refs != 1 ==> r.(refs := r.refs - 1) in Release(t, s, e)
  {
    if r != t[0] {
      ReleaseKeeps(t[1..], s, e, r);
    }
  }

  lemma {:induction false} ReleaseChain(t: Tree, s: int, e: int, lo: int)
    requires Chain(t, lo)
    ensures Chain(Release(t, s, e), lo)
  {
    if t != [] {
      var h, rest := t[0], Release(t[1..], s, e);
      ReleaseChain(t[1..], s, e, if Inside(h, s, e) && h.refs == 1 then lo else h.end);
      if Inside(h, s, e) && h.refs == 1 {
        assert Release(t, s, e) == rest;
      } else if Inside(h, s, e) {
        ConsChain(h.(refs := h.refs - 1), rest, lo);
      } else {
        ConsChain(h, rest, lo);
      }
    }
  }

  lemma ReleaseOrdered(t: Tree, s: int, e: int)
    requires Ordered(t)
    ensures Ordered(Release(t, s, e))
  {
    var lo := if t != [] then t[0].start else 0;
    OrderedChain(t, lo);
    ReleaseChain(t, s, e, lo);
    ChainOrdered(Release(t, s, e), lo);
  }

  /** Releasing an aligned lock lowers the count by one on its covered offsets only. */
  lemma {:induction false} ReleaseLoad(t: Tree, s: int, e: int, x: int)
    requires Ordered(t) && Counted(t) && NoStraddle(t, s) && NoStraddle(t, e)
    ensures Load(t, x) >= 0
    ensures Load(Release(t, s, e), x) == Load(t, x) - (if Load(t, x) > 0 then In(s, x, e) else 0)
  {
    if t != [] {
      var h, rest := t[0], Release(t[1..], s, e);
      TailOrdered(t);
      ReleaseLoad(t[1..], s, e, x);
      if h.Covers(x) { LoadOutside(t[1..], x); }
      assert h in t && (h.Covers(x) ==> (Inside(h, s, e) <==> s <= x < e));
      if !Inside(h, s, e) {
        ConsLoad(h, rest, x);
      } else if h.refs == 1 {
        assert Release(t, s, e) == rest;
      } else {
        ConsLoad(h.(refs := h.refs - 1), rest, x);
      }
    }
  }

  // ---------------------------------------------------------------------------------------------
  // Insertion and removal of one range

  lemma RankSplits(t: Tree, x: int)
    requires Ordered(t)
    ensures forall i | 0 <= i < |t| :: i < Rank(t, x) <==> t[i].start < x
  {
  }

  lemma InsertLoad(t: Tree, n: nat, r: Range, x: int)
    requires n <= |t|
    ensures Load(t[..n] + [r] + t[n..], x) == Load(t, x) + (if r.Covers(x) then r.refs else 0)
  {
    LoadConcat(t[..n] + [r], t[n..], x);
    LoadConcat(t[..n], [r], x);
    LoadConcat(t[..n], t[n..], x);
    assert t[..n] + t[n..] == t;
  }

  lemma InsertMembers(t: Tree, n: nat, r: Range, q: Range)
    requires n <= |t|
    ensures q in t[..n] + [r] + t[n..] <==> q == r || q in t
  {
    assert t == t[..n] + t[n..];
  }

  lemma InsertOrdered(t: Tree, r: Range)
    requires Ordered(t) && r.start < r.end && Free(t, r.start, r.end)
    ensures Ordered(Insert(t, r))
  {
    var n := Rank(t, r.start);
    RankSplits(t, r.start);
    forall i | 0 <= i < n ensures t[i].end <= r.start { assert t[i] in t; }
    forall i | n <= i < |t| ensures r.end <= t[i].start { assert t[i] in t; }
    ConcatOrdered(t[..n], [r]);
    ConcatOrdered(t[..n] + [r], t[n..]);
  }

  function RemoveAt(t: Tree, i: nat): Tree requires i < |t| { t[..i] + t[i + 1..] }

  lemma RemoveLoad(t: Tree, i: nat, x: int)
    requires i < |t|
    ensures Load(RemoveAt(t, i), x) == Load(t, x) - (if t[i].Covers(x) then t[i].refs else 0)
  {
    LoadConcat(t[..i], t[i + 1..], x);
    LoadConcat(t[..i], [t[i]], x);
    LoadConcat(t[..i] + [t[i]], t[i + 1..], x);
    assert t[..i] + [t[i]] + t[i + 1..] == t;
  }

  lemma RemoveOrdered(t: Tree, i: nat)
    requires Ordered(t) && i < |t|
    ensures Ordered(RemoveAt(t, i))
    ensures forall q :: q in RemoveAt(t, i) <==> q in t && q != t[i]
  {
    var u := RemoveAt(t, i);
    assert forall j | 0 <= j < |u| :: u[j] == t[if j < i then j else j + 1];
    forall q | q in t && q != t[i] ensures q in u {
      var j :| 0 <= j < |t| && t[j] == q;
      assert q == u[if j < i then j else j - 1];
    }
  }
}
