/**
  Every run of the range-lock protocol keeps the invariant; mutual exclusion, exact counting and
  the absence of lost wake-ups follow for every reachable state.
 */
module RangeLockSafety {
  import opened RangeTree
  import opened RangeLock

  // ---------------------------------------------------------------------------------------------
  // Counting locks

  lemma {:induction false} CountConcat(a: seq<Lock>, b: seq<Lock>, x: int)
    ensures Count(a + b, x) == Count(a, x) + Count(b, x)
  {
    if a == [] {
      assert a + b == b;
    } else {
      CountConcat(a[1..], b, x);
      assert (a + b)[1..] == a[1..] + b;
    }
  }

  function One(l: Lock, x: int): nat { if l.Covers(x) then 1 else 0 }

  function Without(held: seq<Lock>, k: nat): seq<Lock> requires k < |held| {
    held[..k] + held[k + 1..]
  }

  lemma CountWithout(held: seq<Lock>, k: nat, x: int)
    requires k < |held|
    ensures Count(held, x) == Count(Without(held, k), x) + One(held[k], x)
  {
    assert held == held[..k] + [held[k]] + held[k + 1..];
    CountConcat(held[..k] + [held[k]], held[k + 1..], x);
    CountConcat(held[..k], [held[k]], x);
    CountConcat(held[..k], held[k + 1..], x);
  }

  lemma CountHeld(held: seq<Lock>, l: Lock, x: int)
    requires l in held && l.Covers(x)
    ensures Count(held, x) >= 1
  {
    var k :| 0 <= k < |held| && held[k] == l;
    CountWithout(held, k, x);
  }

  lemma {:induction false} CountPositive(held: seq<Lock>, x: int) returns (l: Lock)
    requires Count(held, x) > 0
    ensures l in held && l.Covers(x)
  {
    if held[0].Covers(x) { l := held[0]; } else { l := CountPositive(held[1..], x); }
  }

  // ---------------------------------------------------------------------------------------------
  // Parking

  lemma {:induction false} SameLoad(t: Tree, u: Tree, x: int)
    requires |t| == |u|
    requires forall i | 0 <= i < |t| :: t[i].start == u[i].start && t[i].end == u[i].end && t[i].refs == u[i].refs
    ensures Load(t, x) == Load(u, x)
  {
    if t != [] { SameLoad(t[1..], u[1..], x); }
  }

  /** `r` and `q` are the same descriptor, apart from the wanted flags, which only rise. */
  predicate Raised(r: Range, q: Range) {
    && q == r.(readWanted := q.readWanted, writeWanted := q.writeWanted)
    && (r.readWanted ==> q.readWanted) && (r.writeWanted ==> q.writeWanted)
  }

  ghost predicate AllRaised(t: Tree, u: Tree) {
    |t| == |u| && forall i | 0 <= i < |t| :: Raised(t[i], u[i])
  }

  lemma RaisedUp(t: Tree, u: Tree, r: Range) returns (q: Range)
    requires AllRaised(t, u) && r in t
    ensures q in u && Raised(r, q)
  {
    var i :| 0 <= i < |t| && t[i] == r;
    q := u[i];
  }

  lemma RaisedDown(t: Tree, u: Tree, q: Range) returns (r: Range)
    requires AllRaised(t, u) && q in u
    ensures r in t && Raised(r, q)
  {
    var i :| 0 <= i < |u| && u[i] == q;
    r := t[i];
  }

  lemma RaisedTree(t: Tree, u: Tree)
    requires AllRaised(t, u) && Ordered(t) && Counted(t)
    ensures Ordered(u) && Counted(u)
  {
    forall q | q in u ensures 1 <= q.refs && (!q.proxy ==> q.refs == 1) {
      var r := RaisedDown(t, u, q);
    }
  }

  lemma RaisedBounded(t: Tree, u: Tree, held: seq<Lock>)
    requires AllRaised(t, u) && Bounded(t, held)
    ensures Bounded(u, held)
  {
    forall l | l in held ensures HasStart(u, l.start) && HasEnd(u, l.end) {
      var r :| r in t && r.start == l.start;
      var r' :| r' in t && r'.end == l.end;
      var q := RaisedUp(t, u, r);
      var q' := RaisedUp(t, u, r');
    }
  }

  lemma RaisedOwned(t: Tree, u: Tree, held: seq<Lock>)
    requires AllRaised(t, u) && Owned(t, held)
    ensures Owned(u, held)
  {
    forall q | q in u && !q.proxy ensures exists l | l in held :: l.Owns(q) {
      var r := RaisedDown(t, u, q);
      var l :| l in held && l.Owns(r);
    }
  }

  lemma RaisedHandle(t: Tree, u: Tree, l: Lock, calls: nat)
    requires AllRaised(t, u) && HandleOk(t, l, calls)
    ensures HandleOk(u, l, calls)
  {
    if l.kind == Writer {
      var r :| r in t && l.Owns(r);
      var q := RaisedUp(t, u, r);
    }
    forall q | q in u && l.Names(q) ensures l.Owns(q) {
      var r := RaisedDown(t, u, q);
    }
  }

  lemma RaisedSleeps(t: Tree, u: Tree, place: Place, req: Request)
    requires AllRaised(t, u)
    requires exists r | r in t :: SleepsOn(r, place, req)
    ensures exists q | q in u :: SleepsOn(q, place, req)
  {
    var r :| r in t && SleepsOn(r, place, req);
    var q := RaisedUp(t, u, r);
  }

  lemma WantRaises(t: Tree, i: nat, kind: Kind)
    requires i < |t| && FlagsOk(t) && (kind == Reader ==> t[i].Blocks())
    ensures AllRaised(t, t[i := Want(t[i], kind)]) && FlagsOk(t[i := Want(t[i], kind)])
  {
    var u := t[i := Want(t[i], kind)];
    forall q | q in u ensures (q.readWanted ==> q.Blocks()) && (q.proxy ==> q.kind == Reader) {
      var j :| 0 <= j < |u| && u[j] == q;
      assert t[j] in t;
    }
  }

  lemma ParkParked(st: State, th: nat, req: Request, i: nat)
    requires ParkedOk(st) && i < |st.tree|
    requires st.tree[i].Overlaps(req.start, req.end) && (req.kind == Reader ==> st.tree[i].Blocks())
    requires AllRaised(st.tree, Park(st, th, req, i).tree)
    ensures ParkedOk(Park(st, th, req, i))
  {
    var st' := Park(st, th, req, i);
    forall h | h in st'.parked
      ensures h in st'.pending && exists r | r in st'.tree :: SleepsOn(r, st'.parked[h], st'.pending[h])
    {
      if h == th {
        assert st'.tree[i] in st'.tree && SleepsOn(st'.tree[i], st'.parked[th], req);
      } else {
        RaisedSleeps(st.tree, st'.tree, st.parked[h], st.pending[h]);
      }
    }
  }

  lemma ParkInv(st: State, th: nat, req: Request, i: nat)
    requires Inv(st) && req.start < req.end && i < |st.tree|
    requires st.tree[i].Overlaps(req.start, req.end) && (req.kind == Reader ==> st.tree[i].Blocks())
    ensures Inv(Park(st, th, req, i))
  {
    var t, u := st.tree, Park(st, th, req, i).tree;
    WantRaises(t, i, req.kind);
    RaisedTree(t, u);
    RaisedBounded(t, u, st.held);
    RaisedOwned(t, u, st.held);
    ParkParked(st, th, req, i);
    forall x ensures Load(u, x) == Count(st.held, x) { SameLoad(t, u, x); }
    forall l | l in st.held ensures HandleOk(u, l, st.calls) { RaisedHandle(t, u, l, st.calls); }
  }

  // ---------------------------------------------------------------------------------------------
  // Granting

  /** `u` holds nothing but old ranges, pieces and the original range `o` of the new lock, and
      every range that somebody may sleep on or write to is still there. */
  ghost predicate Grown(t: Tree, u: Tree, born: nat, o: Range) {
    && (forall q | q in u :: q in t || Piece(q, t, born) || q == o)
    && (forall r | r in t && r.Blocks() :: r in u)
  }

  lemma GrownFlags(t: Tree, u: Tree, born: nat, o: Range)
    requires Grown(t, u, born, o) && Counted(t) && FlagsOk(t)
    requires o.refs == 1 && !o.proxy && !o.readWanted
    ensures Counted(u) && FlagsOk(u)
  {
  }

  lemma GrownHandle(t: Tree, u: Tree, born: nat, o: Range, l: Lock)
    requires Grown(t, u, born, o) && o.born == born && HandleOk(t, l, born)
    ensures HandleOk(u, l, born + 1)
  {
    if l.kind == Writer {
      var r :| r in t && l.Owns(r);
      assert r in u;
    }
    forall q | q in u && l.Names(q) ensures l.Owns(q) {
    }
  }

  lemma GrownSleeps(t: Tree, u: Tree, born: nat, o: Range, place: Place, req: Request)
    requires Grown(t, u, born, o) && FlagsOk(t)
    requires exists r | r in t :: SleepsOn(r, place, req)
    ensures exists r | r in u :: SleepsOn(r, place, req)
  {
    var r :| r in t && SleepsOn(r, place, req);
    assert r in u;
  }

  /** The state after lock `l` was granted to thread `th`. */
  function Granted(st: State, th: nat, u: Tree, l: Lock): State {
    State(u, st.held + [l], st.calls + 1, st.pending - {th}, st.parked - {th})
  }

  lemma GrownHandles(st: State, th: nat, u: Tree, o: Range, l: Lock)
    requires HandlesOk(st) && Grown(st.tree, u, st.calls, o) && o.born == st.calls
    requires HandleOk(u, l, st.calls + 1)
    ensures HandlesOk(Granted(st, th, u, l))
  {
    forall k | k in st.held ensures HandleOk(u, k, st.calls + 1) {
      assert HandleOk(st.tree, k, st.calls);
      GrownHandle(st.tree, u, st.calls, o, k);
    }
  }

  lemma GrownParked(st: State, th: nat, u: Tree, o: Range, l: Lock)
    requires ParkedOk(st) && FlagsOk(st.tree) && Grown(st.tree, u, st.calls, o)
    ensures ParkedOk(Granted(st, th, u, l))
  {
    forall h | h in st.parked ensures exists r | r in u :: SleepsOn(r, st.parked[h], st.pending[h]) {
      GrownSleeps(st.tree, u, st.calls, o, st.parked[h], st.pending[h]);
    }
  }

  lemma GrownInv(st: State, th: nat, u: Tree, o: Range, l: Lock)
    requires Inv(st) && Grown(st.tree, u, st.calls, o)
    requires o.refs == 1 && !o.proxy && !o.readWanted && o.born == st.calls
    requires Ordered(u) && Owned(u, st.held + [l]) && HandleOk(u, l, st.calls + 1)
    requires Accounted(u, st.held + [l]) && Bounded(u, st.held + [l])
    ensures Inv(Granted(st, th, u, l))
  {
    hide Ordered, Counted, FlagsOk, Accounted, Bounded, Owned, HandlesOk, ParkedOk, HandleOk, Grown;
    GrownFlags(st.tree, u, st.calls, o);
    GrownHandles(st, th, u, o, l);
    GrownParked(st, th, u, o, l);
  }

  lemma InsertGrows(t: Tree, o: Range)
    ensures forall q :: q in Insert(t, o) <==> q == o || q in t
    ensures Grown(t, Insert(t, o), o.born, o)
  {
    forall q ensures q in Insert(t, o) <==> q == o || q in t {
      InsertMembers(t, Rank(t, o.start), o, q);
    }
  }

  lemma InsertAccounted(t: Tree, held: seq<Lock>, o: Range, l: Lock)
    requires Accounted(t, held) && l.Owns(o) && o.refs == 1
    ensures Accounted(Insert(t, o), held + [l])
  {
    forall x ensures Load(Insert(t, o), x) == Count(held + [l], x) {
      InsertLoad(t, Rank(t, o.start), o, x);
      CountConcat(held, [l], x);
    }
  }

  lemma InsertBounded(t: Tree, held: seq<Lock>, o: Range, l: Lock)
    requires Bounded(t, held) && l.Owns(o)
    ensures Bounded(Insert(t, o), held + [l])
  {
    InsertGrows(t, o);
    assert o in Insert(t, o);
    forall k | k in held + [l] ensures HasStart(Insert(t, o), k.start) && HasEnd(Insert(t, o), k.end) {
      if k != l { assert HasStart(t, k.start) && HasEnd(t, k.end); }
    }
  }

  lemma InsertOwned(t: Tree, held: seq<Lock>, o: Range, l: Lock)
    requires Owned(t, held) && l.Owns(o)
    ensures Owned(Insert(t, o), held + [l])
  {
    InsertGrows(t, o);
    assert l in held + [l];
    forall q | q in Insert(t, o) && !q.proxy ensures exists k | k in held + [l] :: k.Owns(q) {
      if q != o {
        var k :| k in held && k.Owns(q);
        assert k in held + [l];
      }
    }
  }

  lemma InsertHandle(t: Tree, o: Range, l: Lock)
    requires Ordered(t) && o.start < o.end && Free(t, o.start, o.end) && l.Owns(o)
    ensures HandleOk(Insert(t, o), l, o.born + 1)
  {
    InsertGrows(t, o);
    assert o in Insert(t, o);
    forall q | q in t ensures !l.Names(q) { assert q.start < q.end; }
  }

  /** No overlap: the range itself goes into the tree. */
  lemma GrantFree(st: State, th: nat, req: Request)
    requires Inv(st) && req.start < req.end && Free(st.tree, req.start, req.end)
    ensures Inv(Grant(st, th, req))
  {
    var t, o := st.tree, Original(req, st.calls);
    var u, l := Insert(t, o), Lock(req.start, req.end, req.kind, Descriptor(st.calls));
    InsertOrdered(t, o);
    assert Grown(t, u, st.calls, o) by { InsertGrows(t, o); }
    InsertAccounted(t, st.held, o, l);
    InsertBounded(t, st.held, o, l);
    InsertOwned(t, st.held, o, l);
    InsertHandle(t, o, l);
    GrownInv(st, th, u, o, l);
  }

  lemma CoverGrows(t: Tree, s: int, e: int, born: nat, o: Range)
    requires TreeOk(t) && Joinable(t, s, e)
    ensures Grown(t, Cover(t, s, e, born), born, o)
  {
    forall q | q in Cover(t, s, e, born) ensures q in t || Piece(q, t, born) {
      CoverMember(t, s, e, born, q);
    }
    forall r | r in t && r.Blocks() ensures r in Cover(t, s, e, born) {
      CoverKeeps(t, s, e, born, r);
    }
  }

  lemma CoverAccounted(t: Tree, held: seq<Lock>, l: Lock, born: nat)
    requires Accounted(t, held) && Counted(t)
    ensures Accounted(Cover(t, l.start, l.end, born), held + [l])
  {
    forall x ensures Load(Cover(t, l.start, l.end, born), x) == Count(held + [l], x) {
      CoverLoad(t, l.start, l.end, born, x);
      CountConcat(held, [l], x);
    }
  }

  lemma CoverBounded(t: Tree, held: seq<Lock>, l: Lock, born: nat)
    requires Bounded(t, held) && l.start < l.end
    ensures Bounded(Cover(t, l.start, l.end, born), held + [l])
  {
    forall k | k in held + [l]
      ensures HasStart(Cover(t, l.start, l.end, born), k.start)
      ensures HasEnd(Cover(t, l.start, l.end, born), k.end)
    {
      CoverEdges(t, l.start, l.end, born, k.start);
      CoverEdges(t, l.start, l.end, born, k.end);
    }
  }

  lemma CoverOwned(t: Tree, held: seq<Lock>, l: Lock, born: nat)
    requires TreeOk(t) && Joinable(t, l.start, l.end) && Owned(t, held)
    ensures Owned(Cover(t, l.start, l.end, born), held + [l])
  {
    var u := Cover(t, l.start, l.end, born);
    forall q | q in u && !q.proxy ensures exists k | k in held + [l] :: k.Owns(q) {
      CoverMember(t, l.start, l.end, born, q);
      var k :| k in held && k.Owns(q);
      assert k in held + [l];
    }
  }

  /** An overlap among readers: proxies carry the new reference. */
  lemma GrantShared(st: State, th: nat, req: Request)
    requires Inv(st) && req.start < req.end && req.kind == Reader
    requires Joinable(st.tree, req.start, req.end) && !Free(st.tree, req.start, req.end)
    ensures Inv(Grant(st, th, req))
  {
    var t, born := st.tree, st.calls;
    var u, l := Cover(t, req.start, req.end, born), Lock(req.start, req.end, Reader, Null);
    CoverOrdered(t, l.start, l.end, born);
    CoverGrows(t, l.start, l.end, born, Original(req, born));
    CoverAccounted(t, st.held, l, born);
    CoverBounded(t, st.held, l, born);
    CoverOwned(t, st.held, l, born);
    GrownInv(st, th, u, Original(req, born), l);
  }

  lemma AttemptInv(st: State, th: nat, req: Request, retried: bool)
    requires Inv(st) && req.start < req.end && Attempt(st, th, req, retried).Next?
    ensures Inv(Attempt(st, th, req, retried).state)
  {
    var i := Target(st.tree, req);
    WriterTargetIsFullScan(st.tree, req.start, req.end);
    FirstBlockerIsFullScan(st.tree, req.start, req.end);
    if i < |st.tree| {
      ParkInv(st, th, req, i);
    } else if Free(st.tree, req.start, req.end) {
      GrantFree(st, th, req);
    } else {
      GrantShared(st, th, req);
    }
  }

  // ---------------------------------------------------------------------------------------------
  // Releasing

  /** `u` holds nothing but ranges of `t`, some proxies with one reference less. */
  ghost predicate Shrunk(t: Tree, u: Tree) {
    forall q | q in u :: q in t || (q.proxy && q.refs >= 1 && Bump(q) in t)
  }

  ghost predicate Survives(u: Tree, r: Range) { r in u || r.(refs := r.refs - 1) in u }

  function Shorter(t: Tree, l: Lock): Tree {
    if Live(t, l) then RemoveAt(t, Rank(t, l.start)) else Release(t, l.start, l.end)
  }

  lemma LiveOwns(t: Tree, l: Lock, calls: nat)
    requires HandleOk(t, l, calls) && Live(t, l)
    ensures l.Owns(t[Rank(t, l.start)])
  {
    assert t[Rank(t, l.start)] in t;
  }

  lemma NamesLive(t: Tree, l: Lock, r: Range)
    requires Ordered(t) && r in t && l.Names(r)
    ensures Live(t, l) && t[Rank(t, l.start)] == r
  {
    RankSplits(t, l.start);
    hide Rank;
    var n := Rank(t, l.start);
    var i :| 0 <= i < |t| && t[i] == r;
    assert forall k | 0 <= k < i :: t[k].start < t[k].end <= t[i].start;
    assert n == i;
  }

  lemma {:induction false} DroppedMember(t: Tree, s: int, e: int, r: Range)
    requires r in t && Inside(r, s, e) && r.refs == 1
    ensures r in Dropped(t, s, e)
  {
    if r != t[0] { DroppedMember(t[1..], s, e, r); }
  }

  lemma ShorterTree(t: Tree, l: Lock)
    requires TreeOk(t)
    ensures TreeOk(Shorter(t, l)) && Shrunk(t, Shorter(t, l))
  {
    var u := Shorter(t, l);
    if Live(t, l) {
      RemoveOrdered(t, Rank(t, l.start));
    } else {
      ReleaseOrdered(t, l.start, l.end);
      ReleaseMembers(t, l.start, l.end);
    }
    assert Shrunk(t, u);
    forall q | q in u ensures (q.readWanted ==> q.Blocks()) && (q.proxy ==> q.kind == Reader) {
      assert q in t || Bump(q) in t;
    }
  }

  /** A range that does not survive is one of those whose waiters are notified. */
  lemma SurvivesOrRemoved(t: Tree, l: Lock, r: Range)
    requires Ordered(t) && r in t
    ensures Survives(Shorter(t, l), r) || r in Removed(t, l)
  {
    if Live(t, l) {
      RemoveOrdered(t, Rank(t, l.start));
    } else {
      ReleaseKeeps(t, l.start, l.end, r);
      if Inside(r, l.start, l.end) && r.refs == 1 { DroppedMember(t, l.start, l.end, r); }
    }
  }

  /** Every removed range lies within the released lock and had one reference. */
  lemma RemovedInside(t: Tree, l: Lock, calls: nat, r: Range)
    requires TreeOk(t) && HandleOk(t, l, calls) && r in Removed(t, l)
    ensures Inside(r, l.start, l.end) && r.refs == 1 && r in t
  {
    if Live(t, l) {
      LiveOwns(t, l, calls);
      assert t[Rank(t, l.start)] in t;
    } else {
      DroppedInside(t, l.start, l.end, r);
    }
  }

  lemma {:induction false} DroppedInside(t: Tree, s: int, e: int, r: Range)
    requires r in Dropped(t, s, e)
    ensures r in t && Inside(r, s, e) && r.refs == 1
  {
    if !(r == t[0] && Inside(t[0], s, e) && t[0].refs == 1) {
      assert r in Dropped(t[1..], s, e);
      DroppedInside(t[1..], s, e, r);
    }
  }

  /** A range on which a second lock lies survives the release of the first. */
  lemma SharedSurvives(st: State, k: nat, l: Lock, r: Range, x: int)
    requires Inv(st) && k < |st.held| && l in Without(st.held, k)
    requires r in st.tree && r.Covers(x) && l.Covers(x)
    ensures Survives(Shorter(st.tree, st.held[k]), r)
  {
    hide Shorter, Removed, Bounded, Owned, ParkedOk, FlagsOk;
    var t, o := st.tree, st.held[k];
    SurvivesOrRemoved(t, o, r);
    if !Survives(Shorter(t, o), r) {
      RemovedInside(t, o, st.calls, r);
      var i :| 0 <= i < |t| && t[i] == r;
      LoadAt(t, i, x);
      CountWithout(st.held, k, x);
      CountHeld(Without(st.held, k), l, x);
      assert false;
    }
  }

  lemma ShorterBounded(st: State, k: nat)
    requires Inv(st) && k < |st.held|
    ensures Bounded(Shorter(st.tree, st.held[k]), Without(st.held, k))
  {
    var t, u := st.tree, Shorter(st.tree, st.held[k]);
    forall l | l in Without(st.held, k) ensures HasStart(u, l.start) && HasEnd(u, l.end) {
      assert l in st.held && HandleOk(t, l, st.calls);
      var r :| r in t && r.start == l.start;
      var r' :| r' in t && r'.end == l.end;
      SharedSurvives(st, k, l, r, l.start);
      SharedSurvives(st, k, l, r', l.end - 1);
    }
  }

  lemma ShorterAccounted(st: State, k: nat)
    requires Inv(st) && k < |st.held|
    ensures Accounted(Shorter(st.tree, st.held[k]), Without(st.held, k))
  {
    var t, l := st.tree, st.held[k];
    assert l in st.held && HandleOk(t, l, st.calls);
    EdgesNotStraddled(t, l.start);
    EdgesNotStraddled(t, l.end);
    hide HandlesOk, Owned, ParkedOk, Bounded;
    forall x ensures Load(Shorter(t, l), x) == Count(Without(st.held, k), x) {
      CountWithout(st.held, k, x);
      assert Load(t, x) == Count(st.held, x);
      if Live(t, l) {
        LiveOwns(t, l, st.calls);
        assert t[Rank(t, l.start)] in t;
        RemoveLoad(t, Rank(t, l.start), x);
      } else {
        ReleaseLoad(t, l.start, l.end, x);
      }
    }
  }

  lemma ShorterOwned(st: State, k: nat)
    requires Inv(st) && k < |st.held|
    ensures Owned(Shorter(st.tree, st.held[k]), Without(st.held, k))
  {
    var t, o := st.tree, st.held[k];
    ShorterTree(t, o);
    forall q | q in Shorter(t, o) && !q.proxy ensures exists l | l in Without(st.held, k) :: l.Owns(q) {
      var l :| l in st.held && l.Owns(q);
      if l == o {
        NamesLive(t, o, q);
        RemoveOrdered(t, Rank(t, o.start));
      }
      assert l in Without(st.held, k);
    }
  }

  lemma ShorterHandle(st: State, k: nat, l: Lock)
    requires Inv(st) && k < |st.held| && l in Without(st.held, k)
    ensures HandleOk(Shorter(st.tree, st.held[k]), l, st.calls)
  {
    hide Bounded, Owned, ParkedOk, Accounted;
    var t, u := st.tree, Shorter(st.tree, st.held[k]);
    assert l in st.held && HandleOk(t, l, st.calls);
    ShorterTree(t, st.held[k]);
    if l.kind == Writer {
      var r :| r in t && l.Owns(r);
      SharedSurvives(st, k, l, r, l.start);
    }
    forall q | q in u && l.Names(q) ensures l.Owns(q) {
      assert q in t || (q.proxy && l.Names(Bump(q)));
    }
  }

  /** Nobody sleeps on: a sleeper not notified still has its range in the tree, flag set. */
  lemma ShorterSleeps(t: Tree, o: Lock, place: Place, req: Request)
    requires Ordered(t) && !Notified(Removed(t, o), place, req.kind)
    requires exists r | r in t :: SleepsOn(r, place, req)
    ensures exists r | r in Shorter(t, o) :: SleepsOn(r, place, req)
  {
    var r :| r in t && SleepsOn(r, place, req);
    SurvivesOrRemoved(t, o, r);
    if r !in Shorter(t, o) {
      var q := r.(refs := r.refs - 1);
      assert q in Shorter(t, o) && SleepsOn(q, place, req);
    }
  }

  lemma ShorterParked(st: State, k: nat)
    requires Ordered(st.tree) && ParkedOk(st) && k < |st.held|
    ensures ParkedOk(Unlock(st, k))
  {
    var st' := Unlock(st, k);
    forall th | th in st'.parked
      ensures exists r | r in st'.tree :: SleepsOn(r, st.parked[th], st.pending[th])
    {
      ShorterSleeps(st.tree, st.held[k], st.parked[th], st.pending[th]);
    }
  }

  lemma UnlockInv(st: State, k: nat)
    requires Inv(st) && k < |st.held|
    ensures Inv(Unlock(st, k))
  {
    ShorterTree(st.tree, st.held[k]);
    ShorterAccounted(st, k);
    ShorterBounded(st, k);
    ShorterOwned(st, k);
    ShorterParked(st, k);
    forall l | l in Without(st.held, k) ensures HandleOk(Shorter(st.tree, st.held[k]), l, st.calls) {
      ShorterHandle(st, k, l);
    }
  }

  // ---------------------------------------------------------------------------------------------
  // Runs

  lemma StepInv(st: State, ev: Event)
    requires Inv(st) && Enabled(st, ev) && Step(st, ev).Next?
    ensures Inv(Step(st, ev).state)
  {
    match ev
    case Ask(th, req) => AttemptInv(st, th, req, false);
    case Retry(th) => AttemptInv(st, th, st.pending[th], true);
    case Retest(th) => AttemptInv(st, th, st.pending[th], false);
    case Drop(k) => UnlockInv(st, k);
  }

  /** The invariant holds in every reachable state. */
  lemma {:induction false} RunInv(run: seq<Event>)
    requires After(run).Next?
    ensures Inv(After(run).state)
  {
    if run != [] {
      RunInv(run[..|run| - 1]);
      var st, ev := After(run[..|run| - 1]).state, run[|run| - 1];
      if Enabled(st, ev) { StepInv(st, ev); }
    }
  }

  /** Two locks on one offset make it count at least two. */
  lemma TwoCount(held: seq<Lock>, i: nat, j: nat, x: int)
    requires i < |held| && j < |held| && i != j && held[i].Covers(x) && held[j].Covers(x)
    ensures Count(held, x) >= 2
  {
    CountWithout(held, i, x);
    assert held[j] == Without(held, i)[if j < i then j else j - 1];
    CountHeld(Without(held, i), held[j], x);
  }

  /** An original range is covered by its owner alone. */
  lemma OriginalCountsOne(t: Tree, held: seq<Lock>, r: Range, x: int)
    requires Ordered(t) && Counted(t) && Accounted(t, held) && r in t && !r.proxy && r.Covers(x)
    ensures Count(held, x) == 1
  {
    var n :| 0 <= n < |t| && t[n] == r;
    LoadAt(t, n, x);
  }

  lemma WriterApart(st: State, i: nat, j: nat)
    requires Inv(st) && i < |st.held| && j < |st.held| && i != j && st.held[i].kind == Writer
    ensures !st.held[i].Overlaps(st.held[j].start, st.held[j].end)
  {
    var w, l := st.held[i], st.held[j];
    assert HandleOk(st.tree, w, st.calls) && HandleOk(st.tree, l, st.calls);
    if w.Overlaps(l.start, l.end) {
      var r :| r in st.tree && w.Owns(r);
      var x := if w.start < l.start then l.start else w.start;
      OriginalCountsOne(st.tree, st.held, r, x);
      TwoCount(st.held, i, j, x);
      assert false;
    }
  }

  /** In every reachable state a held writer lock overlaps no other held lock. */
  lemma WritersExclude(run: seq<Event>, i: nat, j: nat)
    requires After(run).Next?
    requires i < |After(run).state.held| && j < |After(run).state.held| && i != j
    requires After(run).state.held[i].kind == Writer
    ensures var held := After(run).state.held; !held[i].Overlaps(held[j].start, held[j].end)
  {
    RunInv(run);
    WriterApart(After(run).state, i, j);
  }

  /** In every reachable state `m_refs` of a range is the number of held locks on each of its
      offsets, and no range straddles an end of a held lock. */
  lemma RefsAreExact(run: seq<Event>, r: Range)
    requires After(run).Next? && r in After(run).state.tree
    ensures forall x | r.Covers(x) :: Count(After(run).state.held, x) == r.refs
    ensures forall l | l in After(run).state.held :: !r.Straddles(l.start) && !r.Straddles(l.end)
  {
    RunInv(run);
    var st := After(run).state;
    var i :| 0 <= i < |st.tree| && st.tree[i] == r;
    forall x | r.Covers(x) ensures Count(st.held, x) == r.refs { LoadAt(st.tree, i, x); }
    forall l | l in st.held ensures !r.Straddles(l.start) && !r.Straddles(l.end) {
      EdgesNotStraddled(st.tree, l.start);
      EdgesNotStraddled(st.tree, l.end);
    }
  }

  lemma SleeperBlocked(st: State, th: nat) returns (r: Range, l: Lock)
    requires Inv(st) && th in st.parked
    ensures th in st.pending && r in st.tree && SleepsOn(r, st.parked[th], st.pending[th])
    ensures l in st.held && l.start <= r.start && r.end <= l.end
  {
    r :| r in st.tree && SleepsOn(r, st.parked[th], st.pending[th]);
    var i :| 0 <= i < |st.tree| && st.tree[i] == r;
    LoadAt(st.tree, i, r.start);
    l := CountPositive(st.held, r.start);
    EdgesNotStraddled(st.tree, l.end);
  }

  /** No lost wake-up: in every reachable state a sleeping thread waits for a range in the tree
      that overlaps its request, has its flag set, and is covered by a lock that is still held. */
  lemma SleepersAreBlocked(run: seq<Event>, th: nat) returns (r: Range, l: Lock)
    requires After(run).Next? && th in After(run).state.parked
    ensures var st := After(run).state;
      && th in st.pending && r in st.tree && SleepsOn(r, st.parked[th], st.pending[th])
      && l in st.held && l.start <= r.start && r.end <= l.end
  {
    RunInv(run);
    r, l := SleeperBlocked(After(run).state, th);
  }

  /** Hence nobody sleeps when no lock is held. */
  lemma NoSleepersWithoutLocks(run: seq<Event>)
    requires After(run).Next? && After(run).state.held == []
    ensures After(run).state.parked == map[] && After(run).state.tree == []
  {
    var st := After(run).state;
    RunInv(run);
    if st.tree != [] {
      assert st.tree[0] in st.tree;
      LoadAt(st.tree, 0, st.tree[0].start);
      assert false;
    }
    forall th | th in st.parked ensures false {
      var r, l := SleepersAreBlocked(run, th);
    }
  }

  /** The tree and the held locks overlap the same requests. */
  lemma FreeMeansUnlocked(st: State, s: int, e: int)
    requires Inv(st) && s < e
    ensures Free(st.tree, s, e) <==> forall l | l in st.held :: !l.Overlaps(s, e)
  {
    if !Free(st.tree, s, e) {
      var r :| r in st.tree && r.Overlaps(s, e);
      var i :| 0 <= i < |st.tree| && st.tree[i] == r;
      var x := if r.start < s then s else r.start;
      LoadAt(st.tree, i, x);
      var l := CountPositive(st.held, x);
    }
    forall l | l in st.held && l.Overlaps(s, e) ensures !Free(st.tree, s, e) {
      assert HandleOk(st.tree, l, st.calls);
      var x := if l.start < s then s else l.start;
      CountHeld(st.held, l, x);
      var i := LoadCovered(st.tree, x);
      assert st.tree[i] in st.tree;
    }
  }

  /** A writer is granted its range exactly when no held lock overlaps it. */
  lemma WriterGrantedIff(run: seq<Event>, th: nat, req: Request, retried: bool)
    requires After(run).Next? && req.start < req.end && req.kind == Writer
    ensures var st := After(run).state;
      && Attempt(st, th, req, retried).Next?
      && (Attempt(st, th, req, retried).state.held
          == st.held + [Lock(req.start, req.end, Writer, Descriptor(st.calls))]
          <==> forall l | l in st.held :: !l.Overlaps(req.start, req.end))
  {
    RunInv(run);
    var st := After(run).state;
    FreeMeansUnlocked(st, req.start, req.end);
    WriterTargetIsFullScan(st.tree, req.start, req.end);
  }

  /** A reader is kept out by every held writer that overlaps its range. */
  lemma ReadersAvoidWriters(run: seq<Event>, th: nat, req: Request, l: Lock)
    requires After(run).Next? && req.kind == Reader && l in After(run).state.held
    requires l.kind == Writer && l.Overlaps(req.start, req.end)
    ensures Target(After(run).state.tree, req) < |After(run).state.tree|
  {
    RunInv(run);
    var st := After(run).state;
    assert HandleOk(st.tree, l, st.calls);
    var r :| r in st.tree && l.Owns(r);
    FirstBlockerIsFullScan(st.tree, req.start, req.end);
  }

  /** A reader is granted its range exactly when no held writer overlaps it and no range in its way is
      wanted by a writer. */
  lemma ReaderGrantedIff(run: seq<Event>, th: nat, req: Request, retried: bool)
    requires After(run).Next? && req.start < req.end && req.kind == Reader
    requires Attempt(After(run).state, th, req, retried).Next?
    ensures var st := After(run).state;
      |Attempt(st, th, req, retried).state.held| == |st.held| + 1
      <==> && (forall l | l in st.held && l.Overlaps(req.start, req.end) :: l.kind == Reader)
           && (forall r | r in st.tree && r.Overlaps(req.start, req.end) :: !r.writeWanted)
  {
    var st := After(run).state;
    var s, e := req.start, req.end;
    FirstBlockerIsFullScan(st.tree, s, e);
    if Joinable(st.tree, s, e) {
      forall l | l in st.held && l.Overlaps(s, e) ensures l.kind == Reader {
        if l.kind == Writer { ReadersAvoidWriters(run, th, req, l); }
      }
    } else {
      var r :| r in st.tree && r.Overlaps(s, e) && r.Blocks();
      RunInv(run);
      if r.kind == Writer { WriterHasOwner(st, r, s, e); }
    }
  }

  lemma WriterHasOwner(st: State, r: Range, s: int, e: int)
    requires Inv(st) && r in st.tree && r.kind == Writer && r.Overlaps(s, e)
    ensures exists l | l in st.held && l.Overlaps(s, e) :: l.kind == Writer
  {
    var l :| l in st.held && l.Owns(r);
  }

  /** No barging: a lock call leaves a wanted range as it is, except that flags may rise; in
      particular it is not split, not made a proxy and gets no new reader. */
  lemma WantedIsUntouched(run: seq<Event>, th: nat, req: Request, retried: bool, r: Range)
    requires After(run).Next? && req.start < req.end && r in After(run).state.tree
    requires r.readWanted || r.writeWanted
    requires Attempt(After(run).state, th, req, retried).Next?
    ensures exists q | q in Attempt(After(run).state, th, req, retried).state.tree :: Raised(r, q)
  {
    RunInv(run);
    var st := After(run).state;
    var t, i := st.tree, Target(st.tree, req);
    WriterTargetIsFullScan(t, req.start, req.end);
    FirstBlockerIsFullScan(t, req.start, req.end);
    if i < |t| {
      WantRaises(t, i, req.kind);
      var q := RaisedUp(t, t[i := Want(t[i], req.kind)], r);
    } else if Free(t, req.start, req.end) {
      InsertGrows(t, Original(req, st.calls));
      assert Raised(r, r);
    } else {
      CoverKeeps(t, req.start, req.end, st.calls, r);
      assert Raised(r, r);
    }
  }

  lemma SameStart(t: Tree, q: Range, r: Range)
    requires Ordered(t) && q in t && r in t && q.start == r.start
    ensures q == r
  {
    var i :| 0 <= i < |t| && t[i] == q;
    var j :| 0 <= j < |t| && t[j] == r;
  }

  lemma RemovedNotifies(t: Tree, l: Lock, place: Place, req: Request, r: Range)
    requires Ordered(t) && r in t && r.start == place.start && !Survives(Shorter(t, l), r)
    requires exists q | q in t :: SleepsOn(q, place, req)
    ensures Notified(Removed(t, l), place, req.kind)
  {
    var q :| q in t && SleepsOn(q, place, req);
    SameStart(t, q, r);
    hide Shorter, Removed;
    SurvivesOrRemoved(t, l, r);
  }

  /** Every removal notifies: whoever sleeps on a range that leaves the tree is awake afterwards. */
  lemma RemovalWakes(run: seq<Event>, k: nat, th: nat, r: Range)
    requires After(run).Next? && k < |After(run).state.held| && th in After(run).state.parked
    requires var st := After(run).state;
      && r in st.tree && r.start == st.parked[th].start && r.born == st.parked[th].born
      && !Survives(Unlock(st, k).tree, r)
    ensures var st' := Unlock(After(run).state, k); th in st'.pending && th !in st'.parked
  {
    hide Accounted, Bounded, Owned, HandlesOk, SleepsOn, Survives;
    RunInv(run);
    var st := After(run).state;
    RemovedNotifies(st.tree, st.held[k], st.parked[th], st.pending[th], r);
  }

  // ---------------------------------------------------------------------------------------------
  // The retry of a reader

  /** A retry is undefined exactly when a reader retries while no lock is held. */
  lemma RetryUndefinedIff(run: seq<Event>, th: nat)
    requires After(run).Next? && th in After(run).state.pending
    ensures Step(After(run).state, Retry(th)).Undefined?
      <==> After(run).state.pending[th].kind == Reader && After(run).state.held == []
  {
    RunInv(run);
    var st := After(run).state;
    if st.held == [] {
      NoSleepersWithoutLocks(run);
    } else {
      var l := st.held[0];
      assert HandleOk(st.tree, l, st.calls) && HasStart(st.tree, l.start);
    }
  }

  lemma StepDefined(st: State, ev: Event)
    requires Enabled(st, ev)
    ensures !ev.Retry? ==> Step(st, ev).Next?
  {
  }

  /** The n-th event is the retry of a reader while no lock is held. */
  ghost predicate LostRetry(run: seq<Event>, n: nat) {
    && n < |run| && run[n].Retry? && After(run[..n]).Next?
    && var st := After(run[..n]).state; var th := run[n].thread;
       th in st.pending && st.pending[th].kind == Reader && st.held == []
  }

  lemma LostBefore(run: seq<Event>, n: nat)
    requires n + 1 < |run|
    ensures LostRetry(run[..|run| - 1], n) <==> LostRetry(run, n)
  {
    assert run[..|run| - 1][..n] == run[..n];
  }

  lemma LostLast(run: seq<Event>)
    requires run != [] && After(run[..|run| - 1]).Next?
    ensures After(run).Undefined? <==> LostRetry(run, |run| - 1)
  {
    var before, ev := run[..|run| - 1], run[|run| - 1];
    var st := After(before).state;
    if Enabled(st, ev) { StepDefined(st, ev); }
    if ev.Retry? && ev.thread in st.pending { RetryUndefinedIff(before, ev.thread); }
    hide Step;
  }

  /** A run is defined exactly as long as no reader retries while no lock is held. */
  lemma {:induction false} DefinedIff(run: seq<Event>)
    ensures After(run).Next? <==> forall n | 0 <= n < |run| :: !LostRetry(run, n)
  {
    if run != [] {
      var before := run[..|run| - 1];
      DefinedIff(before);
      hide LostRetry, Step;
      forall n | 0 <= n < |before| ensures LostRetry(before, n) <==> LostRetry(run, n) { LostBefore(run, n); }
      if After(before).Next? { LostLast(run); }
    }
  }

  lemma AfterSnoc(run: seq<Event>, ev: Event)
    requires After(run).Next? && Enabled(After(run).state, ev)
    ensures After(run + [ev]) == Step(After(run).state, ev)
  {
    assert (run + [ev])[..|run|] == run;
  }

  const ASKS := Ask(0, Request(0, 1, Writer))
  const WAITS := Ask(1, Request(0, 1, Reader))
  const LOCKED := State([Range(0, 1, Writer, 1, false, false, false, 0)], [Lock(0, 1, Writer, Descriptor(0))],
                        1, map[], map[])
  const WAITED := State([Range(0, 1, Writer, 1, false, true, false, 0)], LOCKED.held,
                        1, map[1 := Request(0, 1, Reader)], map[1 := Place(0, 0)])

  lemma WriterThenReader()
    ensures Step(INITIAL, ASKS) == Next(LOCKED) && Step(LOCKED, WAITS) == Next(WAITED)
  {
    assert Insert([], LOCKED.tree[0]) == LOCKED.tree;
    assert Target(LOCKED.tree, Request(0, 1, Reader)) == 0;
    assert LOCKED.tree[0 := Want(LOCKED.tree[0], Reader)] == WAITED.tree;
  }

  lemma ThenUnlock()
    ensures Unlock(WAITED, 0).tree == [] && Unlock(WAITED, 0).pending == WAITED.pending
  {
    assert Rank(WAITED.tree, 0) == 0;
  }

  /** A run that gets there: a reader waits for the only writer, which then unlocks. */
  lemma UndefinedRetryIsReachable()
    ensures After([ASKS] + [WAITS] + [Drop(0)] + [Retry(1)]) == Undefined
  {
    WriterThenReader();
    ThenUnlock();
    assert [] + [ASKS] == [ASKS];
    AfterSnoc([], ASKS);
    AfterSnoc([ASKS], WAITS);
    AfterSnoc([ASKS] + [WAITS], Drop(0));
    AfterSnoc([ASKS] + [WAITS] + [Drop(0)], Retry(1));
  }
}
