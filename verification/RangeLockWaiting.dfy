/**
  Who is waited for, and by whom: the wanted flags, the requests of waiting threads, and what a call that
  had to wait gets in the end.
 */
module RangeLockWaiting {
  import opened RangeTree
  import opened RangeLock
  import opened RangeLockSafety

  // ---------------------------------------------------------------------------------------------
  // A flag that is set has a waiter

  /** Some thread inside `lock_range` asks for a lock of this kind on part of `r`. */
  ghost predicate Awaited(pending: map<nat, Request>, r: Range, kind: Kind) {
    exists th | th in pending :: pending[th].kind == kind && r.Overlaps(pending[th].start, pending[th].end)
  }

  ghost predicate FlagOk(pending: map<nat, Request>, r: Range) {
    (r.writeWanted ==> Awaited(pending, r, Writer)) && (r.readWanted ==> Awaited(pending, r, Reader))
  }

  ghost predicate FlagsAwaited(st: State) { forall r | r in st.tree :: FlagOk(st.pending, r) }

  /** The thread that asks is not waiting for something else. */
  predicate Consistent(st: State, th: nat, req: Request) { th in st.pending ==> st.pending[th] == req }

  lemma ParkFlags(st: State, th: nat, req: Request, i: nat)
    requires FlagsAwaited(st) && Consistent(st, th, req) && i < |st.tree|
    requires st.tree[i].Overlaps(req.start, req.end)
    ensures FlagsAwaited(Park(st, th, req, i))
  {
    var st' := Park(st, th, req, i);
    forall q | q in st'.tree ensures FlagOk(st'.pending, q) {
      var k :| 0 <= k < |st.tree| && st'.tree[k] == q;
      assert st.tree[k] in st.tree && FlagOk(st.pending, st.tree[k]);
      AwaitedMore(st.pending, th, req, st.tree[k], q);
      assert k == i ==> Awaited(st'.pending, q, req.kind) by { assert th in st'.pending && st'.pending[th] == req; }
    }
  }

  lemma AwaitedMore(pending: map<nat, Request>, th: nat, req: Request, r: Range, q: Range)
    requires (th in pending ==> pending[th] == req) && q.start == r.start && q.end == r.end
    ensures forall kind :: Awaited(pending, r, kind) ==> Awaited(pending[th := req], q, kind)
  {
    forall kind | Awaited(pending, r, kind) ensures Awaited(pending[th := req], q, kind) {
      var w :| w in pending && pending[w].kind == kind && r.Overlaps(pending[w].start, pending[w].end);
      assert w in pending[th := req];
    }
  }

  /** Whoever leaves with a lock was not what a remaining flag is for. */
  lemma AwaitedLess(pending: map<nat, Request>, th: nat, req: Request, r: Range)
    requires (th in pending ==> pending[th] == req) && FlagOk(pending, r)
    requires r.Overlaps(req.start, req.end) ==>
      (req.kind == Writer ==> !r.writeWanted) && (req.kind == Reader ==> !r.readWanted)
    ensures FlagOk(pending - {th}, r)
  {
    forall kind | Awaited(pending, r, kind) && (kind == Writer ==> r.writeWanted) && (kind == Reader ==> r.readWanted)
      ensures Awaited(pending - {th}, r, kind)
    {
      var w :| w in pending && pending[w].kind == kind && r.Overlaps(pending[w].start, pending[w].end);
      assert w in pending - {th};
    }
  }

  lemma GrantFlags(st: State, th: nat, req: Request)
    requires Inv(st) && FlagsAwaited(st) && Consistent(st, th, req) && req.start < req.end
    requires Joinable(st.tree, req.start, req.end) && (req.kind == Writer ==> Free(st.tree, req.start, req.end))
    ensures FlagsAwaited(Grant(st, th, req))
  {
    var st', t := Grant(st, th, req), st.tree;
    forall q | q in st'.tree ensures FlagOk(st'.pending, q) {
      GrantMember(st, th, req, q);
      if q in t { AwaitedLess(st.pending, th, req, q); }
    }
  }

  /** A grant adds no range that is wanted. */
  lemma GrantMember(st: State, th: nat, req: Request, q: Range)
    requires Inv(st) && req.start < req.end && q in Grant(st, th, req).tree
    requires Joinable(st.tree, req.start, req.end) && (req.kind == Writer ==> Free(st.tree, req.start, req.end))
    ensures q in st.tree || (!q.writeWanted && !q.readWanted)
  {
    hide Accounted, Bounded, Owned, HandlesOk, ParkedOk;
    if Free(st.tree, req.start, req.end) {
      InsertGrows(st.tree, Original(req, st.calls));
    } else {
      CoverMember(st.tree, req.start, req.end, st.calls, q);
    }
  }

  lemma AttemptFlags(st: State, th: nat, req: Request, retried: bool)
    requires Inv(st) && FlagsAwaited(st) && Consistent(st, th, req) && req.start < req.end
    requires Attempt(st, th, req, retried).Next?
    ensures FlagsAwaited(Attempt(st, th, req, retried).state)
  {
    hide FlagsAwaited, Accounted, Bounded, Owned, HandlesOk, ParkedOk;
    var i := Target(st.tree, req);
    WriterTargetIsFullScan(st.tree, req.start, req.end);
    FirstBlockerIsFullScan(st.tree, req.start, req.end);
    if i < |st.tree| { ParkFlags(st, th, req, i); } else { GrantFlags(st, th, req); }
  }

  lemma UnlockFlags(st: State, k: nat)
    requires Inv(st) && FlagsAwaited(st) && k < |st.held|
    ensures FlagsAwaited(Unlock(st, k))
  {
    ShorterTree(st.tree, st.held[k]);
    forall q | q in Unlock(st, k).tree ensures FlagOk(st.pending, q) {
      assert FlagOk(st.pending, if q in st.tree then q else Bump(q));
    }
  }

  lemma {:induction false} RunFlags(run: seq<Event>)
    requires After(run).Next?
    ensures FlagsAwaited(After(run).state)
  {
    if run != [] {
      var before, ev := run[..|run| - 1], run[|run| - 1];
      RunFlags(before);
      RunInv(before);
      var st := After(before).state;
      hide Inv, FlagsAwaited, Attempt, Unlock;
      if Enabled(st, ev) {
        match ev
        case Ask(th, req) => AttemptFlags(st, th, req, false);
        case Retry(th) => PendingRange(st, th); AttemptFlags(st, th, st.pending[th], true);
        case Retest(th) => PendingRange(st, th); AttemptFlags(st, th, st.pending[th], false);
        case Drop(k) => UnlockFlags(st, k);
      }
    }
  }

  lemma PendingRange(st: State, th: nat)
    requires Inv(st) && th in st.pending
    ensures st.pending[th].start < st.pending[th].end
  {
  }

  /** In every reachable state a wanted range is wanted by somebody: a thread that still asks for part of it. */
  lemma WantedIsAwaited(run: seq<Event>, r: Range)
    requires After(run).Next? && r in After(run).state.tree
    ensures r.writeWanted ==> Awaited(After(run).state.pending, r, Writer)
    ensures r.readWanted ==> Awaited(After(run).state.pending, r, Reader)
  {
    RunFlags(run);
    assert FlagOk(After(run).state.pending, r);
  }

  /** A reader is kept out by a held writer that overlaps its range, or by a held lock that overlaps its range and
      that a waiting writer asks for part of. Otherwise it is granted. */
  lemma ReaderKeptOut(run: seq<Event>, th: nat, req: Request, retried: bool) returns (l: Lock)
    requires After(run).Next? && req.start < req.end && req.kind == Reader
    requires Attempt(After(run).state, th, req, retried).Next?
    requires |Attempt(After(run).state, th, req, retried).state.held| != |After(run).state.held| + 1
    ensures l in After(run).state.held && l.Overlaps(req.start, req.end)
    ensures l.kind == Writer || exists w | w in After(run).state.pending ::
      var ask := After(run).state.pending[w]; ask.kind == Writer && l.Overlaps(ask.start, ask.end)
  {
    var st := After(run).state;
    hide After;
    ReaderGrantedIff(run, th, req, retried);
    if exists k | k in st.held && k.Overlaps(req.start, req.end) :: k.kind == Writer {
      l :| l in st.held && l.Overlaps(req.start, req.end) && l.kind == Writer;
    } else {
      var r :| r in st.tree && r.Overlaps(req.start, req.end) && r.writeWanted;
      WantedIsAwaited(run, r);
      var w :| w in st.pending && st.pending[w].kind == Writer && r.Overlaps(st.pending[w].start, st.pending[w].end);
      l := RangeIsHeld(run, r);
    }
  }

  lemma RangeIsHeld(run: seq<Event>, r: Range) returns (l: Lock)
    requires After(run).Next? && r in After(run).state.tree
    ensures l in After(run).state.held && l.start <= r.start && r.end <= l.end && r.start < r.end
  {
    hide After;
    RunInv(run);
    var st := After(run).state;
    RefsAreExact(run, r);
    var i :| 0 <= i < |st.tree| && st.tree[i] == r;
    assert Count(st.held, r.start) == r.refs;
    l := CountPositive(st.held, r.start);
  }

  const FIRST := Ask(0, Request(0, 10, Reader))
  const WRITER := Ask(1, Request(5, 8, Writer))
  const SECOND := Ask(2, Request(0, 3, Reader))

  const HELD := State([Range(0, 10, Reader, 1, false, false, false, 0)], [Lock(0, 10, Reader, Descriptor(0))],
                      1, map[], map[])
  const WANTED := State([Range(0, 10, Reader, 1, false, false, true, 0)], HELD.held,
                        1, map[1 := Request(5, 8, Writer)], map[1 := Place(0, 0)])

  /** The waiting writer need not overlap the reader that it keeps out: it wants another part of the same range. */
  lemma WaiterElsewhereKeepsOut()
    ensures After([FIRST] + [WRITER] + [SECOND]).Next?
    ensures var st := After([FIRST] + [WRITER] + [SECOND]).state;
      2 in st.parked && |st.held| == 1 && st.held[0].kind == Reader && SECOND.req.end <= WRITER.req.start
  {
    assert Insert([], HELD.tree[0]) == HELD.tree;
    assert Target(HELD.tree, Request(5, 8, Writer)) == 0 by { assert Rank(HELD.tree, 5) == 1; }
    assert HELD.tree[0 := Want(HELD.tree[0], Writer)] == WANTED.tree;
    assert Target(WANTED.tree, Request(0, 3, Reader)) == 0;
    assert [] + [FIRST] == [FIRST];
    AfterSnoc([], FIRST);
    AfterSnoc([FIRST], WRITER);
    AfterSnoc([FIRST] + [WRITER], SECOND);
  }

  // ---------------------------------------------------------------------------------------------
  // From the request to the grant

  /** What one event makes of the request of a thread: it stays, or is granted as it stands. */
  lemma StepRequest(st: State, ev: Event, th: nat)
    requires Enabled(st, ev) && Step(st, ev).Next?
    ensures var st' := Step(st, ev).state;
      && (th in st.pending && th in st'.pending ==> st'.pending[th] == st.pending[th])
      && (th in st.pending && th !in st'.pending ==> Gained(st, st', st.pending[th]))
      && (th !in st.pending && th in st'.pending ==> ev.Ask? && ev.thread == th && st'.pending[th] == ev.req)
      && (ev.Ask? && ev.thread == th && th !in st'.pending ==> Gained(st, st', ev.req))
  {
    hide Target, Cover, Insert, Free, Release, Live, Removed, Asleep;
  }

  /** Exactly the lock asked for has been gained. */
  ghost predicate Gained(st: State, st': State, req: Request) {
    |st'.held| == |st.held| + 1 && st'.held[..|st.held|] == st.held
    && var l := st'.held[|st.held|]; l.start == req.start && l.end == req.end && l.kind == req.kind
  }

  lemma AfterNext(run: seq<Event>, k: nat)
    requires 0 < k <= |run| && After(run[..k]).Next?
    ensures After(run[..k - 1]).Next?
    ensures var st, ev := After(run[..k - 1]).state, run[k - 1];
      After(run[..k]) == if Enabled(st, ev) then Step(st, ev) else Next(st)
  {
    assert run[..k][..k - 1] == run[..k - 1];
  }

  /** From the call of `lock_range` until it gets its lock, a thread asks for what it asked for at first. */
  lemma {:induction false} RequestKept(run: seq<Event>, i: nat, k: nat, th: nat, req: Request)
    requires i < k <= |run| && run[i] == Ask(th, req) && After(run[..k]).Next?
    requires forall j | i < j <= k :: After(run[..j]).Next? && th in After(run[..j]).state.pending
    requires After(run[..i]).Next? && th !in After(run[..i]).state.pending
    ensures After(run[..k]).state.pending[th] == req
    decreases k
  {
    hide After, Step;
    AfterNext(run, k);
    if i + 1 < k { RequestKept(run, i, k - 1, th, req); }
    var st, ev := After(run[..k - 1]).state, run[k - 1];
    if Enabled(st, ev) { StepRequest(st, ev, th); }
  }

  /** ... and what it gets in the end, at once or after any number of waits, is exactly that. */
  lemma GrantIsRequested(run: seq<Event>, i: nat, k: nat, th: nat, req: Request)
    requires i <= k < |run| && run[i] == Ask(th, req) && req.start < req.end && After(run[..k + 1]).Next?
    requires After(run[..i]).Next? && th !in After(run[..i]).state.pending
    requires forall j | i < j <= k :: After(run[..j]).Next? && th in After(run[..j]).state.pending
    requires th !in After(run[..k + 1]).state.pending
    ensures After(run[..k]).Next? && Gained(After(run[..k]).state, After(run[..k + 1]).state, req)
  {
    hide After, Step, Gained;
    AfterNext(run, k + 1);
    if i < k { RequestKept(run, i, k, th, req); }
    var st, ev := After(run[..k]).state, run[k];
    if Enabled(st, ev) { StepRequest(st, ev, th); }
  }

  // ---------------------------------------------------------------------------------------------
  // Waking up

  /** What has been removed does not survive. */
  lemma RemovedIsGone(t: Tree, l: Lock, calls: nat, r: Range)
    requires TreeOk(t) && HandleOk(t, l, calls) && r in Removed(t, l)
    ensures r in t && !Survives(Shorter(t, l), r)
  {
    RemovedInside(t, l, calls, r);
    ShorterTree(t, l);
    if Live(t, l) {
      RemoveOrdered(t, Rank(t, l.start));
    } else {
      ReleaseMembers(t, l.start, l.end);
      if Bump(r) in t { SameStart(t, Bump(r), r); }
    }
  }

  /** An unlock wakes exactly those who sleep on a range that leaves the tree. Nobody else is disturbed, and all go on
      asking for what they asked for. */
  lemma WakesExactly(run: seq<Event>, k: nat, th: nat, r: Range)
    requires After(run).Next? && k < |After(run).state.held| && th in After(run).state.parked
    requires var st := After(run).state; r in st.tree && r.start == st.parked[th].start && r.born == st.parked[th].born
    ensures var st, st' := After(run).state, Unlock(After(run).state, k);
      && (th in st'.parked <==> Survives(st'.tree, r)) && st'.pending == st.pending
      && (th in st'.parked ==> st'.parked[th] == st.parked[th])
  {
    var st := After(run).state;
    RunInv(run);
    hide After, Accounted, Bounded, Owned, ParkedOk;
    if Survives(Unlock(st, k).tree, r) {
      StaysAsleep(st, k, th, r);
    } else {
      RemovalWakes(run, k, th, r);
    }
  }

  lemma StaysAsleep(st: State, k: nat, th: nat, r: Range)
    requires TreeOk(st.tree) && HandlesOk(st) && k < |st.held| && th in st.parked
    requires r in st.tree && r.start == st.parked[th].start && Survives(Unlock(st, k).tree, r)
    ensures th in Unlock(st, k).parked
  {
    var t, l := st.tree, st.held[k];
    assert HandleOk(t, l, st.calls);
    hide Survives, HandleOk, Removed;
    forall q | q in Removed(t, l) ensures q.start != r.start {
      RemovedIsGone(t, l, st.calls, q);
      if q.start == r.start { SameStart(t, q, r); }
    }
  }
}
