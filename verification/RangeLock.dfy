/**
  The range-lock protocol: every lock, retry and unlock call runs under one mutex, so a run is a
  sequence of atomic steps on the tree, the held locks and the blocked threads.
 */
module RangeLock {
  import opened RangeTree

  /** `range_lock::m_ptr`: null, or the descriptor allocated at the lock's start by call `born`. */
  datatype Ptr = Null | Descriptor(born: nat)

  /** A lock handle. */
  datatype Lock = Lock(start: int, end: int, kind: Kind, ptr: Ptr) {
    predicate Covers(x: int) { start <= x < end }

    predicate Overlaps(s: int, e: int) { start < e && s < end }

    /** The handle points to the descriptor `r`. */
    predicate Names(r: Range) { ptr == Descriptor(r.born) && start == r.start }

    predicate Owns(r: Range) { Names(r) && end == r.end && kind == r.kind && !r.proxy }
  }

  datatype Request = Request(start: int, end: int, kind: Kind)

  /** The descriptor whose condition variable a thread sleeps on. */
  datatype Place = Place(start: int, born: nat)

  /** `pending` are the threads inside `lock_range`; those also in `parked` are asleep. */
  datatype State = State(
    tree: Tree, held: seq<Lock>, calls: nat, pending: map<nat, Request>, parked: map<nat, Place>)

  // ---------------------------------------------------------------------------------------------
  // Where a request stops

  /** The first range that keeps a reader of [s, e) out, or |t|. */
  function FirstBlocker(t: Tree, s: int, e: int): (n: nat)
    ensures n <= |t|
    ensures forall i | 0 <= i < n :: !(t[i].Overlaps(s, e) && t[i].Blocks())
    ensures n < |t| ==> t[n].Overlaps(s, e) && t[n].Blocks()
  {
    if t == [] || (t[0].Overlaps(s, e) && t[0].Blocks()) then 0 else 1 + FirstBlocker(t[1..], s, e)
  }

  /** The range a writer of [s, e) waits for, or |t|: only the neighbours of `s` are looked at. */
  function WriterTarget(t: Tree, s: int, e: int): (n: nat)
    ensures n <= |t|
  {
    var at := Rank(t, s);
    if at < |t| && t[at].start < e then at
    else if at > 0 && s < t[at - 1].end then at - 1
    else |t|
  }

  /** The neighbour check of the writer is as good as a scan of the whole tree. */
  lemma WriterTargetIsFullScan(t: Tree, s: int, e: int)
    requires Ordered(t) && s < e
    ensures WriterTarget(t, s, e) == |t| <==> Free(t, s, e)
    ensures WriterTarget(t, s, e) < |t| ==> t[WriterTarget(t, s, e)].Overlaps(s, e)
  {
    var at := Rank(t, s);
    RankSplits(t, s);
    if WriterTarget(t, s, e) == |t| {
      forall r | r in t ensures !r.Overlaps(s, e) {
        var i :| 0 <= i < |t| && t[i] == r;
        if i < at { assert t[i].end <= t[at - 1].end; } else { assert t[at].start <= t[i].start; }
      }
    } else {
      assert t[WriterTarget(t, s, e)] in t;
    }
  }

  lemma FirstBlockerIsFullScan(t: Tree, s: int, e: int)
    ensures FirstBlocker(t, s, e) == |t| <==> Joinable(t, s, e)
  {
    var n := FirstBlocker(t, s, e);
    if n < |t| { assert t[n] in t; }
  }

  // ---------------------------------------------------------------------------------------------
  // Steps

  function Original(req: Request, born: nat): Range {
    Range(req.start, req.end, req.kind, 1, false, false, false, born)
  }

  function Want(r: Range, kind: Kind): Range {
    if kind == Writer then r.(writeWanted := true) else r.(readWanted := true)
  }

  predicate Wanted(r: Range, kind: Kind) { if kind == Writer then r.writeWanted else r.readWanted }

  function Grant(st: State, thread: nat, req: Request): State {
    var clash := !Free(st.tree, req.start, req.end);
    st.(
    tree := if clash then Cover(st.tree, req.start, req.end, st.calls)
            else Insert(st.tree, Original(req, st.calls)),
    held := st.held + [Lock(req.start, req.end, req.kind, if clash then Null else Descriptor(st.calls))],
    calls := st.calls + 1,
    pending := st.pending - {thread},
    parked := st.parked - {thread})
  }

  function Park(st: State, thread: nat, req: Request, i: nat): State
    requires i < |st.tree|
  {
    st.(
    tree := st.tree[i := Want(st.tree[i], req.kind)],
    pending := st.pending[thread := req],
    parked := st.parked[thread := Place(st.tree[i].start, st.tree[i].born)])
  }

  function Target(t: Tree, req: Request): (n: nat)
    ensures n <= |t|
  {
    if req.kind == Writer then WriterTarget(t, req.start, req.end)
    else FirstBlocker(t, req.start, req.end)
  }

  datatype Outcome = Next(state: State) | Undefined

  /** One pass through `lock_range`. A retried reader skips the test for an empty tree and then
      asks `nearest` for the neighbour of a null node, which has no defined result. */
  function Attempt(st: State, thread: nat, req: Request, retried: bool): Outcome {
    if retried && req.kind == Reader && st.tree == [] then Undefined
    else
      var i := Target(st.tree, req);
      Next(if i < |st.tree| then Park(st, thread, req, i) else Grant(st, thread, req))
  }

  /** `m_ptr != nullptr && m_ptr->m_refs != 0`: the descriptor has not been replaced by proxies. */
  predicate Live(t: Tree, l: Lock) { var i := Rank(t, l.start); i < |t| && l.Names(t[i]) }

  function Removed(t: Tree, l: Lock): seq<Range> {
    if Live(t, l) then [t[Rank(t, l.start)]]
    else Dropped(t, l.start, l.end)
  }

  /** The ranges that lose their last reference when [s, e) is released. */
  function Dropped(t: Tree, s: int, e: int): seq<Range> {
    if t == [] then []
    else (if s <= t[0].start && t[0].end <= e && t[0].refs == 1 then [t[0]] else [])
         + Dropped(t[1..], s, e)
  }

  /** A removed range wakes whoever sleeps on it, if its flag for that kind of waiter is set. */
  predicate Notified(removed: seq<Range>, place: Place, kind: Kind) {
    exists r | r in removed :: r.start == place.start && r.born == place.born && Wanted(r, kind)
  }

  /** Who still sleeps after the removed ranges have notified. */
  function Asleep(st: State, removed: seq<Range>): map<nat, Place> {
    map th | th in st.parked && !(th in st.pending && Notified(removed, st.parked[th], st.pending[th].kind))
      :: st.parked[th]
  }

  function Unlock(st: State, k: nat): State
    requires k < |st.held|
  {
    var l, t := st.held[k], st.tree;
    st.(
    tree := if Live(t, l) then RemoveAt(t, Rank(t, l.start)) else Release(t, l.start, l.end),
    held := st.held[..k] + st.held[k + 1..],
    parked := Asleep(st, Removed(t, l)))
  }

  /** `Retry` is what the code does. `Retest` is a reader that goes back to the test for an empty tree,
      as the writer's loop does; what is proved of all runs holds of both. */
  datatype Event = Ask(thread: nat, req: Request) | Retry(thread: nat) | Retest(thread: nat) | Drop(k: nat)

  /** A thread asks for a non-empty range while not already blocked; a blocked thread may retry at
      any time (wake-ups may be spurious); a held lock may be released. */
  predicate Enabled(st: State, ev: Event) {
    match ev
    case Ask(th, req) => th !in st.pending && req.start < req.end
    case Retry(th) => th in st.pending
    case Retest(th) => th in st.pending
    case Drop(k) => k < |st.held|
  }

  function Step(st: State, ev: Event): Outcome
    requires Enabled(st, ev)
  {
    match ev
    case Ask(th, req) => Attempt(st, th, req, false)
    case Retry(th) => Attempt(st, th, st.pending[th], true)
    case Retest(th) => Attempt(st, th, st.pending[th], false)
    case Drop(k) => Next(Unlock(st, k))
  }

  const INITIAL := State([], [], 0, map[], map[])

  /** The state after a run; events that are not enabled do not happen. */
  function After(run: seq<Event>): Outcome {
    if run == [] then Next(INITIAL)
    else
      var ev := run[|run| - 1];
      match After(run[..|run| - 1])
      case Undefined => Undefined
      case Next(st) => if Enabled(st, ev) then Step(st, ev) else Next(st)
  }

  // ---------------------------------------------------------------------------------------------
  // The invariant

  /** The number of held locks on offset `x`. */
  ghost function Count(held: seq<Lock>, x: int): nat {
    if held == [] then 0 else (if held[0].Covers(x) then 1 else 0) + Count(held[1..], x)
  }

  ghost predicate TreeOk(t: Tree) { Ordered(t) && Counted(t) && FlagsOk(t) }

  /** The reference count of every offset is the number of held locks on it. */
  ghost predicate Accounted(t: Tree, held: seq<Lock>) {
    forall x :: Load(t, x) == Count(held, x)
  }

  /** Held locks begin and end at range boundaries. */
  ghost predicate Bounded(t: Tree, held: seq<Lock>) {
    forall l | l in held :: HasStart(t, l.start) && HasEnd(t, l.end)
  }

  /** An original range belongs to a held lock. */
  ghost predicate Owned(t: Tree, held: seq<Lock>) {
    forall r | r in t && !r.proxy :: exists l | l in held :: l.Owns(r)
  }

  ghost predicate HandleOk(t: Tree, l: Lock, calls: nat) {
    && l.start < l.end
    && (l.ptr.Descriptor? ==> l.ptr.born < calls)
    && (l.kind == Writer ==> exists r | r in t :: l.Owns(r))
    && (forall r | r in t && l.Names(r) :: l.Owns(r))
  }

  ghost predicate HandlesOk(st: State) {
    forall l | l in st.held :: HandleOk(st.tree, l, st.calls)
  }

  /** The range `r` is the one at `place`, it stands in the way of `req` and knows it is wanted. */
  ghost predicate SleepsOn(r: Range, place: Place, req: Request) {
    && r.start == place.start && r.born == place.born
    && r.Overlaps(req.start, req.end) && Wanted(r, req.kind)
    && (req.kind == Reader ==> r.Blocks())
  }

  ghost predicate ParkedOk(st: State) {
    forall th | th in st.parked ::
      th in st.pending && exists r | r in st.tree :: SleepsOn(r, st.parked[th], st.pending[th])
  }

  ghost predicate PendingOk(st: State) {
    forall th | th in st.pending :: st.pending[th].start < st.pending[th].end
  }

  ghost predicate Inv(st: State) {
    && TreeOk(st.tree)
    && Accounted(st.tree, st.held)
    && Bounded(st.tree, st.held)
    && Owned(st.tree, st.held)
    && HandlesOk(st)
    && ParkedOk(st)
    && PendingOk(st)
  }
}
