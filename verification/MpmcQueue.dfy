/**
  The bounded multi-producer multi-consumer queue as a protocol: every access to a shared atomic
  (and to the data of a cell) is one step of one thread, and steps interleave freely. Counters are
  unbounded and memory is sequentially consistent.
 */
module MpmcQueue {
  import opened Basics

  /** `cell_t` */
  datatype Cell<T> = Cell(sequence: int, data: T)

  /** What a thread does next, with its local variables. */
  datatype Pc<T> =
    | Idle
    | EnqLoad(data: T)                     // load enqueue_pos_
    | EnqSeq(data: T, pos: int)            // load the sequence of the cell
    | EnqTry(data: T, pos: int, seqn: int) // compare, and perhaps exchange enqueue_pos_
    | EnqWrite(data: T, pos: int)          // ticket pos is claimed: write the data
    | EnqPublish(pos: int)                 // store pos + 1 into the sequence
    | DeqLoad
    | DeqSeq(pos: int)
    | DeqTry(pos: int, seqn: int)
    | DeqRead(pos: int)
    | DeqRelease(pos: int, value: T)       // store pos + N into the sequence
  {
    /** The thread owns the cell of ticket `p` for writing, or for reading. */
    predicate Writes(p: int) { (EnqWrite? || EnqPublish?) && pos == p }
    predicate Reads(p: int) { (DeqRead? || DeqRelease?) && pos == p }
  }

  /** Besides the queue: `put[p]` is the value enqueued with ticket p, `got[p]` what was returned for
      ticket p. A thread not in `pcs` is idle. */
  datatype State<T> = State(
    cells: seq<Cell<T>>, enq: int, deq: int, pcs: map<nat, Pc<T>>, put: seq<T>, got: map<int, T>)
  {
    function PcOf(th: nat): Pc<T> { if th in pcs then pcs[th] else Idle }

    function At(p: int): Cell<T> requires |cells| > 0 { cells[Slot(p, |cells|)] }
  }

  /** `pos & buffer_mask_` for a power of two. */
  function Slot(p: int, n: nat): (i: nat)
    requires n > 0
    ensures i < n
  {
    p % n
  }

  lemma SlotAgain(p: int, n: nat)
    requires n > 0
    ensures Slot(p + n, n) == Slot(p, n)
  {
    var k := (p + n) / n - p / n - 1;
    assert (p + n) % n == p + n - n * ((p + n) / n) && p % n == p - n * (p / n);
    assert p % n - (p + n) % n == n * k;
    MulSmall(n, k);
    MulSmall(n, -k);
  }

  lemma SlotNext(p: int, q: int, n: nat)
    requires n > 0 && p < q < p + n
    ensures Slot(p, n) != Slot(q, n)
  {
    var k := q / n - p / n;
    assert p % n == p - n * (p / n) && q % n == q - n * (q / n);
    assert q - p == q % n - p % n + n * k;
    MulSmall(n, k);
    MulSmall(n, -k);
  }

  /** A call by an idle thread, or the next step of a busy one; a weak exchange may fail for no
      reason. */
  datatype Action<T> = Enqueue(v: T) | Dequeue | Go(spurious: bool)

  function WithCell<T>(s: State<T>, p: int, c: Cell<T>): State<T>
    requires |s.cells| > 0
  {
    s.(cells := s.cells[Slot(p, |s.cells|) := c])
  }

  function To<T>(s: State<T>, th: nat, pc: Pc<T>): State<T> { s.(pcs := s.pcs[th := pc]) }

  function Step<T>(s: State<T>, th: nat, a: Action<T>): State<T>
    requires |s.cells| > 0
  {
    var lucky := !(a.Go? && a.spurious);
    match s.PcOf(th)
    case Idle =>
      if a.Enqueue? then To(s, th, EnqLoad(a.v)) else if a.Dequeue? then To(s, th, DeqLoad) else s
    case EnqLoad(d) => To(s, th, EnqSeq(d, s.enq))
    case EnqSeq(d, pos) => To(s, th, EnqTry(d, pos, s.At(pos).sequence))
    case EnqTry(d, pos, seqn) =>
      if seqn == pos then
        if s.enq == pos && lucky then To(s.(enq := pos + 1, put := s.put + [d]), th, EnqWrite(d, pos))
        else To(s, th, EnqSeq(d, s.enq))
      else if seqn < pos then To(s, th, Idle) // returns false
      else To(s, th, EnqLoad(d))
    case EnqWrite(d, pos) => To(WithCell(s, pos, s.At(pos).(data := d)), th, EnqPublish(pos))
    case EnqPublish(pos) => To(WithCell(s, pos, s.At(pos).(sequence := pos + 1)), th, Idle)
    case DeqLoad => To(s, th, DeqSeq(s.deq))
    case DeqSeq(pos) => To(s, th, DeqTry(pos, s.At(pos).sequence))
    case DeqTry(pos, seqn) =>
      if seqn == pos + 1 then
        if s.deq == pos && lucky then To(s.(deq := pos + 1), th, DeqRead(pos))
        else To(s, th, DeqSeq(s.deq))
      else if seqn < pos + 1 then To(s, th, Idle) // returns false
      else To(s, th, DeqLoad)
    case DeqRead(pos) => To(s, th, DeqRelease(pos, s.At(pos).data))
    case DeqRelease(pos, v) =>
      To(WithCell(s, pos, s.At(pos).(sequence := pos + |s.cells|)).(got := s.got[pos := v]), th, Idle)
  }

  /** The constructor, for `n` cells with arbitrary content. */
  function Initial<T>(n: nat, blank: T): State<T> {
    State(seq(n, i => Cell(i, blank)), 0, 0, map[], [], map[])
  }

  /** The state after a run of any threads. */
  function After<T>(n: nat, blank: T, run: seq<(nat, Action<T>)>): (s: State<T>)
    requires n > 0
    ensures |s.cells| == n
  {
    if run == [] then Initial(n, blank)
    else
      var (th, a) := run[|run| - 1];
      Step(After(n, blank, run[..|run| - 1]), th, a)
  }

  // ---------------------------------------------------------------------------------------------
  // The invariant

  ghost predicate Counters<T>(s: State<T>) {
    |s.cells| >= 2 && 0 <= s.deq <= s.enq <= s.deq + |s.cells| && |s.put| == s.enq
  }

  /** The cell of the next ticket q, last used by ticket p = q - N: released; or published and holding
      the value of p; or claimed by p and not yet published. */
  ghost predicate CellOk<T>(s: State<T>, q: int)
    requires Counters(s)
  {
    var p, c := q - |s.cells|, s.At(q);
    || (c.sequence == q && p < s.deq)
    || (0 <= p < s.enq && c.sequence == p + 1 && c.data == s.put[p])
    || (0 <= p && c.sequence == p && s.deq <= p)
  }

  ghost predicate CellsOk<T>(s: State<T>)
    requires Counters(s)
  {
    forall q | s.enq <= q < s.enq + |s.cells| :: CellOk(s, q)
  }

  /** Sequences have moved past every ticket handed out. */
  ghost predicate Passed<T>(s: State<T>)
    requires Counters(s)
  {
    && (forall p | 0 <= p < s.enq :: p <= s.At(p).sequence)
    && (forall p | 0 <= p < s.deq :: p < s.At(p).sequence)
  }

  ghost predicate PcOk<T>(s: State<T>, pc: Pc<T>)
    requires Counters(s)
  {
    var n := |s.cells|;
    match pc
    case EnqSeq(_, pos) => 0 <= pos <= s.enq
    case EnqTry(_, pos, seqn) => 0 <= pos <= s.enq && seqn <= s.At(pos).sequence
    case EnqWrite(d, pos) =>
      s.deq <= pos < s.enq <= pos + n && s.At(pos).sequence == pos && s.put[pos] == d
    case EnqPublish(pos) =>
      s.deq <= pos < s.enq <= pos + n && s.At(pos).sequence == pos && s.put[pos] == s.At(pos).data
    case DeqSeq(pos) => 0 <= pos <= s.deq
    case DeqTry(pos, seqn) => 0 <= pos <= s.deq && seqn <= s.At(pos).sequence
    case DeqRead(pos) =>
      && 0 <= pos < s.deq && s.enq <= pos + n && s.At(pos).sequence == pos + 1
      && s.put[pos] == s.At(pos).data && pos !in s.got
    case DeqRelease(pos, v) =>
      && 0 <= pos < s.deq && s.enq <= pos + n && s.At(pos).sequence == pos + 1
      && s.put[pos] == v && pos !in s.got
    case _ => true
  }

  ghost predicate PcsOk<T>(s: State<T>)
    requires Counters(s)
  {
    forall th | th in s.pcs :: PcOk(s, s.pcs[th])
  }

  /** A ticket is owned by one thread at most. */
  ghost predicate Unique<T>(pcs: map<nat, Pc<T>>) {
    && (forall t, u, p | t in pcs && u in pcs && t != u && pcs[t].Writes(p) :: !pcs[u].Writes(p))
    && (forall t, u, p | t in pcs && u in pcs && t != u && pcs[t].Reads(p) :: !pcs[u].Reads(p))
  }

  ghost predicate Written<T>(pcs: map<nat, Pc<T>>, p: int) { exists th | th in pcs :: pcs[th].Writes(p) }
  ghost predicate BeingRead<T>(pcs: map<nat, Pc<T>>, p: int) { exists th | th in pcs :: pcs[th].Reads(p) }

  /** What has been returned was enqueued with the same ticket; a claimed ticket is returned, or a
      thread is about to return it. */
  ghost predicate GotOk<T>(s: State<T>)
    requires Counters(s)
  {
    && (forall p | p in s.got :: 0 <= p < s.deq && s.got[p] == s.put[p])
    && (forall p | 0 <= p < s.deq :: p in s.got || BeingRead(s.pcs, p))
  }

  /** An unpublished ticket has a thread that will publish it. */
  ghost predicate Pending<T>(s: State<T>)
    requires Counters(s)
  {
    forall p | 0 <= p < s.enq && s.At(p).sequence == p :: Written(s.pcs, p)
  }

  ghost predicate Inv<T>(s: State<T>) {
    && Counters(s) && CellsOk(s) && Passed(s) && PcsOk(s) && Unique(s.pcs)
    && GotOk(s) && Pending(s)
  }
}
