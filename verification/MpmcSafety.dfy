/**
  Every interleaving of producers and consumers keeps the invariant of the queue; FIFO order,
  exactly-once delivery and the meaning of a failed call follow.
 */
module MpmcSafety {
  import opened MpmcQueue

  /** Two tickets less than a lap apart use different cells. */
  lemma DifferentCells(p: int, q: int, n: nat)
    requires n > 0 && p != q && p < q + n && q < p + n
    ensures Slot(p, n) != Slot(q, n)
  {
    if p < q { SlotNext(p, q, n); } else { SlotNext(q, p, n); }
  }

  /** One thread moves to `pc`, and takes nothing that another one owns. */
  lemma UniqueTo<T>(pcs: map<nat, Pc<T>>, th: nat, pc: Pc<T>)
    requires Unique(pcs)
    requires forall u, p | u in pcs && u != th && pc.Writes(p) :: !pcs[u].Writes(p)
    requires forall u, p | u in pcs && u != th && pc.Reads(p) :: !pcs[u].Reads(p)
    ensures Unique(pcs[th := pc])
  {
  }

  /** The parts of the invariant that do not look at threads. */
  ghost predicate CoreOk<T>(s: State<T>) { Counters(s) && CellsOk(s) && Passed(s) }

  lemma CoreSame<T>(s: State<T>, s': State<T>)
    requires CoreOk(s) && s'.cells == s.cells && s'.enq == s.enq && s'.deq == s.deq && s'.put == s.put
    ensures CoreOk(s')
  {
    forall q | s'.enq <= q < s'.enq + |s'.cells| ensures CellOk(s', q) { assert CellOk(s, q); }
    assert forall p :: s'.At(p) == s.At(p);
  }

  /** Only the program counter of one thread moves, and it owns what it owned before. */
  lemma LocalStep<T>(s: State<T>, th: nat, pc: Pc<T>)
    requires Inv(s) && PcOk(s, pc)
    requires forall p :: (pc.Writes(p) <==> s.PcOf(th).Writes(p)) && (pc.Reads(p) <==> s.PcOf(th).Reads(p))
    ensures Inv(To(s, th, pc))
  {
    var s' := To(s, th, pc);
    CoreSame(s, s');
    LocalPcs(s, th, pc);
    UniqueTo(s.pcs, th, pc);
    hide CellsOk, Passed, PcsOk, PcOk, Unique, Written, BeingRead;
    ThreadsAfter(s, s', th, pc);
  }

  lemma LocalPcs<T>(s: State<T>, th: nat, pc: Pc<T>)
    requires Counters(s) && PcsOk(s) && PcOk(s, pc)
    ensures PcsOk(To(s, th, pc))
  {
    var s' := To(s, th, pc);
    forall h | h in s'.pcs ensures PcOk(s', s'.pcs[h]) {
      PcSame(s, s', s'.pcs[h]);
    }
  }

  lemma PcSame<T>(s: State<T>, s': State<T>, pc: Pc<T>)
    requires Counters(s) && PcOk(s, pc)
    requires s'.cells == s.cells && s'.enq == s.enq && s'.deq == s.deq && s'.put == s.put && s'.got == s.got
    ensures PcOk(s', pc)
  {
  }

  // ---------------------------------------------------------------------------------------------
  // Claiming a ticket to enqueue

  /** The sequence read earlier shows that the cell is free for the next ticket. */
  lemma FreeCell<T>(s: State<T>, pos: int, seqn: int)
    requires CoreOk(s) && pos == s.enq && seqn == pos && seqn <= s.At(pos).sequence
    ensures s.At(pos).sequence == pos && s.enq < s.deq + |s.cells|
  {
    assert CellOk(s, pos);
  }

  lemma ClaimCore<T>(s: State<T>, d: T)
    requires CoreOk(s) && s.At(s.enq).sequence == s.enq && s.enq < s.deq + |s.cells|
    ensures CoreOk(s.(enq := s.enq + 1, put := s.put + [d]))
  {
    var s', n := s.(enq := s.enq + 1, put := s.put + [d]), |s.cells|;
    forall q | s'.enq <= q < s'.enq + n ensures CellOk(s', q) {
      if q < s.enq + n { assert CellOk(s, q); } else { SlotAgain(s.enq, n); }
    }
    assert forall p :: s'.At(p) == s.At(p);
  }

  lemma ClaimPc<T>(s: State<T>, d: T, pc: Pc<T>)
    requires CoreOk(s) && s.At(s.enq).sequence == s.enq && s.enq < s.deq + |s.cells| && PcOk(s, pc)
    ensures PcOk(s.(enq := s.enq + 1, put := s.put + [d]), pc)
    ensures !pc.Writes(s.enq)
  {
    if pc.EnqWrite? || pc.EnqPublish? || pc.DeqRead? || pc.DeqRelease? {
      SlotAgain(pc.pos, |s.cells|);
    }
  }

  lemma ClaimStep<T>(s: State<T>, th: nat, d: T, pos: int, seqn: int)
    requires Inv(s) && s.PcOf(th) == EnqTry(d, pos, seqn) && seqn == pos == s.enq
    ensures Inv(To(s.(enq := pos + 1, put := s.put + [d]), th, EnqWrite(d, pos)))
  {
    var m, pc := s.(enq := pos + 1, put := s.put + [d]), EnqWrite(d, pos);
    var s' := To(m, th, pc);
    assert th in s.pcs && PcOk(s, s.pcs[th]);
    FreeCell(s, pos, seqn);
    ClaimCore(s, d);
    CoreSame(m, s');
    forall h | h in s.pcs ensures PcOk(m, s.pcs[h]) && !s.pcs[h].Writes(pos) { ClaimPc(s, d, s.pcs[h]); }
    LocalPcs(m, th, pc);
    UniqueTo(s.pcs, th, pc);
    hide CellsOk, Passed, PcsOk, PcOk, Unique, Written, BeingRead;
    ThreadsAfter(s, s', th, pc);
    WrittenBy(s'.pcs, th, pos);
  }

  lemma WrittenBy<T>(pcs: map<nat, Pc<T>>, th: nat, p: int)
    requires th in pcs
    ensures pcs[th].Writes(p) ==> Written(pcs, p)
    ensures pcs[th].Reads(p) ==> BeingRead(pcs, p)
  {
  }

  /** Ownership of the tickets that `th` does not give up. */
  lemma ThreadsAfter<T>(s: State<T>, s': State<T>, th: nat, pc: Pc<T>)
    requires s'.pcs == s.pcs[th := pc]
    ensures forall p | !s.PcOf(th).Writes(p) || pc.Writes(p) :: Written(s.pcs, p) ==> Written(s'.pcs, p)
    ensures forall p | !s.PcOf(th).Reads(p) || pc.Reads(p) :: BeingRead(s.pcs, p) ==> BeingRead(s'.pcs, p)
  {
    forall p | !s.PcOf(th).Writes(p) || pc.Writes(p) ensures Written(s.pcs, p) ==> Written(s'.pcs, p) {
      if Written(s.pcs, p) {
        var u :| u in s.pcs && s.pcs[u].Writes(p);
        assert u in s'.pcs && s'.pcs[u].Writes(p);
      }
    }
    forall p | !s.PcOf(th).Reads(p) || pc.Reads(p) ensures BeingRead(s.pcs, p) ==> BeingRead(s'.pcs, p) {
      if BeingRead(s.pcs, p) {
        var u :| u in s.pcs && s.pcs[u].Reads(p);
        assert u in s'.pcs && s'.pcs[u].Reads(p);
      }
    }
  }

  // ---------------------------------------------------------------------------------------------
  // Writing to the cell of an owned ticket

  lemma AtWith<T>(s: State<T>, pos: int, c: Cell<T>)
    requires |s.cells| > 0
    ensures var s' := WithCell(s, pos, c); |s'.cells| == |s.cells| && forall p ::
      s'.At(p) == if Slot(p, |s.cells|) == Slot(pos, |s.cells|) then c else s.At(p)
  {
  }

  /** The next user of the cell of `pos`. */
  lemma NextUser<T>(s: State<T>, pos: int, q: int)
    requires Counters(s) && 0 <= pos < s.enq <= pos + |s.cells| && s.enq <= q < s.enq + |s.cells|
    ensures Slot(q, |s.cells|) == Slot(pos, |s.cells|) <==> q == pos + |s.cells|
  {
    SlotAgain(pos, |s.cells|);
    if q != pos + |s.cells| { DifferentCells(q, pos + |s.cells|, |s.cells|); }
  }

  lemma WriteCore<T>(s: State<T>, d: T, pos: int)
    requires CoreOk(s) && PcOk(s, EnqWrite(d, pos))
    ensures CoreOk(WithCell(s, pos, s.At(pos).(data := d)))
  {
    hide Slot;
    var s' := WithCell(s, pos, s.At(pos).(data := d));
    AtWith(s, pos, s.At(pos).(data := d));
    assert forall p :: s'.At(p).sequence == s.At(p).sequence;
    forall q | s'.enq <= q < s'.enq + |s'.cells| ensures CellOk(s', q) {
      assert CellOk(s, q);
      NextUser(s, pos, q);
    }
  }

  lemma WritePc<T>(s: State<T>, d: T, pos: int, pc: Pc<T>)
    requires CoreOk(s) && PcOk(s, EnqWrite(d, pos)) && PcOk(s, pc) && !pc.Writes(pos)
    ensures PcOk(WithCell(s, pos, s.At(pos).(data := d)), pc)
  {
    AtWith(s, pos, s.At(pos).(data := d));
    if pc.EnqWrite? || pc.EnqPublish? || pc.DeqRead? || pc.DeqRelease? {
      DifferentCells(pc.pos, pos, |s.cells|);
    }
  }

  lemma WriteStep<T>(s: State<T>, th: nat, d: T, pos: int)
    requires Inv(s) && s.PcOf(th) == EnqWrite(d, pos)
    ensures Inv(To(WithCell(s, pos, s.At(pos).(data := d)), th, EnqPublish(pos)))
  {
    var m, pc := WithCell(s, pos, s.At(pos).(data := d)), EnqPublish(pos);
    var s' := To(m, th, pc);
    assert th in s.pcs && PcOk(s, s.pcs[th]) && s.pcs[th].Writes(pos);
    hide Slot;
    AtWith(s, pos, s.At(pos).(data := d));
    assert forall p :: s'.At(p).sequence == s.At(p).sequence;
    WriteCore(s, d, pos);
    CoreSame(m, s');
    forall h | h in s'.pcs ensures PcOk(s', s'.pcs[h]) {
      if h != th {
        WritePc(s, d, pos, s.pcs[h]);
        PcSame(m, s', s.pcs[h]);
      }
    }
    UniqueTo(s.pcs, th, pc);
    hide CellsOk, Passed, PcOk, Unique, Written, BeingRead;
    ThreadsAfter(s, s', th, pc);
  }

  lemma PublishCore<T>(s: State<T>, pos: int)
    requires CoreOk(s) && PcOk(s, EnqPublish(pos))
    ensures CoreOk(WithCell(s, pos, s.At(pos).(sequence := pos + 1)))
  {
    hide Slot;
    var s' := WithCell(s, pos, s.At(pos).(sequence := pos + 1));
    AtWith(s, pos, s.At(pos).(sequence := pos + 1));
    forall q | s'.enq <= q < s'.enq + |s'.cells| ensures CellOk(s', q) {
      assert CellOk(s, q);
      NextUser(s, pos, q);
    }
    forall p | 0 <= p < s'.enq ensures p <= s'.At(p).sequence && (p < s'.deq ==> p < s'.At(p).sequence) {
      assert p <= s.At(p).sequence;
    }
  }

  lemma PublishPc<T>(s: State<T>, pos: int, pc: Pc<T>)
    requires CoreOk(s) && PcOk(s, EnqPublish(pos)) && PcOk(s, pc) && !pc.Writes(pos)
    ensures PcOk(WithCell(s, pos, s.At(pos).(sequence := pos + 1)), pc)
  {
    AtWith(s, pos, s.At(pos).(sequence := pos + 1));
    if pc.EnqWrite? || pc.EnqPublish? || pc.DeqRead? || pc.DeqRelease? {
      DifferentCells(pc.pos, pos, |s.cells|);
    }
  }

  lemma PublishStep<T>(s: State<T>, th: nat, pos: int)
    requires Inv(s) && s.PcOf(th) == EnqPublish(pos)
    ensures Inv(To(WithCell(s, pos, s.At(pos).(sequence := pos + 1)), th, Idle))
  {
    var m := WithCell(s, pos, s.At(pos).(sequence := pos + 1));
    var s' := To(m, th, Idle);
    assert th in s.pcs && PcOk(s, s.pcs[th]) && s.pcs[th].Writes(pos);
    AtWith(s, pos, s.At(pos).(sequence := pos + 1));
    PublishCore(s, pos);
    CoreSame(m, s');
    forall h | h in s'.pcs ensures PcOk(s', s'.pcs[h]) {
      if h != th {
        PublishPc(s, pos, s.pcs[h]);
        PcSame(m, s', s.pcs[h]);
      }
    }
    UniqueTo(s.pcs, th, Idle);
    hide CellsOk, Passed, PcOk, Unique, Written, BeingRead;
    ThreadsAfter(s, s', th, Idle);
    forall p | 0 <= p < s'.enq && s'.At(p).sequence == p ensures Written(s'.pcs, p) {
      if Slot(p, |s.cells|) == Slot(pos, |s.cells|) {
        DifferentCells(p, pos, |s.cells|);
      }
    }
  }

  // ---------------------------------------------------------------------------------------------
  // Dequeuing

  /** The sequence read earlier shows that the head ticket is published. */
  lemma PublishedCell<T>(s: State<T>, pos: int, seqn: int)
    requires CoreOk(s) && pos == s.deq && seqn == pos + 1 && seqn <= s.At(pos).sequence
    ensures s.At(pos).sequence == pos + 1 && pos < s.enq && s.At(pos).data == s.put[pos]
  {
    SlotAgain(pos, |s.cells|);
    assert pos == s.enq ==> CellOk(s, pos);
    assert pos < s.enq ==> CellOk(s, pos + |s.cells|);
  }

  lemma TakeCore<T>(s: State<T>)
    requires CoreOk(s) && s.deq < s.enq && s.At(s.deq).sequence == s.deq + 1
    ensures CoreOk(s.(deq := s.deq + 1))
  {
    hide Slot;
    var s', n := s.(deq := s.deq + 1), |s.cells|;
    forall q | s'.enq <= q < s'.enq + n ensures CellOk(s', q) {
      assert CellOk(s, q);
      NextUser(s, s.deq, q);
    }
    assert forall p :: s'.At(p) == s.At(p);
  }

  lemma TakePc<T>(s: State<T>, pc: Pc<T>)
    requires CoreOk(s) && s.deq < s.enq && s.At(s.deq).sequence == s.deq + 1 && PcOk(s, pc)
    ensures PcOk(s.(deq := s.deq + 1), pc) && !pc.Reads(s.deq)
  {
  }

  lemma TakeStep<T>(s: State<T>, th: nat, pos: int, seqn: int)
    requires Inv(s) && s.PcOf(th) == DeqTry(pos, seqn) && seqn == pos + 1 && s.deq == pos
    ensures Inv(To(s.(deq := pos + 1), th, DeqRead(pos)))
  {
    var m, pc := s.(deq := pos + 1), DeqRead(pos);
    var s' := To(m, th, pc);
    assert th in s.pcs && PcOk(s, s.pcs[th]);
    PublishedCell(s, pos, seqn);
    TakeCore(s);
    CoreSame(m, s');
    forall h | h in s.pcs ensures PcOk(m, s.pcs[h]) && !s.pcs[h].Reads(pos) { TakePc(s, s.pcs[h]); }
    LocalPcs(m, th, pc);
    UniqueTo(s.pcs, th, pc);
    hide CellsOk, Passed, PcsOk, PcOk, Unique, Written, BeingRead;
    ThreadsAfter(s, s', th, pc);
    WrittenBy(s'.pcs, th, pos);
  }

  function Released<T>(s: State<T>, pos: int, v: T): State<T>
    requires |s.cells| > 0
  {
    WithCell(s, pos, s.At(pos).(sequence := pos + |s.cells|)).(got := s.got[pos := v])
  }

  lemma ReleaseCore<T>(s: State<T>, pos: int, v: T)
    requires CoreOk(s) && PcOk(s, DeqRelease(pos, v))
    ensures CoreOk(Released(s, pos, v))
  {
    hide Slot;
    var s', c := Released(s, pos, v), s.At(pos).(sequence := pos + |s.cells|);
    AtWith(s, pos, c);
    assert forall p :: s'.At(p) == WithCell(s, pos, c).At(p);
    forall q | s'.enq <= q < s'.enq + |s'.cells| ensures CellOk(s', q) {
      assert CellOk(s, q);
      NextUser(s, pos, q);
    }
    forall p | 0 <= p < s'.enq ensures p <= s'.At(p).sequence && (p < s'.deq ==> p < s'.At(p).sequence) {
      assert p <= s.At(p).sequence;
    }
  }

  lemma ReleasePc<T>(s: State<T>, pos: int, v: T, pc: Pc<T>)
    requires CoreOk(s) && PcOk(s, DeqRelease(pos, v)) && PcOk(s, pc) && !pc.Reads(pos)
    ensures PcOk(Released(s, pos, v), pc)
  {
    var s', c := Released(s, pos, v), s.At(pos).(sequence := pos + |s.cells|);
    AtWith(s, pos, c);
    assert forall p :: s'.At(p) == WithCell(s, pos, c).At(p);
    if pc.EnqWrite? || pc.EnqPublish? || pc.DeqRead? || pc.DeqRelease? {
      DifferentCells(pc.pos, pos, |s.cells|);
    }
  }

  lemma ReleaseStep<T>(s: State<T>, th: nat, pos: int, v: T)
    requires Inv(s) && s.PcOf(th) == DeqRelease(pos, v)
    ensures Inv(To(Released(s, pos, v), th, Idle))
  {
    var m, c := Released(s, pos, v), s.At(pos).(sequence := pos + |s.cells|);
    var s' := To(m, th, Idle);
    assert th in s.pcs && PcOk(s, s.pcs[th]) && s.pcs[th].Reads(pos);
    AtWith(s, pos, c);
    assert forall p :: s'.At(p) == WithCell(s, pos, c).At(p);
    ReleaseCore(s, pos, v);
    CoreSame(m, s');
    forall h | h in s'.pcs ensures PcOk(s', s'.pcs[h]) {
      if h != th {
        ReleasePc(s, pos, v, s.pcs[h]);
        PcSame(m, s', s.pcs[h]);
      }
    }
    UniqueTo(s.pcs, th, Idle);
    hide CellsOk, Passed, PcOk, Unique, Written, BeingRead;
    ThreadsAfter(s, s', th, Idle);
  }

  // ---------------------------------------------------------------------------------------------
  // Runs

  lemma StepInv<T>(s: State<T>, th: nat, a: Action<T>)
    requires Inv(s)
    ensures Inv(Step(s, th, a))
  {
    hide Inv;
    match s.PcOf(th)
    case EnqTry(d, pos, seqn) =>
      if seqn == pos && s.enq == pos && !(a.Go? && a.spurious) {
        ClaimStep(s, th, d, pos, seqn);
      } else {
        BackOff(s, th);
      }
    case EnqWrite(d, pos) => WriteStep(s, th, d, pos);
    case EnqPublish(pos) => PublishStep(s, th, pos);
    case DeqTry(pos, seqn) =>
      if seqn == pos + 1 && s.deq == pos && !(a.Go? && a.spurious) {
        TakeStep(s, th, pos, seqn);
      } else {
        BackOff(s, th);
      }
    case DeqRelease(pos, v) => ReleaseStep(s, th, pos, v);
    case _ => QuietStep(s, th, a);
  }

  ghost predicate Owner<T>(pc: Pc<T>) { pc.EnqWrite? || pc.EnqPublish? || pc.DeqRead? || pc.DeqRelease? }

  lemma FreeStep<T>(s: State<T>, th: nat, pc: Pc<T>)
    requires Inv(s) && PcOk(s, pc) && !Owner(pc) && !Owner(s.PcOf(th))
    ensures Inv(To(s, th, pc))
  {
    LocalStep(s, th, pc);
  }

  /** Giving up an attempt, for good or for another one. */
  lemma BackOff<T>(s: State<T>, th: nat)
    requires Inv(s) && !Owner(s.PcOf(th))
    ensures Inv(To(s, th, Idle)) && Inv(To(s, th, DeqLoad)) && Inv(To(s, th, DeqSeq(s.deq)))
    ensures forall d :: Inv(To(s, th, EnqLoad(d))) && Inv(To(s, th, EnqSeq(d, s.enq)))
  {
    FreeStep(s, th, Idle);
    FreeStep(s, th, DeqLoad);
    FreeStep(s, th, DeqSeq(s.deq));
    forall d ensures Inv(To(s, th, EnqLoad(d))) && Inv(To(s, th, EnqSeq(d, s.enq))) {
      FreeStep(s, th, EnqLoad(d));
      FreeStep(s, th, EnqSeq(d, s.enq));
    }
  }

  lemma QuietStep<T>(s: State<T>, th: nat, a: Action<T>)
    requires Inv(s)
    requires var pc := s.PcOf(th);
      pc.Idle? || pc.EnqLoad? || pc.EnqSeq? || pc.DeqLoad? || pc.DeqSeq? || pc.DeqRead?
    ensures Inv(Step(s, th, a))
  {
    assert PcOk(s, s.PcOf(th)) by { if th in s.pcs { assert PcOk(s, s.pcs[th]); } }
    hide Inv;
    match s.PcOf(th)
    case EnqSeq(d, pos) => FreeStep(s, th, EnqTry(d, pos, s.At(pos).sequence));
    case DeqSeq(pos) => FreeStep(s, th, DeqTry(pos, s.At(pos).sequence));
    case DeqRead(pos) => LocalStep(s, th, DeqRelease(pos, s.At(pos).data));
    case _ => BackOff(s, th);
  }

  lemma {:induction false} RunInv<T>(n: nat, blank: T, run: seq<(nat, Action<T>)>)
    requires n >= 2
    ensures Inv(After(n, blank, run))
  {
    if run == [] {
      var s := Initial(n, blank);
      forall q | s.enq <= q < s.enq + |s.cells| ensures CellOk(s, q) {
        assert Slot(q, n) == q;
      }
    } else {
      RunInv(n, blank, run[..|run| - 1]);
      StepInv(After(n, blank, run[..|run| - 1]), run[|run| - 1].0, run[|run| - 1].1);
    }
  }

  // ---------------------------------------------------------------------------------------------
  // What every run guarantees

  /** The queue never holds more than N tickets, and no two threads are at work in one cell. */
  lemma OwnersAreApart<T>(n: nat, blank: T, run: seq<(nat, Action<T>)>, t: nat, u: nat)
    requires n >= 2 && t != u
    ensures var s := After(n, blank, run);
      && 0 <= s.deq <= s.enq <= s.deq + n
      && (Owner(s.PcOf(t)) && Owner(s.PcOf(u)) ==> Slot(s.PcOf(t).pos, n) != Slot(s.PcOf(u).pos, n))
  {
    RunInv(n, blank, run);
    var s := After(n, blank, run);
    if Owner(s.PcOf(t)) && Owner(s.PcOf(u)) {
      var a, b := s.pcs[t], s.pcs[u];
      assert PcOk(s, a) && PcOk(s, b);
      assert a.Writes(a.pos) || a.Reads(a.pos);
      assert a.pos != b.pos;
      DifferentCells(a.pos, b.pos, n);
    }
  }

  /** The value returned for ticket p is the value enqueued with ticket p, and when it is about to be
      returned it has not been returned before. */
  lemma DeliveredOnce<T>(n: nat, blank: T, run: seq<(nat, Action<T>)>, p: int, th: nat)
    requires n >= 2
    ensures var s := After(n, blank, run);
      && (p in s.got ==> 0 <= p < s.deq <= |s.put| && s.got[p] == s.put[p])
      && (s.PcOf(th).DeqRelease? && s.PcOf(th).pos == p ==>
            p !in s.got && 0 <= p < |s.put| && s.PcOf(th).value == s.put[p])
  {
    RunInv(n, blank, run);
    var s := After(n, blank, run);
    if th in s.pcs { assert PcOk(s, s.pcs[th]); }
  }

  /** History is only ever extended: tickets keep their values, and returned values stay. */
  lemma HistoryGrows<T>(s: State<T>, th: nat, a: Action<T>)
    requires Inv(s)
    ensures var s' := Step(s, th, a);
      && s.put <= s'.put && s.enq <= s'.enq && s.deq <= s'.deq
      && (forall p | p in s.got :: p in s'.got && s'.got[p] == s.got[p])
  {
    if th in s.pcs { assert PcOk(s, s.pcs[th]); }
  }

  /** Positions never fall along a run. */
  lemma {:induction false} PositionsGrow<T>(n: nat, blank: T, run: seq<(nat, Action<T>)>, i: nat, j: nat)
    requires n >= 2 && i <= j <= |run|
    ensures var s, s' := After(n, blank, run[..i]), After(n, blank, run[..j]); s.enq <= s'.enq && s.deq <= s'.deq
    decreases j
  {
    if i < j {
      PositionsGrow(n, blank, run, i, j - 1);
      RunInv(n, blank, run[..j - 1]);
      AfterNext(n, blank, run, j);
      HistoryGrows(After(n, blank, run[..j - 1]), run[j - 1].0, run[j - 1].1);
    }
  }

  lemma AfterNext<T>(n: nat, blank: T, run: seq<(nat, Action<T>)>, j: nat)
    requires n > 0 && 0 < j <= |run|
    ensures After(n, blank, run[..j]) == Step(After(n, blank, run[..j - 1]), run[j - 1].0, run[j - 1].1)
  {
    assert run[..j][..j - 1] == run[..j - 1];
  }

  /** A step makes its thread the owner of the next ticket only. */
  lemma TicketIsNext<T>(s: State<T>, th: nat, a: Action<T>, u: nat, q: int)
    requires |s.cells| > 0
    ensures Step(s, th, a).PcOf(u).Writes(q) ==> s.PcOf(u).Writes(q) || q == s.enq
    ensures Step(s, th, a).PcOf(u).Reads(q) ==> s.PcOf(u).Reads(q) || q == s.deq
  {
  }

  /** Whoever has no ticket yet gets one that is not handed out yet. */
  lemma {:induction false} TicketsRise<T>(n: nat, blank: T, run: seq<(nat, Action<T>)>, j: nat, k: nat, u: nat, q: int)
    requires n >= 2 && j <= k <= |run| && !Owner(After(n, blank, run[..j]).PcOf(u))
    ensures After(n, blank, run[..k]).PcOf(u).Writes(q) ==> After(n, blank, run[..j]).enq <= q
    ensures After(n, blank, run[..k]).PcOf(u).Reads(q) ==> After(n, blank, run[..j]).deq <= q
    decreases k
  {
    hide Step;
    if j < k {
      TicketsRise(n, blank, run, j, k - 1, u, q);
      PositionsGrow(n, blank, run, j, k - 1);
      AfterNext(n, blank, run, k);
      TicketIsNext(After(n, blank, run[..k - 1]), run[k - 1].0, run[k - 1].1, u, q);
    }
  }

  /** Real-time order: when one call has its ticket before another call of the same kind begins, it has the smaller
      one. Hence values are enqueued, and returned, in the order of calls that do not overlap. */
  lemma CallsKeepOrder<T>(n: nat, blank: T, run: seq<(nat, Action<T>)>, i: nat, j: nat, k: nat, t: nat, u: nat, p: int,
                          q: int)
    requires n >= 2 && i <= j <= k <= |run| && After(n, blank, run[..j]).PcOf(u).Idle?
    ensures After(n, blank, run[..i]).PcOf(t).Writes(p) && After(n, blank, run[..k]).PcOf(u).Writes(q) ==> p < q
    ensures After(n, blank, run[..i]).PcOf(t).Reads(p) && After(n, blank, run[..k]).PcOf(u).Reads(q) ==> p < q
  {
    hide After;
    RunInv(n, blank, run[..i]);
    TicketTaken(After(n, blank, run[..i]), t, p);
    PositionsGrow(n, blank, run, i, j);
    TicketsRise(n, blank, run, j, k, u, q);
  }

  lemma TicketTaken<T>(s: State<T>, t: nat, p: int)
    requires Inv(s)
    ensures s.PcOf(t).Writes(p) ==> p < s.enq
    ensures s.PcOf(t).Reads(p) ==> p < s.deq
  {
    if t in s.pcs { assert PcOk(s, s.pcs[t]); }
  }

  /** Conservation: when no call is in progress, the tickets below `deq` have all been returned, in
      order, and those from there on are in the cells, in order; nothing is lost or repeated. */
  lemma QuiescentQueue<T>(n: nat, blank: T, run: seq<(nat, Action<T>)>)
    requires n >= 2 && forall th :: After(n, blank, run).PcOf(th).Idle?
    ensures var s := After(n, blank, run);
      && 0 <= s.deq <= s.enq == |s.put|
      && (forall p :: p in s.got <==> 0 <= p < s.deq)
      && (forall p | 0 <= p < s.deq :: s.got[p] == s.put[p])
      && (forall p | s.deq <= p < s.enq :: s.At(p).sequence == p + 1 && s.At(p).data == s.put[p])
  {
    RunInv(n, blank, run);
    var s := After(n, blank, run);
    forall th | th in s.pcs ensures s.pcs[th].Idle? { assert s.PcOf(th).Idle?; }
    forall p | s.deq <= p < s.enq ensures s.At(p).sequence == p + 1 && s.At(p).data == s.put[p] {
      SlotAgain(p, n);
      assert CellOk(s, p + n);
    }
  }

  /** The cell of a returned ticket has been released. */
  ghost predicate GotReleased<T>(s: State<T>)
    requires |s.cells| > 0
  {
    forall p | p in s.got :: s.At(p).sequence >= p + |s.cells|
  }

  /** The sequence of the cell of `pos` rises. */
  lemma SequenceRises<T>(s: State<T>, pos: int, c: Cell<T>)
    requires |s.cells| > 0 && GotReleased(s) && c.sequence >= s.At(pos).sequence
    ensures GotReleased(WithCell(s, pos, c))
  {
    AtWith(s, pos, c);
  }

  lemma ReleaseReleases<T>(s: State<T>, pos: int, v: T)
    requires |s.cells| > 0 && GotReleased(s) && s.At(pos).sequence <= pos + |s.cells|
    ensures GotReleased(Released(s, pos, v))
  {
    var c := s.At(pos).(sequence := pos + |s.cells|);
    SequenceRises(s, pos, c);
    AtWith(s, pos, c);
  }

  lemma StepReleases<T>(s: State<T>, th: nat, a: Action<T>)
    requires Inv(s) && GotReleased(s)
    ensures GotReleased(Step(s, th, a))
  {
    var pc := s.PcOf(th);
    if th in s.pcs { assert PcOk(s, pc); }
    hide Inv, PcOk, CellsOk, Passed, PcsOk, Unique, GotOk, Pending, WithCell, Slot;
    if pc.EnqWrite? {
      SequenceRises(s, pc.pos, s.At(pc.pos).(data := pc.data));
    } else if pc.EnqPublish? {
      SequenceRises(s, pc.pos, s.At(pc.pos).(sequence := pc.pos + 1));
    } else if pc.DeqRelease? {
      ReleaseReleases(s, pc.pos, pc.value);
    }
  }

  lemma {:induction false} RunReleases<T>(n: nat, blank: T, run: seq<(nat, Action<T>)>)
    requires n >= 2
    ensures GotReleased(After(n, blank, run))
  {
    if run != [] {
      RunReleases(n, blank, run[..|run| - 1]);
      RunInv(n, blank, run[..|run| - 1]);
      var (th, a) := run[|run| - 1];
      StepReleases(After(n, blank, run[..|run| - 1]), th, a);
    }
  }

  /** A producer reads a sequence below its position exactly when the position is current, N tickets are
      claimed, and the value of the oldest of them has not been returned. */
  lemma FullAtRead<T>(n: nat, blank: T, run: seq<(nat, Action<T>)>, th: nat)
    requires n >= 2 && After(n, blank, run).PcOf(th).EnqSeq?
    ensures var s := After(n, blank, run); var pos := s.PcOf(th).pos;
      s.At(pos).sequence < pos <==> pos == s.enq >= n && s.enq - n !in s.got
  {
    RunInv(n, blank, run);
    RunReleases(n, blank, run);
    EnqAttempt(After(n, blank, run), th);
    hide After;
    FullCell(After(n, blank, run), After(n, blank, run).PcOf(th).pos);
  }

  lemma EnqAttempt<T>(s: State<T>, th: nat)
    requires Inv(s) && s.PcOf(th).EnqSeq?
    ensures CoreOk(s) && 0 <= s.PcOf(th).pos <= s.enq
  {
    assert PcOk(s, s.pcs[th]);
  }

  lemma FullCell<T>(s: State<T>, pos: int)
    requires Inv(s) && GotReleased(s) && 0 <= pos <= s.enq
    ensures s.At(pos).sequence < pos <==> pos == s.enq >= |s.cells| && s.enq - |s.cells| !in s.got
  {
    var p := s.enq - |s.cells|;
    SlotAgain(p, |s.cells|);
    assert CellOk(s, s.enq);
    if BeingRead(s.pcs, p) {
      var th :| th in s.pcs && s.pcs[th].Reads(p);
      assert PcOk(s, s.pcs[th]);
    }
  }

  /** A consumer reads a sequence at or below its position exactly when the position is current and the
      head ticket is not published: unclaimed, or claimed and still being written. */
  lemma EmptyAtRead<T>(n: nat, blank: T, run: seq<(nat, Action<T>)>, th: nat)
    requires n >= 2 && After(n, blank, run).PcOf(th).DeqSeq?
    ensures var s := After(n, blank, run); var pos := s.PcOf(th).pos;
      s.At(pos).sequence < pos + 1 <==>
        pos == s.deq && (s.deq == s.enq || exists w | w in s.pcs :: s.pcs[w].Writes(s.deq))
  {
    RunInv(n, blank, run);
    var s := After(n, blank, run);
    var pos := s.PcOf(th).pos;
    assert PcOk(s, s.pcs[th]);
    if s.deq == s.enq {
      assert CellOk(s, s.deq);
    } else {
      if exists w | w in s.pcs :: s.pcs[w].Writes(s.deq) {
        var w :| w in s.pcs && s.pcs[w].Writes(s.deq);
        assert PcOk(s, s.pcs[w]);
      }
      if pos == s.deq && s.At(pos).sequence < pos + 1 { assert Written(s.pcs, pos); }
    }
  }
}
