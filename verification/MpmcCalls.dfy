/**
  Whole calls of the queue, from the first step to the return: what `enqueue` puts in, what `dequeue` gives
  out, and when either of them returns false.
 */
module MpmcCalls {
  import opened MpmcQueue
  import opened MpmcSafety

  // ---------------------------------------------------------------------------------------------
  // Calls among others

  /** A thread in the middle of `enqueue(v)`; once it has a ticket, that is the ticket of `v`. */
  ghost predicate Enqueuing<T>(s: State<T>, pc: Pc<T>, v: T) {
    match pc
    case EnqLoad(d) => d == v
    case EnqSeq(d, _) => d == v
    case EnqTry(d, _, _) => d == v
    case EnqWrite(d, pos) => d == v && 0 <= pos < |s.put| && s.put[pos] == v
    case EnqPublish(pos) => 0 <= pos < |s.put| && s.put[pos] == v
    case _ => false
  }

  predicate Dequeuing<T>(pc: Pc<T>) { pc.DeqLoad? || pc.DeqSeq? || pc.DeqTry? || pc.DeqRead? || pc.DeqRelease? }

  lemma StepEnqueuing<T>(s: State<T>, th: nat, a: Action<T>, u: nat, v: T)
    requires Inv(s) && Enqueuing(s, s.PcOf(u), v)
    ensures var s' := Step(s, th, a); Enqueuing(s', s'.PcOf(u), v) || (th == u && s'.PcOf(u).Idle?)
  {
    hide Inv;
    InvCounters(s);
    HistoryGrows(s, th, a);
  }

  lemma InvCounters<T>(s: State<T>)
    requires Inv(s)
    ensures Counters(s)
  {
  }

  lemma StepDequeuing<T>(s: State<T>, th: nat, a: Action<T>, u: nat)
    requires |s.cells| > 0 && Dequeuing(s.PcOf(u))
    ensures var s' := Step(s, th, a); Dequeuing(s'.PcOf(u)) || (th == u && s'.PcOf(u).Idle?)
  {
  }

  /** The thread is not idle after any of the steps from `i` on, up to `k`. */
  ghost predicate Busy<T>(n: nat, blank: T, run: seq<(nat, Action<T>)>, i: nat, k: nat, th: nat)
    requires n > 0 && k <= |run|
  {
    forall j | i < j <= k :: !After(n, blank, run[..j]).PcOf(th).Idle?
  }

  /** Until it returns, a call of `enqueue(v)` works for `v`. */
  lemma {:induction false} EnqueueWorks<T>(n: nat, blank: T, run: seq<(nat, Action<T>)>, i: nat, k: nat, th: nat, v: T)
    requires n >= 2 && i < k <= |run| && run[i] == (th, Enqueue(v)) && Busy(n, blank, run, i, k, th)
    requires After(n, blank, run[..i]).PcOf(th).Idle?
    ensures var s := After(n, blank, run[..k]); Enqueuing(s, s.PcOf(th), v)
    decreases k
  {
    hide After, Inv, Step, Enqueuing;
    AfterNext(n, blank, run, k);
    RunInv(n, blank, run[..k - 1]);
    var s := After(n, blank, run[..k - 1]);
    assert !After(n, blank, run[..k]).PcOf(th).Idle?;
    if i + 1 < k {
      EnqueueWorks(n, blank, run, i, k - 1, th, v);
      StepEnqueuing(s, run[k - 1].0, run[k - 1].1, th, v);
    } else {
      Begins(s, th, v);
    }
  }

  lemma Begins<T>(s: State<T>, th: nat, v: T)
    requires |s.cells| > 0 && s.PcOf(th).Idle?
    ensures var s' := Step(s, th, Enqueue(v)); Enqueuing(s', s'.PcOf(th), v)
    ensures Dequeuing(Step(s, th, Dequeue).PcOf(th))
  {
  }

  /** Until it returns, a call of `dequeue` is one. */
  lemma {:induction false} DequeueWorks<T>(n: nat, blank: T, run: seq<(nat, Action<T>)>, i: nat, k: nat, th: nat)
    requires n >= 2 && i < k <= |run| && run[i] == (th, Dequeue) && Busy(n, blank, run, i, k, th)
    requires After(n, blank, run[..i]).PcOf(th).Idle?
    ensures Dequeuing(After(n, blank, run[..k]).PcOf(th))
    decreases k
  {
    hide After, Step, Dequeuing;
    AfterNext(n, blank, run, k);
    var s := After(n, blank, run[..k - 1]);
    assert !After(n, blank, run[..k]).PcOf(th).Idle?;
    if i + 1 < k {
      DequeueWorks(n, blank, run, i, k - 1, th);
      StepDequeuing(s, run[k - 1].0, run[k - 1].1, th);
    } else {
      Begins(s, th, blank);
    }
  }

  /** The value put in with the ticket of a call is the argument of that call. */
  lemma ArgumentIsPut<T>(n: nat, blank: T, run: seq<(nat, Action<T>)>, i: nat, k: nat, th: nat, v: T, p: int)
    requires n >= 2 && i < k <= |run| && run[i] == (th, Enqueue(v)) && Busy(n, blank, run, i, k, th)
    requires After(n, blank, run[..i]).PcOf(th).Idle? && After(n, blank, run[..k]).PcOf(th).Writes(p)
    ensures 0 <= p < |After(n, blank, run[..k]).put| && After(n, blank, run[..k]).put[p] == v
  {
    hide After;
    EnqueueWorks(n, blank, run, i, k, th, v);
  }

  /** So whatever is returned for that ticket, ever, is the argument of that call. */
  lemma ArgumentIsDelivered<T>(n: nat, blank: T, run: seq<(nat, Action<T>)>, i: nat, k: nat, m: nat, th: nat, v: T,
                               p: int)
    requires n >= 2 && i < k <= m <= |run| && run[i] == (th, Enqueue(v)) && Busy(n, blank, run, i, k, th)
    requires After(n, blank, run[..i]).PcOf(th).Idle? && After(n, blank, run[..k]).PcOf(th).Writes(p)
    requires p in After(n, blank, run[..m]).got
    ensures After(n, blank, run[..m]).got[p] == v
  {
    hide After;
    ArgumentIsPut(n, blank, run, i, k, th, v, p);
    PutKept(n, blank, run, k, m);
    DeliveredOnce(n, blank, run[..m], p, th);
  }

  lemma {:induction false} PutKept<T>(n: nat, blank: T, run: seq<(nat, Action<T>)>, i: nat, j: nat)
    requires n >= 2 && i <= j <= |run|
    ensures After(n, blank, run[..i]).put <= After(n, blank, run[..j]).put
    decreases j
  {
    hide After, Step, Inv;
    if i < j {
      PutKept(n, blank, run, i, j - 1);
      AfterNext(n, blank, run, j);
      RunInv(n, blank, run[..j - 1]);
      HistoryGrows(After(n, blank, run[..j - 1]), run[j - 1].0, run[j - 1].1);
    }
  }

  // ---------------------------------------------------------------------------------------------
  // Calls that return false

  /** The thread has read a sequence in step `j` and has not moved since, up to `k`. */
  ghost predicate Waits<T>(n: nat, blank: T, run: seq<(nat, Action<T>)>, j: nat, k: nat, th: nat)
    requires n > 0 && j < k <= |run|
  {
    && run[j].0 == th && (forall m | j < m < k :: run[m].0 != th)
  }

  lemma OthersStep<T>(s: State<T>, th: nat, a: Action<T>, u: nat)
    requires |s.cells| > 0 && th != u
    ensures Step(s, th, a).PcOf(u) == s.PcOf(u)
  {
  }

  /** Others do not change what the thread has read. */
  lemma {:induction false} ReadKept<T>(n: nat, blank: T, run: seq<(nat, Action<T>)>, j: nat, k: nat, th: nat)
    requires n >= 2 && j < k <= |run| && Waits(n, blank, run, j, k, th)
    ensures var s := After(n, blank, run[..j]);
      After(n, blank, run[..k]).PcOf(th) == Step(s, th, run[j].1).PcOf(th)
    decreases k
  {
    hide After, Step;
    AfterNext(n, blank, run, k);
    if j + 1 < k {
      ReadKept(n, blank, run, j, k - 1, th);
      OthersStep(After(n, blank, run[..k - 1]), run[k - 1].0, run[k - 1].1, th);
    }
  }

  /** `enqueue` returns false if and only if, when the sequence was read, the position was current, N tickets were
      claimed, and the value of the oldest of them had not been returned. */
  lemma EnqueueFailsIffFull<T>(n: nat, blank: T, run: seq<(nat, Action<T>)>, j: nat, k: nat, th: nat)
    requires n >= 2 && j < k < |run| && After(n, blank, run[..j]).PcOf(th).EnqSeq?
    requires Waits(n, blank, run, j, k, th) && run[k].0 == th
    ensures var s := After(n, blank, run[..j]);
      After(n, blank, run[..k + 1]).PcOf(th).Idle?
      <==> s.PcOf(th).pos == s.enq >= n && s.enq - n !in s.got
  {
    hide After;
    FullAtRead(n, blank, run[..j], th);
    ReadKept(n, blank, run, j, k, th);
    AfterNext(n, blank, run, k + 1);
  }

  /** `dequeue` returns false if and only if, when the sequence was read, the position was current and the head ticket
      was unclaimed or still being written. */
  lemma DequeueFailsIffEmpty<T>(n: nat, blank: T, run: seq<(nat, Action<T>)>, j: nat, k: nat, th: nat)
    requires n >= 2 && j < k < |run| && After(n, blank, run[..j]).PcOf(th).DeqSeq?
    requires Waits(n, blank, run, j, k, th) && run[k].0 == th
    ensures var s := After(n, blank, run[..j]);
      After(n, blank, run[..k + 1]).PcOf(th).Idle?
      <==> s.PcOf(th).pos == s.deq && (s.deq == s.enq || Written(s.pcs, s.deq))
  {
    hide After;
    EmptyAtRead(n, blank, run[..j], th);
    ReadKept(n, blank, run, j, k, th);
    AfterNext(n, blank, run, k + 1);
  }

  // ---------------------------------------------------------------------------------------------
  // Calls alone

  /** Six steps of one thread: a call, and what it takes to bring it to its end when nobody interferes. */
  function Solo<T>(s: State<T>, th: nat, a: Action<T>, steps: nat): (s': State<T>)
    requires |s.cells| > 0
    ensures |s'.cells| == |s.cells|
  {
    if steps == 0 then Step(s, th, a) else Step(Solo(s, th, a, steps - 1), th, Go(false))
  }

  /** From every reachable state, a thread that runs alone enqueues its value with the next ticket, publishes it and
      returns; or, exactly when N tickets are claimed and the oldest has not been returned, returns with no change. */
  lemma SoloEnqueue<T>(n: nat, blank: T, run: seq<(nat, Action<T>)>, th: nat, v: T)
    requires n >= 2 && After(n, blank, run).PcOf(th).Idle?
    ensures var s := After(n, blank, run); var s' := Solo(s, th, Enqueue(v), 5);
      && s'.PcOf(th).Idle? && s'.got == s.got && s'.deq == s.deq
      && if s.enq >= n && s.enq - n !in s.got then s'.put == s.put && s'.enq == s.enq && s'.cells == s.cells
         else
           && s'.put == s.put + [v] && s'.enq == s.enq + 1
           && s'.At(s.enq) == Cell(s.enq + 1, v) && forall p | Slot(p, n) != Slot(s.enq, n) :: s'.At(p) == s.At(p)
  {
    hide After, Inv, GotReleased, Solo, Step, Slot, Counters;
    RunInv(n, blank, run);
    RunReleases(n, blank, run);
    var s := After(n, blank, run);
    FreeOrFull(s);
    FullCell(s, s.enq);
    SoloEnqueueSteps(s, th, v);
  }

  lemma FreeOrFull<T>(s: State<T>)
    requires Inv(s)
    ensures Counters(s) && 0 <= s.enq && s.At(s.enq).sequence <= s.enq
  {
    assert CellOk(s, s.enq);
  }

  lemma SoloEnqueueSteps<T>(s: State<T>, th: nat, v: T)
    requires |s.cells| > 0 && s.PcOf(th).Idle? && s.At(s.enq).sequence <= s.enq
    ensures var s' := Solo(s, th, Enqueue(v), 5);
      && s'.PcOf(th).Idle? && s'.got == s.got && s'.deq == s.deq
      && if s.At(s.enq).sequence < s.enq then s'.put == s.put && s'.enq == s.enq && s'.cells == s.cells
         else
           && s'.put == s.put + [v] && s'.enq == s.enq + 1 && s'.At(s.enq) == Cell(s.enq + 1, v)
           && forall p | Slot(p, |s.cells|) != Slot(s.enq, |s.cells|) :: s'.At(p) == s.At(p)
  {
    hide Slot;
    var s0 := Step(s, th, Enqueue(v));
    assert Solo(s, th, Enqueue(v), 0) == s0 == To(s, th, EnqLoad(v));
    var s1 := Step(s0, th, Go(false));
    assert Solo(s, th, Enqueue(v), 1) == s1 == To(s0, th, EnqSeq(v, s.enq));
    var s2 := Step(s1, th, Go(false));
    assert Solo(s, th, Enqueue(v), 2) == s2 == To(s1, th, EnqTry(v, s.enq, s.At(s.enq).sequence));
    var s3 := Step(s2, th, Go(false));
    assert Solo(s, th, Enqueue(v), 3) == s3;
    if s.At(s.enq).sequence < s.enq {
      assert s3.PcOf(th).Idle?;
      assert Solo(s, th, Enqueue(v), 4) == s3;
      assert Solo(s, th, Enqueue(v), 5) == s3;
    } else {
      assert s3.PcOf(th) == EnqWrite(v, s.enq);
      var s4 := Step(s3, th, Go(false));
      assert Solo(s, th, Enqueue(v), 4) == s4 && s4.PcOf(th) == EnqPublish(s.enq);
      assert Solo(s, th, Enqueue(v), 5) == Step(s4, th, Go(false));
    }
  }

  /** From every reachable state, a thread that runs alone takes the head ticket, returns its value and frees the cell;
      or, exactly when the head ticket is unclaimed or still being written, returns with no change. */
  lemma SoloDequeue<T>(n: nat, blank: T, run: seq<(nat, Action<T>)>, th: nat)
    requires n >= 2 && After(n, blank, run).PcOf(th).Idle?
    ensures var s := After(n, blank, run); var s' := Solo(s, th, Dequeue, 5);
      && s'.PcOf(th).Idle? && s'.put == s.put && s'.enq == s.enq
      && if s.deq == s.enq || Written(s.pcs, s.deq) then s'.got == s.got && s'.deq == s.deq && s'.cells == s.cells
         else
           && s'.deq == s.deq + 1 && 0 <= s.deq < |s.put| && s'.got == s.got[s.deq := s.put[s.deq]]
           && s'.At(s.deq).sequence == s.deq + n && forall p | Slot(p, n) != Slot(s.deq, n) :: s'.At(p) == s.At(p)
  {
    hide After, Inv, Solo, Step, Slot, Written, Counters;
    RunInv(n, blank, run);
    var s := After(n, blank, run);
    HeadCell(s);
    SoloDequeueSteps(s, th);
  }

  lemma HeadCell<T>(s: State<T>)
    requires Inv(s)
    ensures Counters(s) && s.At(s.deq).sequence <= s.deq + 1
    ensures s.At(s.deq).sequence < s.deq + 1 <==> s.deq == s.enq || Written(s.pcs, s.deq)
    ensures s.At(s.deq).sequence == s.deq + 1 ==> s.deq < |s.put| && s.At(s.deq).data == s.put[s.deq]
  {
    var n := |s.cells|;
    if s.deq == s.enq {
      assert CellOk(s, s.deq);
    } else {
      SlotAgain(s.deq, n);
      assert CellOk(s, s.deq + n);
      if Written(s.pcs, s.deq) {
        var w :| w in s.pcs && s.pcs[w].Writes(s.deq);
        assert PcOk(s, s.pcs[w]);
      }
    }
  }

  lemma SoloDequeueSteps<T>(s: State<T>, th: nat)
    requires |s.cells| > 0 && s.PcOf(th).Idle? && s.At(s.deq).sequence <= s.deq + 1
    ensures var s' := Solo(s, th, Dequeue, 5);
      && s'.PcOf(th).Idle? && s'.put == s.put && s'.enq == s.enq
      && if s.At(s.deq).sequence < s.deq + 1 then s'.got == s.got && s'.deq == s.deq && s'.cells == s.cells
         else
           && s'.deq == s.deq + 1 && s'.got == s.got[s.deq := s.At(s.deq).data]
           && s'.At(s.deq).sequence == s.deq + |s.cells|
           && forall p | Slot(p, |s.cells|) != Slot(s.deq, |s.cells|) :: s'.At(p) == s.At(p)
  {
    hide Slot;
    var s0 := Step(s, th, Dequeue);
    assert Solo(s, th, Dequeue, 0) == s0 == To(s, th, DeqLoad);
    var s1 := Step(s0, th, Go(false));
    assert Solo(s, th, Dequeue, 1) == s1 == To(s0, th, DeqSeq(s.deq));
    var s2 := Step(s1, th, Go(false));
    assert Solo(s, th, Dequeue, 2) == s2 == To(s1, th, DeqTry(s.deq, s.At(s.deq).sequence));
    var s3 := Step(s2, th, Go(false));
    assert Solo(s, th, Dequeue, 3) == s3;
    if s.At(s.deq).sequence < s.deq + 1 {
      assert s3.PcOf(th).Idle?;
      assert Solo(s, th, Dequeue, 4) == s3;
      assert Solo(s, th, Dequeue, 5) == s3;
    } else {
      assert s3.PcOf(th) == DeqRead(s.deq);
      var s4 := Step(s3, th, Go(false));
      assert Solo(s, th, Dequeue, 4) == s4 && s4.PcOf(th) == DeqRelease(s.deq, s.At(s.deq).data);
      assert Solo(s, th, Dequeue, 5) == Step(s4, th, Go(false));
    }
  }

  /** A new queue is empty, and a value that a thread enqueues on its own is what it then dequeues. */
  lemma NewQueue<T>(n: nat, blank: T, th: nat, v: T)
    requires n >= 2
    ensures var s := After(n, blank, []);
      (forall t :: s.PcOf(t).Idle?) && s.put == [] && s.got == map[] && s.deq == s.enq == 0
    ensures var s := Solo(After(n, blank, []), th, Enqueue(v), 5);
      s.PcOf(th).Idle? && Solo(s, th, Dequeue, 5).got == map[0 := v]
  {
    var s := After(n, blank, []);
    assert s == Initial(n, blank);
    assert s.At(0) == s.cells[0] == Cell(0, blank);
    SoloEnqueueSteps(s, th, v);
    var s' := Solo(s, th, Enqueue(v), 5);
    hide Solo;
    SoloDequeueSteps(s', th);
  }
}
