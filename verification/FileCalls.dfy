/**
  Whole calls of `put_data` and `get_data` among others: what the history of the file and of the reads gains
  by a call, in terms of its arguments.
 */
module FileCalls {
  import opened Basics
  import opened BufferCopy
  import opened FileStore
  import opened FileSharing
  import L = RangeLock
  import T = RangeTree

  /** The writes of one thread, each with its end, and the reads of one thread, in their order. */
  function WritesOf(makers: seq<nat>, log: seq<Write>, ends: seq<nat>, th: nat): seq<(Write, nat)>
    requires |makers| == |log| == |ends|
  {
    if log == [] then []
    else
      var n := |log| - 1;
      WritesOf(makers[..n], log[..n], ends[..n], th) + if makers[n] == th then [(log[n], ends[n])] else []
  }

  function ReadsOf(past: seq<Read>, th: nat): seq<Read> {
    if past == [] then []
    else
      var n := |past| - 1;
      ReadsOf(past[..n], th) + if past[n].th == th then [past[n]] else []
  }

  ghost predicate Paired(s: State) { |s.makers| == |s.file.log| == |s.file.ends| }

  function Writes(s: State, th: nat): seq<(Write, nat)>
    requires |s.makers| == |s.file.log| == |s.file.ends|
  {
    WritesOf(s.makers, s.file.log, s.file.ends, th)
  }

  lemma WritesSnoc(makers: seq<nat>, log: seq<Write>, ends: seq<nat>, m: nat, w: Write, e: nat, th: nat)
    requires |makers| == |log| == |ends|
    ensures WritesOf(makers + [m], log + [w], ends + [e], th)
      == WritesOf(makers, log, ends, th) + if m == th then [(w, e)] else []
  {
    assert (makers + [m])[..|log|] == makers && (log + [w])[..|log|] == log && (ends + [e])[..|log|] == ends;
  }

  lemma ReadsSnoc(past: seq<Read>, r: Read, th: nat)
    ensures ReadsOf(past + [r], th) == ReadsOf(past, th) + if r.th == th then [r] else []
  {
    assert (past + [r])[..|past|] == past;
  }

  // ---------------------------------------------------------------------------------------------
  // One step

  /** A thread in the middle of `put_data(off, size, data)`, or of `get_data(off, size)`. */
  predicate Storing(pc: Pc, off: nat, size: nat, data: seq<Byte>) {
    (pc.Fetch? || pc.Acquire? || pc.Writing()) && pc.off == off && pc.size == size && pc.data == data
  }

  predicate Loading(pc: Pc, off: nat, size: nat) {
    (pc.Await? || pc.Reading()) && pc.off == off && pc.size == size
  }

  function Entry(off: nat, size: nat, data: seq<Byte>): (Write, nat) { (Write(off, data), off + size) }

  /** A thread adds to the history of writes when it has raised the size, and to that of reads when it is done. */
  lemma StepHistories(s: State, th: nat, a: Action, u: nat)
    requires Paired(s) && Enabled(s, th, a)
    ensures var s', pc := Step(s, th, a), s.PcOf(u);
      && Paired(s')
      && Writes(s', u) == Writes(s, u) + (if th == u && pc.Grow? then [Entry(pc.off, pc.size, pc.data)] else [])
      && ReadsOf(s'.past, u) == ReadsOf(s.past, u)
           + (if th == u && pc.Done? then [Read(u, pc.off, pc.size, pc.at, pc.buf)] else [])
  {
    var mover := s.PcOf(th);
    hide Tried, Locking, WritesOf, ReadsOf, L.Unlock, IndexOf;
    if mover.Grow? {
      WritesSnoc(s.makers, s.file.log, s.file.ends, th, Write(mover.off, mover.data), mover.off + mover.size, u);
    } else if mover.Done? {
      ReadsSnoc(s.past, Read(th, mover.off, mover.size, mover.at, mover.buf), u);
    } else if mover.Acquire? {
      LockingKeeps(s, th, Tried(s, th, a).state, Put(mover.off, mover.size, mover.data, 0));
    } else if mover.Await? {
      LockingKeeps(s, th, Tried(s, th, a).state, Look(mover.off, mover.size));
    }
  }

  lemma LockingKeeps(s: State, th: nat, lock: L.State, next: Pc)
    ensures var s' := Locking(s, th, lock, next); s'.file == s.file && s'.past == s.past && s'.makers == s.makers
    ensures forall u :: var pc := Locking(s, th, lock, next).PcOf(u); pc == s.PcOf(u) || (u == th && pc == next)
  {
  }

  lemma UnlockingKeeps(s: State, th: nat)
    ensures forall u :: Unlocking(s, th).PcOf(u) == s.PcOf(u) || (u == th && Unlocking(s, th).PcOf(u) == Idle)
  {
    hide L.Unlock, IndexOf;
  }

  /** A call goes on with its own arguments until it returns; it returns from `Leave`, and comes there from `Grow`. */
  lemma StepStoring(s: State, th: nat, a: Action, u: nat, off: nat, size: nat, data: seq<Byte>)
    requires Enabled(s, th, a) && Storing(s.PcOf(u), off, size, data)
    ensures var pc, pc' := s.PcOf(u), Step(s, th, a).PcOf(u);
      && (Storing(pc', off, size, data) || (th == u && pc.Leave? && pc'.Idle?))
      && (pc'.Leave? ==> pc.Leave? || (th == u && pc.Grow?)) && (th == u && pc.Grow? ==> pc'.Leave?)
      && (pc.Leave? ==> pc'.Leave? || pc'.Idle?)
  {
    hide Tried, Locking, Unlocking;
    LockingKeeps(s, th, if s.PcOf(th).Acquire? || s.PcOf(th).Await? then Tried(s, th, a).state else s.lock,
      if s.PcOf(th).Acquire? then Put(s.PcOf(th).off, s.PcOf(th).size, s.PcOf(th).data, 0)
      else if s.PcOf(th).Await? then Look(s.PcOf(th).off, s.PcOf(th).size) else Idle);
    UnlockingKeeps(s, th);
    if s.PcOf(th).Done? {
      var pc := s.PcOf(th);
      UnlockingKeeps(s.(past := s.past + [Read(th, pc.off, pc.size, pc.at, pc.buf)]), th);
    }
  }

  lemma StepLoading(s: State, th: nat, a: Action, u: nat, off: nat, size: nat)
    requires Enabled(s, th, a) && Loading(s.PcOf(u), off, size)
    ensures var pc, pc' := s.PcOf(u), Step(s, th, a).PcOf(u);
      Loading(pc', off, size) || (th == u && pc.Done? && pc'.Idle?)
  {
    hide Tried, Locking, Unlocking;
    LockingKeeps(s, th, if s.PcOf(th).Acquire? || s.PcOf(th).Await? then Tried(s, th, a).state else s.lock,
      if s.PcOf(th).Acquire? then Put(s.PcOf(th).off, s.PcOf(th).size, s.PcOf(th).data, 0)
      else if s.PcOf(th).Await? then Look(s.PcOf(th).off, s.PcOf(th).size) else Idle);
    UnlockingKeeps(s, th);
    if s.PcOf(th).Done? {
      var pc := s.PcOf(th);
      UnlockingKeeps(s.(past := s.past + [Read(th, pc.off, pc.size, pc.at, pc.buf)]), th);
    }
  }

  /** Whoever comes to unlock its range returns. */
  lemma StepReturns(s: State, th: nat, a: Action)
    requires Inv(s) && Enabled(s, th, a) && (s.PcOf(th).Leave? || s.PcOf(th).Done?)
    ensures Step(s, th, a).PcOf(th).Idle?
  {
    hide L.Inv, OwnersOk, MemoryOk, Unlocking;
    var pc := s.PcOf(th);
    if pc.Leave? {
      UnlockOwners(s, th);
    } else {
      UnlockOwners(s.(past := s.past + [Read(th, pc.off, pc.size, pc.at, pc.buf)]), th);
    }
  }

  // ---------------------------------------------------------------------------------------------
  // Whole calls

  lemma {:induction false} RunPaired(run: seq<(nat, Action)>)
    ensures Paired(After(run))
  {
    if run != [] {
      var s := After(run[..|run| - 1]);
      var (th, a) := run[|run| - 1];
      RunPaired(run[..|run| - 1]);
      hide Step;
      if Enabled(s, th, a) { StepHistories(s, th, a, th); }
    }
  }

  /** The thread is not idle after any of the steps from `i` on, before `k`. */
  ghost predicate Busy(run: seq<(nat, Action)>, i: nat, k: nat, th: nat)
    requires k <= |run| + 1
  {
    forall j | i < j < k :: !After(run[..j]).PcOf(th).Idle?
  }

  /** `th` calls `a` in step `i`. */
  ghost predicate Calls(run: seq<(nat, Action)>, i: nat, th: nat, a: Action) {
    i < |run| && run[i] == (th, a) && After(run[..i]).PcOf(th).Idle? && Enabled(After(run[..i]), th, a)
  }

  /** Until it returns, a call of `put_data` works with its arguments, and adds its write once it leaves. */
  lemma {:induction false} StoreWorks(run: seq<(nat, Action)>, i: nat, k: nat, th: nat, off: nat, size: nat,
                                      data: seq<Byte>)
    requires Calls(run, i, th, Store(off, size, data)) && i < k <= |run| && Busy(run, i, k + 1, th)
    ensures Paired(After(run[..i])) && Paired(After(run[..k])) && Storing(After(run[..k]).PcOf(th), off, size, data)
    ensures Writes(After(run[..k]), th) == Writes(After(run[..i]), th)
      + (if After(run[..k]).PcOf(th).Leave? then [Entry(off, size, data)] else [])
    decreases k
  {
    hide After, Inv, Writes, Step, Enabled, Storing;
    var s := After(run[..k - 1]);
    assert !After(run[..k]).PcOf(th).Idle?;
    RunPaired(run[..i]);
    RunPaired(run[..k - 1]);
    RunInv(run[..k - 1]);
    AfterNext(run, k);
    if i + 1 == k {
      Begins(s, th, off, size, data);
      StepHistories(s, th, Store(off, size, data), th);
    } else {
      StoreWorks(run, i, k - 1, th, off, size, data);
      var u, a := run[k - 1].0, run[k - 1].1;
      if Enabled(s, u, a) { StoreGoesOn(s, u, a, th, off, size, data); }
    }
  }

  lemma Begins(s: State, th: nat, off: nat, size: nat, data: seq<Byte>)
    requires s.PcOf(th).Idle?
    ensures Enabled(s, th, Store(off, size, data)) ==>
      var pc := Step(s, th, Store(off, size, data)).PcOf(th); Storing(pc, off, size, data) && !pc.Leave?
    ensures Enabled(s, th, Load(off, size)) ==> Loading(Step(s, th, Load(off, size)).PcOf(th), off, size)
  {
  }

  /** One step of anybody, while the call goes on. */
  lemma StoreGoesOn(s: State, u: nat, a: Action, th: nat, off: nat, size: nat, data: seq<Byte>)
    requires Inv(s) && Paired(s) && Enabled(s, u, a) && Storing(s.PcOf(th), off, size, data)
    requires !Step(s, u, a).PcOf(th).Idle?
    ensures var s' := Step(s, u, a);
      && Paired(s') && Storing(s'.PcOf(th), off, size, data) && (s.PcOf(th).Leave? ==> s'.PcOf(th).Leave?)
      && Writes(s', th) == Writes(s, th)
           + (if s'.PcOf(th).Leave? && !s.PcOf(th).Leave? then [Entry(off, size, data)] else [])
  {
    hide Inv, Writes, Step, Enabled;
    StepHistories(s, u, a, th);
    StepStoring(s, u, a, th, off, size, data);
    if u == th && s.PcOf(th).Leave? { StepReturns(s, th, a); }
  }

  /** When `put_data(off, size, data)` has returned, the history has gained exactly one write of the thread: `data` at
      `off`, ending at `off + size`. */
  lemma StoreMakesOneWrite(run: seq<(nat, Action)>, i: nat, k: nat, th: nat, off: nat, size: nat, data: seq<Byte>)
    requires Calls(run, i, th, Store(off, size, data)) && i + 1 < k <= |run| && Busy(run, i, k, th)
    requires After(run[..k]).PcOf(th).Idle?
    ensures Paired(After(run[..i])) && Paired(After(run[..k]))
    ensures Writes(After(run[..k]), th) == Writes(After(run[..i]), th) + [Entry(off, size, data)]
  {
    hide After, Step, Writes, Enabled;
    var s := After(run[..k - 1]);
    StoreWorks(run, i, k - 1, th, off, size, data);
    AfterNext(run, k);
    StepStoring(s, run[k - 1].0, run[k - 1].1, th, off, size, data);
    StepHistories(s, run[k - 1].0, run[k - 1].1, th);
  }

  /** Until it returns, a call of `get_data` works with its arguments. */
  lemma {:induction false} LoadWorks(run: seq<(nat, Action)>, i: nat, k: nat, th: nat, off: nat, size: nat)
    requires Calls(run, i, th, Load(off, size)) && i < k <= |run| && Busy(run, i, k + 1, th)
    ensures Loading(After(run[..k]).PcOf(th), off, size)
    ensures ReadsOf(After(run[..k]).past, th) == ReadsOf(After(run[..i]).past, th)
    decreases k
  {
    hide After, Inv, ReadsOf, Step, Enabled, Loading;
    var s := After(run[..k - 1]);
    assert !After(run[..k]).PcOf(th).Idle?;
    RunPaired(run[..k - 1]);
    RunInv(run[..k - 1]);
    AfterNext(run, k);
    if i + 1 == k {
      Begins(s, th, off, size, []);
      StepHistories(s, th, Load(off, size), th);
    } else {
      LoadWorks(run, i, k - 1, th, off, size);
      var u, a := run[k - 1].0, run[k - 1].1;
      if Enabled(s, u, a) {
        StepHistories(s, u, a, th);
        StepLoading(s, u, a, th, off, size);
        if u == th && s.PcOf(th).Done? { StepReturns(s, th, a); }
      }
    }
  }

  /** When `get_data(off, size)` has returned, there is exactly one more read of the thread, of exactly that range. */
  lemma LoadMakesOneRead(run: seq<(nat, Action)>, i: nat, k: nat, th: nat, off: nat, size: nat) returns (r: Read)
    requires Calls(run, i, th, Load(off, size)) && i + 1 < k <= |run| && Busy(run, i, k, th)
    requires After(run[..k]).PcOf(th).Idle?
    ensures r.th == th && r.off == off && r.size == size && r in After(run[..k]).past
    ensures ReadsOf(After(run[..k]).past, th) == ReadsOf(After(run[..i]).past, th) + [r]
  {
    hide After, Step, ReadsOf, Enabled;
    var s := After(run[..k - 1]);
    LoadWorks(run, i, k - 1, th, off, size);
    RunPaired(run[..k - 1]);
    AfterNext(run, k);
    StepLoading(s, run[k - 1].0, run[k - 1].1, th, off, size);
    StepHistories(s, run[k - 1].0, run[k - 1].1, th);
    var pc := s.PcOf(th);
    r := Read(th, pc.off, pc.size, pc.at, pc.buf);
    LastRead(After(run[..k]).past, th, ReadsOf(After(run[..i]).past, th), r);
  }

  lemma {:induction false} LastRead(past: seq<Read>, th: nat, before: seq<Read>, r: Read)
    requires ReadsOf(past, th) == before + [r]
    ensures r in past
  {
    if past != [] {
      var n := |past| - 1;
      if past[n].th == th {
        assert ReadsOf(past, th)[|ReadsOf(past, th)| - 1] == past[n];
      } else {
        LastRead(past[..n], th, before, r);
      }
    }
  }

  // ---------------------------------------------------------------------------------------------
  // An instance: one byte written, then read

  const GO := (0, Go([], true))

  function Gos(n: nat): seq<(nat, Action)> { if n == 0 then [] else [GO] + Gos(n - 1) }

  function Writing(): seq<(nat, Action)> { [(0, Store(0, 1, [7]))] + ([(0, Go([0, 0], true))] + Gos(5)) }
  function Reading(): seq<(nat, Action)> { [(0, Load(0, 1))] + Gos(5) }

  const WLOCK := L.State([T.Range(0, 1, T.Writer, 1, false, false, false, 0)],
                         [L.Lock(0, 1, T.Writer, L.Descriptor(0))], 1, map[], map[])
  const RLOCK := L.State([T.Range(0, 1, T.Reader, 1, false, false, false, 1)],
                         [L.Lock(0, 1, T.Reader, L.Descriptor(1))], 2, map[], map[])
  const FREE1 := L.State([], [], 1, map[], map[])
  const FREE2 := L.State([], [], 2, map[], map[])

  /** A grant by an empty manager, and the release of its only lock. */
  lemma GrantEmpty(calls: nat, req: L.Request)
    ensures L.Attempt(L.State([], [], calls, map[], map[]), 0, req, false)
      == L.Next(L.State([L.Original(req, calls)], [L.Lock(req.start, req.end, req.kind, L.Descriptor(calls))],
                        calls + 1, map[], map[]))
  {
    assert T.Insert([], L.Original(req, calls)) == [L.Original(req, calls)];
    assert [] + [L.Lock(req.start, req.end, req.kind, L.Descriptor(calls))]
      == [L.Lock(req.start, req.end, req.kind, L.Descriptor(calls))];
  }

  lemma UnlockOnly(calls: nat, r: T.Range, l: L.Lock)
    requires l.Names(r)
    ensures L.Unlock(L.State([r], [l], calls, map[], map[]), 0) == L.State([], [], calls, map[], map[])
  {
    assert T.Rank([r], l.start) == 0;
    assert L.Live([r], l);
  }

  lemma LockMoves()
    ensures L.Attempt(L.INITIAL, 0, L.Request(0, 1, T.Writer), false) == L.Next(WLOCK) && L.Unlock(WLOCK, 0) == FREE1
    ensures L.Attempt(FREE1, 0, L.Request(0, 1, T.Reader), false) == L.Next(RLOCK) && L.Unlock(RLOCK, 0) == FREE2
  {
    hide L.Attempt, L.Unlock;
    GrantEmpty(0, L.Request(0, 1, T.Writer));
    GrantEmpty(1, L.Request(0, 1, T.Reader));
    UnlockOnly(1, WLOCK.tree[0], WLOCK.held[0]);
    UnlockOnly(2, RLOCK.tree[0], RLOCK.held[0]);
  }

  function Play(s: State, run: seq<(nat, Action)>): State
    decreases |run|
  {
    if run == [] then s
    else Play(if Enabled(s, run[0].0, run[0].1) then Step(s, run[0].0, run[0].1) else s, run[1..])
  }

  lemma {:induction false} PlayAfter(run: seq<(nat, Action)>, more: seq<(nat, Action)>)
    ensures After(run + more) == Play(After(run), more)
    decreases |more|
  {
    if more == [] {
      assert run + more == run;
    } else {
      assert run + more == (run + [more[0]]) + more[1..] && (run + [more[0]])[..|run|] == run;
      PlayAfter(run + [more[0]], more[1..]);
    }
  }

  const FILE := Memory([7, 0], 1, [Write(0, [7])], [1])
  const STORED := State(FILE, FREE1, [], map[0 := Idle], [0], [])
  const LOADED := State(FILE, FREE2, [], map[0 := Idle], [0], [Read(0, 0, 1, 1, [7])])

  const W1 := State(Memory([], 0, [], []), L.INITIAL, [], map[0 := Fetch(0, 1, [7])], [], [])
  const W2 := State(Memory([0, 0], 0, [], []), L.INITIAL, [], map[0 := Acquire(0, 1, [7])], [], [])
  const W3 := State(Memory([0, 0], 0, [], []), WLOCK, [0], map[0 := Put(0, 1, [7], 0)], [], [])
  const W4 := State(Memory([7, 0], 0, [], []), WLOCK, [0], map[0 := Put(0, 1, [7], 1)], [], [])
  const W5 := W4.(pcs := map[0 := Grow(0, 1, [7])])
  const W6 := State(FILE, WLOCK, [0], map[0 := Leave(0, 1, [7])], [0], [])

  const R1 := STORED.(pcs := map[0 := Await(0, 1)])
  const R2 := STORED.(lock := RLOCK, owners := [0], pcs := map[0 := Look(0, 1)])
  const R3 := R2.(pcs := map[0 := Get(0, 1, 1, 1, [])])
  const R4 := R2.(pcs := map[0 := Get(0, 1, 1, 1, [7])])
  const R5 := R2.(pcs := map[0 := Done(0, 1, 1, [7])])

  ghost predicate Moves(s: State, x: (nat, Action), s': State) { Enabled(s, x.0, x.1) && Step(s, x.0, x.1) == s' }

  lemma PlayMove(s: State, x: (nat, Action), s': State, rest: seq<(nat, Action)>, end: State)
    requires Moves(s, x, s') && Play(s', rest) == end
    ensures Play(s, [x] + rest) == end
  {
    hide Step, Enabled;
    assert ([x] + rest)[1..] == rest;
  }

  lemma StoreMoves()
    ensures Moves(EMPTY, (0, Store(0, 1, [7])), W1) && Moves(W1, (0, Go([0, 0], true)), W2)
  {
    assert Step(EMPTY, 0, Store(0, 1, [7])).pcs == W1.pcs;
    assert Step(W1, 0, Go([0, 0], true)).file.bytes == [0, 0];
  }

  lemma PutMoves()
    ensures Moves(W3, GO, W4)
  {
    var bytes: seq<Byte> := [0, 0];
    assert bytes[0 := 7] == [7, 0];
    assert W4 == To(W3.(file := Stored(W3.file, 0, 7)), 0, Put(0, 1, [7], 1));
    PutStep(W3, 0, 1, [7], 0);
  }

  lemma PutStep(s: State, off: nat, size: nat, data: seq<Byte>, done: nat)
    requires s.PcOf(0) == Put(off, size, data, done) && done < |data| && off + done < |s.file.bytes|
    ensures Moves(s, GO, To(s.(file := Stored(s.file, off + done, data[done])), 0, Put(off, size, data, done + 1)))
  {
  }

  lemma PutEnds()
    ensures Moves(W4, GO, W5)
  {
    assert W4.PcOf(0) == Put(0, 1, [7], 1);
  }

  lemma GrowMoves()
    ensures Moves(W5, GO, W6)
  {
    assert Step(W5, 0, GO.1).file.log == [Write(0, [7])] && Step(W5, 0, GO.1).file.ends == [1];
  }

  lemma ReaderMoves()
    ensures Moves(STORED, (0, Load(0, 1)), R1) && Moves(R2, GO, R3) && Moves(R3, GO, R4) && Moves(R4, GO, R5)
  {
    assert [] + [FILE.bytes[0]] == [7];
    assert Step(R3, 0, GO.1).pcs == R4.pcs;
  }

  lemma LockedMoves()
    ensures Moves(W2, GO, W3) && Moves(R1, GO, R2)
  {
    LockMoves();
    hide L.Attempt, L.Unlock;
  }

  lemma UnlockedMoves()
    ensures Moves(W6, GO, STORED) && Moves(R5, GO, LOADED)
  {
    LockMoves();
    hide L.Attempt, L.Unlock;
    assert IndexOf([0], 0) == 0;
  }

  lemma PlayGo(s: State, s': State, n: nat, end: State)
    requires Moves(s, GO, s') && Play(s', Gos(n)) == end
    ensures Play(s, Gos(n + 1)) == end
  {
    hide Moves, Play;
    PlayMove(s, GO, s', Gos(n), end);
  }

  lemma PlaysWriting()
    ensures Play(EMPTY, Writing()) == STORED
  {
    StoreMoves();
    PutMoves();
    PutEnds();
    GrowMoves();
    LockedMoves();
    UnlockedMoves();
    assert Play(STORED, Gos(0)) == STORED;
    hide Moves, Play, Gos;
    PlayGo(W6, STORED, 0, STORED);
    PlayGo(W5, W6, 1, STORED);
    PlayGo(W4, W5, 2, STORED);
    PlayGo(W3, W4, 3, STORED);
    PlayGo(W2, W3, 4, STORED);
    PlayMove(W1, (0, Go([0, 0], true)), W2, Gos(5), STORED);
    PlayMove(EMPTY, (0, Store(0, 1, [7])), W1, [(0, Go([0, 0], true))] + Gos(5), STORED);
  }

  lemma PlaysReading()
    ensures Play(STORED, Reading()) == LOADED
  {
    ReaderMoves();
    LockedMoves();
    UnlockedMoves();
    assert Play(LOADED, Gos(0)) == LOADED;
    hide Moves, Play, Gos;
    PlayGo(R5, LOADED, 0, LOADED);
    PlayGo(R4, R5, 1, LOADED);
    PlayGo(R3, R4, 2, LOADED);
    PlayGo(R2, R3, 3, LOADED);
    PlayGo(R1, R2, 4, LOADED);
    PlayMove(STORED, (0, Load(0, 1)), R1, Gos(5), LOADED);
  }

  /** One byte is written and read: after the two calls the file holds it, and the read has returned it. */
  lemma RoundTrip()
    ensures After(Writing()) == STORED && After(Writing() + Reading()) == LOADED
  {
    Starts();
    PlaysWriting();
    PlaysReading();
    hide After, Play, Writing, Reading;
    PlayAfter([], Writing());
    PlayAfter(Writing(), Reading());
  }

  lemma Starts()
    ensures After([]) == EMPTY && [] + Writing() == Writing()
  {
  }
}
