/**
  Concurrent `put_data` and `get_data` on one file. Each step is one stretch of code under one mutex, or the
  copy of one byte; threads interleave freely. The range lock is the one of module `RangeLock`, driven by its
  own steps.
 */
module FileSharing {
  import opened Basics
  import opened BufferCopy
  import opened FileStore
  import L = RangeLock
  import T = RangeTree
  import Safety = RangeLockSafety

  /** What a thread does next. Writers pass through the constructors from `Fetch` to `Leave`, readers through
      those from `Await` to `Done`. */
  datatype Pc =
    | Idle
    | Fetch(off: nat, size: nat, data: seq<Byte>)          // fetch_storage, under m_alloc_mutex
    | Acquire(off: nat, size: nat, data: seq<Byte>)        // lock_range for writing
    | Put(off: nat, size: nat, data: seq<Byte>, done: nat) // copy; `done` bytes are in place
    | Grow(off: nat, size: nat, data: seq<Byte>)           // update_size, under m_alloc_mutex
    | Leave(off: nat, size: nat, data: seq<Byte>)          // unlock_range
    | Await(off: nat, size: nat)                           // lock_range for reading
    | Look(off: nat, size: nat)                            // lookup_data, under m_alloc_mutex
    | Get(off: nat, size: nat, end: nat, at: nat, buf: seq<Byte>) // copy up to `end`
    | Done(off: nat, size: nat, at: nat, buf: seq<Byte>)   // unlock_range
  {
    predicate Writing() { Put? || Grow? || Leave? }
    predicate Reading() { Look? || Get? || Done? }
    predicate Holding() { Writing() || Reading() }
    predicate Has(i: int) requires !Idle? { off <= i < off + size }
    predicate Touches(i: int) { (Put? || Grow?) && Has(i) && i < off + |data| }
  }

  /** A finished read of thread `th`: what it returned, and how many writes were made before it looked. */
  datatype Read = Read(th: nat, off: nat, size: nat, at: nat, buf: seq<Byte>)

  /** The file, and the history of its writes in the order in which they came to raise the size: their bytes,
      and where they ended (which is beyond the bytes if the source had too few). */
  datatype Memory = Memory(bytes: seq<Byte>, used: nat, log: seq<Write>, ends: seq<nat>)

  /** `owners[k]` is the thread of the k-th held lock, `makers[k]` that of the k-th write, `past` are the finished
      reads. */
  datatype State = State(file: Memory, lock: L.State, owners: seq<nat>, pcs: map<nat, Pc>, makers: seq<nat>,
                         past: seq<Read>)
  {
    function PcOf(th: nat): Pc { if th in pcs then pcs[th] else Idle }
  }

  /** A call by an idle thread, or the next step of a busy one. `memory` is what new memory happens to hold;
      `retest` is as in module `RangeLock`. */
  datatype Action = Store(off: nat, size: nat, data: seq<Byte>) | Load(off: nat, size: nat)
                  | Go(memory: seq<Byte>, retest: bool)

  function Ask(pc: Pc): L.Request requires !pc.Idle? {
    L.Request(pc.off, pc.off + pc.size, if pc.Acquire? then T.Writer else T.Reader)
  }

  function Tried(s: State, th: nat, a: Action): L.Outcome
    requires !s.PcOf(th).Idle?
  {
    L.Attempt(s.lock, th, Ask(s.PcOf(th)), th in s.lock.pending && a.Go? && !a.retest)
  }

  /** Ranges are not empty, the source may have less than `size` bytes, writes are dense, new memory reaches
      beyond the write, and the lock call is defined. */
  predicate Enabled(s: State, th: nat, a: Action) {
    match s.PcOf(th)
    case Idle => (a.Store? && 0 < a.size && |a.data| <= a.size) || (a.Load? && 0 < a.size)
    case Fetch(off, size, _) =>
      && a.Go? && off <= |s.file.bytes|
      && if off + size <= |s.file.bytes| then a.memory == [] else off + size < |s.file.bytes + a.memory|
    case Acquire(_, _, _) => a.Go? && Tried(s, th, a).Next?
    case Await(_, _) => a.Go? && Tried(s, th, a).Next?
    case _ => a.Go?
  }

  function To(s: State, th: nat, pc: Pc): State { s.(pcs := s.pcs[th := pc]) }

  /** One pass through `lock_range`: on to `next` with the lock, or asleep. */
  function Locking(s: State, th: nat, lock: L.State, next: Pc): State {
    if |lock.held| > |s.lock.held| then To(s.(lock := lock, owners := s.owners + [th]), th, next)
    else s.(lock := lock)
  }

  function IndexOf(owners: seq<nat>, th: nat): (k: nat)
    ensures k <= |owners| && (k < |owners| ==> owners[k] == th) && (th in owners ==> k < |owners|)
  {
    if owners == [] || owners[0] == th then 0 else 1 + IndexOf(owners[1..], th)
  }

  function Unlocking(s: State, th: nat): State {
    var k := IndexOf(s.owners, th);
    if k < |s.owners| && k < |s.lock.held| then
      To(s.(lock := L.Unlock(s.lock, k), owners := s.owners[..k] + s.owners[k + 1..]), th, Idle)
    else s
  }

  /** `lookup_data` cuts the range at the end of the file; a read from behind the end returns nothing. */
  function Looked(off: nat, size: nat, f: Memory): Pc {
    if off <= f.used then Get(off, size, Min(off + size, f.used), |f.log|, []) else Done(off, size, |f.log|, [])
  }

  function Step(s: State, th: nat, a: Action): State
    requires Enabled(s, th, a)
  {
    var f := s.file;
    match s.PcOf(th)
    case Idle => To(s, th, if a.Store? then Fetch(a.off, a.size, a.data) else Await(a.off, a.size))
    case Fetch(off, size, data) => To(s.(file := Extended(f, a.memory)), th, Acquire(off, size, data))
    case Acquire(off, size, data) => Locking(s, th, Tried(s, th, a).state, Put(off, size, data, 0))
    case Put(off, size, data, done) =>
      if done < |data| && off + done < |f.bytes| then
        To(s.(file := Stored(f, off + done, data[done])), th, Put(off, size, data, done + 1))
      else To(s, th, Grow(off, size, data))
    case Grow(off, size, data) =>
      To(s.(file := Grown(f, off, size, data), makers := s.makers + [th]), th, Leave(off, size, data))
    case Leave(_, _, _) => Unlocking(s, th)
    case Await(off, size) => Locking(s, th, Tried(s, th, a).state, Look(off, size))
    case Look(off, size) => To(s, th, Looked(off, size, f))
    case Get(off, size, end, at, buf) =>
      if off + |buf| < end && off + |buf| < |f.bytes| then
        To(s, th, Get(off, size, end, at, buf + [f.bytes[off + |buf|]]))
      else To(s, th, Done(off, size, at, buf))
    case Done(off, size, at, buf) => Unlocking(s.(past := s.past + [Read(th, off, size, at, buf)]), th)
  }

  function Extended(f: Memory, memory: seq<Byte>): Memory { f.(bytes := f.bytes + memory) }

  function Stored(f: Memory, i: nat, b: Byte): Memory
    requires i < |f.bytes|
  {
    f.(bytes := f.bytes[i := b])
  }

  function Grown(f: Memory, off: nat, size: nat, data: seq<Byte>): Memory {
    f.(used := Max(f.used, off + size), log := f.log + [Write(off, data)], ends := f.ends + [off + size])
  }

  const EMPTY := State(Memory([], 0, [], []), L.INITIAL, [], map[], [], [])

  /** The state after a run; actions that are not enabled do not happen. */
  function After(run: seq<(nat, Action)>): State {
    if run == [] then EMPTY
    else
      var s, (th, a) := After(run[..|run| - 1]), run[|run| - 1];
      if Enabled(s, th, a) then Step(s, th, a) else s
  }

  // ---------------------------------------------------------------------------------------------
  // The invariant

  ghost predicate Matches(pc: Pc, l: L.Lock) {
    && pc.Holding() && l.start == pc.off && l.end == pc.off + pc.size && l.start < l.end
    && (l.kind == T.Writer <==> pc.Writing())
  }

  ghost predicate Distinct(owners: seq<nat>) { forall i, j | 0 <= i < j < |owners| :: owners[i] != owners[j] }

  /** Exactly the threads that are past `lock_range` hold a lock, each for its own range. */
  ghost predicate OwnersOk(owners: seq<nat>, held: seq<L.Lock>, pcs: map<nat, Pc>) {
    && |owners| == |held| && Distinct(owners)
    && (forall k | 0 <= k < |owners| :: owners[k] in pcs && Matches(pcs[owners[k]], held[k]))
    && (forall th | th in pcs && pcs[th].Holding() :: th in owners)
  }

  /** No writer is at work on offset `i`. */
  ghost predicate Quiet(pcs: map<nat, Pc>, i: nat) { forall th | th in pcs :: !pcs[th].Touches(i) }

  /** Where no writer is at work, the file is as the writes left it. */
  ghost predicate Clean(f: Memory, pcs: map<nat, Pc>) {
    forall i: nat | LastWritten(f.log, i).Some? && Quiet(pcs, i) ::
      i < |f.bytes| && f.bytes[i] == LastWritten(f.log, i).value
  }

  /** The end of the file that writes with these ends leave. */
  function EndOf(ends: seq<nat>): nat { if ends == [] then 0 else Max(EndOf(ends[..|ends| - 1]), ends[|ends| - 1]) }

  ghost predicate EndsOk(log: seq<Write>, ends: seq<nat>) {
    |log| == |ends| && forall k | 0 <= k < |log| :: log[k].offset + |log[k].data| <= ends[k]
  }

  /** `buf` holds, from `off` on, what the writes in `log` left. */
  ghost predicate Agrees(log: seq<Write>, off: nat, buf: seq<Byte>) {
    forall i: nat | off <= i < off + |buf| && LastWritten(log, i).Some? :: buf[i - off] == LastWritten(log, i).value
  }

  /** The writes since the first `at` have not touched the range. */
  ghost predicate Same(log: seq<Write>, at: nat, off: nat, size: nat)
    requires at <= |log|
  {
    forall i: nat | off <= i < off + size :: LastWritten(log, i) == LastWritten(log[..at], i)
  }

  /** The number of bytes of the range in a file of length `end`. */
  function Within(off: nat, size: nat, end: nat): nat { if end <= off then 0 else Min(size, end - off) }

  ghost predicate PcOk(f: Memory, pc: Pc) {
    && (!pc.Idle? ==> 0 < pc.size)
    && match pc
       case Fetch(_, size, data) => |data| <= size
       case Acquire(off, size, data) => |data| <= size && off + size <= |f.bytes|
       case Put(off, size, data, done) =>
         |data| <= size && off + size <= |f.bytes| && done <= |data| && f.bytes[off..off + done] == data[..done]
       case Grow(off, size, data) => |data| <= size && off + size <= |f.bytes| && f.bytes[off..off + |data|] == data
       case Leave(off, size, data) => |data| <= size && Write(off, data) in f.log
       case Get(off, size, end, at, buf) =>
         && at <= |f.log| == |f.ends| && off + |buf| <= end == off + Within(off, size, EndOf(f.ends[..at]))
         && end <= |f.bytes| && Agrees(f.log[..at], off, buf) && Same(f.log, at, off, size)
       case Done(off, size, at, buf) => ReadOk(f, Read(0, off, size, at, buf))
       case _ => true
  }

  /** What a read returns that looked after the first `at` writes: its part of the file that those left. */
  ghost predicate ReadOk(f: Memory, r: Read) {
    && r.at <= |f.log| == |f.ends| && |r.buf| == Within(r.off, r.size, EndOf(f.ends[..r.at]))
    && Agrees(f.log[..r.at], r.off, r.buf)
  }

  ghost predicate FileOk(f: Memory) { f.used == EndOf(f.ends) <= |f.bytes| && EndsOk(f.log, f.ends) }

  ghost predicate MemoryOk(s: State) {
    && FileOk(s.file) && Clean(s.file, s.pcs)
    && (forall th | th in s.pcs :: PcOk(s.file, s.pcs[th]))
    && (forall r | r in s.past :: ReadOk(s.file, r))
  }

  ghost predicate Inv(s: State) {
    L.Inv(s.lock) && OwnersOk(s.owners, s.lock.held, s.pcs) && MemoryOk(s)
  }

  // ---------------------------------------------------------------------------------------------
  // The lock

  /** Two threads past `lock_range`, one of them writing, work on different offsets. */
  lemma Apart(s: State, t: nat, u: nat, i: int)
    requires L.Inv(s.lock) && OwnersOk(s.owners, s.lock.held, s.pcs)
    requires t in s.pcs && u in s.pcs && t != u && s.pcs[t].Touches(i) && s.pcs[u].Holding()
    ensures !s.pcs[u].Has(i)
  {
    hide L.Inv;
    assert t in s.owners && u in s.owners;
    var j :| 0 <= j < |s.owners| && s.owners[j] == t;
    var k :| 0 <= k < |s.owners| && s.owners[k] == u;
    assert Matches(s.pcs[t], s.lock.held[j]) && Matches(s.pcs[u], s.lock.held[k]);
    Safety.WriterApart(s.lock, j, k);
  }

  /** A thread moves on without giving up or gaining a lock. */
  lemma OwnersMove(owners: seq<nat>, held: seq<L.Lock>, pcs: map<nat, Pc>, th: nat, pc: Pc)
    requires OwnersOk(owners, held, pcs)
    requires var was := if th in pcs then pcs[th] else Idle;
      && (pc.Holding() <==> was.Holding()) && (pc.Writing() <==> was.Writing())
      && (pc.Holding() ==> pc.off == was.off && pc.size == was.size)
    ensures OwnersOk(owners, held, pcs[th := pc])
  {
    var pcs' := pcs[th := pc];
    forall k | 0 <= k < |owners| ensures owners[k] in pcs' && Matches(pcs'[owners[k]], held[k]) {
      assert Matches(pcs[owners[k]], held[k]);
    }
  }

  lemma OwnersGain(owners: seq<nat>, held: seq<L.Lock>, pcs: map<nat, Pc>, th: nat, pc: Pc, l: L.Lock)
    requires OwnersOk(owners, held, pcs) && (th in pcs ==> !pcs[th].Holding()) && Matches(pc, l)
    ensures OwnersOk(owners + [th], held + [l], pcs[th := pc])
  {
    var owners', held', pcs' := owners + [th], held + [l], pcs[th := pc];
    assert th !in owners;
    forall k | 0 <= k < |owners'| ensures owners'[k] in pcs' && Matches(pcs'[owners'[k]], held'[k]) {
      if k < |owners| { assert owners[k] in owners && Matches(pcs[owners[k]], held[k]); }
    }
    forall t | t in pcs' && pcs'[t].Holding() ensures t in owners' {
      if t != th { assert t in owners; }
    }
  }

  lemma OwnersLose(owners: seq<nat>, held: seq<L.Lock>, pcs: map<nat, Pc>, k: nat)
    requires OwnersOk(owners, held, pcs) && k < |owners|
    ensures OwnersOk(owners[..k] + owners[k + 1..], held[..k] + held[k + 1..], pcs[owners[k] := Idle])
  {
    var owners', held', pcs' := owners[..k] + owners[k + 1..], held[..k] + held[k + 1..], pcs[owners[k] := Idle];
    forall i | 0 <= i < |owners'| ensures owners'[i] in pcs' && Matches(pcs'[owners'[i]], held'[i]) {
      var j := if i < k then i else i + 1;
      assert owners'[i] == owners[j] && held'[i] == held[j] && Matches(pcs[owners[j]], held[j]);
    }
    forall t | t in pcs' && pcs'[t].Holding() ensures t in owners' {
      assert t in owners && t != owners[k];
      var j :| 0 <= j < |owners| && owners[j] == t;
      assert owners'[if j < k then j else j - 1] == t;
    }
  }

  // ---------------------------------------------------------------------------------------------
  // The memory

  lemma LastSnoc(log: seq<Write>, w: Write, i: nat)
    ensures LastWritten(log + [w], i) == if w.Has(i) then Some(w.data[i - w.offset]) else LastWritten(log, i)
  {
    assert (log + [w])[..|log|] == log;
  }

  lemma EndSnoc(ends: seq<nat>, e: nat)
    ensures EndOf(ends + [e]) == Max(EndOf(ends), e)
  {
    assert (ends + [e])[..|ends|] == ends;
  }

  /** What is written lies within the file. */
  lemma {:induction false} WrittenInside(log: seq<Write>, ends: seq<nat>, i: nat)
    requires EndsOk(log, ends)
    ensures LastWritten(log, i).Some? ==> i < EndOf(ends)
  {
    if log != [] {
      var n := |log| - 1;
      WrittenInside(log[..n], ends[..n], i);
    }
  }

  /** Quiet offsets stay quiet when the thread goes on with the same bytes, or has none. */
  lemma CleanMove(f: Memory, pcs: map<nat, Pc>, th: nat, pc: Pc)
    requires Clean(f, pcs)
    requires forall i :: th in pcs && pcs[th].Touches(i) ==> pc.Touches(i)
    ensures Clean(f, pcs[th := pc])
  {
    var pcs' := pcs[th := pc];
    forall i: nat | LastWritten(f.log, i).Some? && Quiet(pcs', i)
      ensures i < |f.bytes| && f.bytes[i] == LastWritten(f.log, i).value
    {
      forall t | t in pcs ensures !pcs[t].Touches(i) { assert t in pcs' && !pcs'[t].Touches(i); }
    }
  }

  lemma MemoryMove(s: State, th: nat, pc: Pc)
    requires MemoryOk(s) && PcOk(s.file, pc)
    requires forall i :: s.PcOf(th).Touches(i) ==> pc.Touches(i)
    ensures MemoryOk(To(s, th, pc))
  {
    hide Clean, FileOk, PcOk, ReadOk;
    CleanMove(s.file, s.pcs, th, pc);
  }

  lemma Extends(s: State, memory: seq<Byte>)
    requires MemoryOk(s)
    ensures MemoryOk(s.(file := Extended(s.file, memory)))
  {
    hide Agrees, Same;
    forall th | th in s.pcs ensures PcOk(Extended(s.file, memory), s.pcs[th]) { PcExtends(s.file, memory, s.pcs[th]); }
  }

  lemma PcExtends(f: Memory, memory: seq<Byte>, pc: Pc)
    requires PcOk(f, pc)
    ensures PcOk(Extended(f, memory), pc)
  {
    assert forall a, e | 0 <= a <= e <= |f.bytes| :: (f.bytes + memory)[a..e] == f.bytes[a..e];
  }

  /** A writer copies one byte into its own range. */
  lemma PcStored(f: Memory, i: nat, b: Byte, pc: Pc)
    requires PcOk(f, pc) && i < |f.bytes| && !pc.Touches(i)
    ensures PcOk(Stored(f, i, b), pc)
  {
    hide Agrees, Same;
    var bytes' := f.bytes[i := b];
    if pc.Put? || pc.Grow? {
      var n := if pc.Put? then pc.done else |pc.data|;
      forall k | 0 <= k < n ensures bytes'[pc.off..pc.off + n][k] == pc.data[k] {
        assert f.bytes[pc.off..pc.off + n][k] == pc.data[..n][k];
      }
      assert bytes'[pc.off..pc.off + n] == pc.data[..n] && pc.data[..|pc.data|] == pc.data;
    }
  }

  /** A write elsewhere does not concern a reader. */
  lemma PcGrown(f: Memory, off: nat, size: nat, data: seq<Byte>, pc: Pc)
    requires FileOk(f) && PcOk(f, pc) && (pc.Reading() ==> forall i: nat | Write(off, data).Has(i) :: !pc.Has(i))
    ensures PcOk(Grown(f, off, size, data), pc)
  {
    var f' := Grown(f, off, size, data);
    if pc.Get? {
      Prefixes(f, off, size, data, pc.at);
      forall i: nat | pc.off <= i < pc.off + pc.size ensures LastWritten(f'.log, i) == LastWritten(f'.log[..pc.at], i) {
        LastSnoc(f.log, Write(off, data), i);
      }
    } else if pc.Done? {
      ReadLater(f, off, size, data, Read(0, pc.off, pc.size, pc.at, pc.buf));
    }
  }

  lemma Prefixes(f: Memory, off: nat, size: nat, data: seq<Byte>, at: nat)
    requires at <= |f.log| == |f.ends|
    ensures Grown(f, off, size, data).log[..at] == f.log[..at] && Grown(f, off, size, data).ends[..at] == f.ends[..at]
  {
  }

  lemma ReadLater(f: Memory, off: nat, size: nat, data: seq<Byte>, r: Read)
    requires ReadOk(f, r)
    ensures ReadOk(Grown(f, off, size, data), r)
  {
    Prefixes(f, off, size, data, r.at);
  }

  // ---------------------------------------------------------------------------------------------
  // Steps

  lemma PcIsOk(s: State, th: nat)
    requires Inv(s)
    ensures PcOk(s.file, s.PcOf(th)) && FileOk(s.file)
  {
    hide L.Inv, OwnersOk, Clean, ReadOk, FileOk;
  }

  predicate SameHold(was: Pc, pc: Pc) {
    && (pc.Holding() <==> was.Holding()) && (pc.Writing() <==> was.Writing())
    && (pc.Holding() ==> pc.off == was.off && pc.size == was.size)
  }

  lemma MoveInv(s: State, th: nat, pc: Pc)
    requires Inv(s) && PcOk(s.file, pc) && SameHold(s.PcOf(th), pc)
    requires forall i :: s.PcOf(th).Touches(i) ==> pc.Touches(i)
    ensures Inv(To(s, th, pc))
  {
    hide L.Inv, MemoryOk, PcOk, OwnersOk;
    OwnersMove(s.owners, s.lock.held, s.pcs, th, pc);
    MemoryMove(s, th, pc);
  }

  lemma FetchInv(s: State, th: nat, memory: seq<Byte>)
    requires Inv(s) && s.PcOf(th).Fetch? && s.PcOf(th).off + s.PcOf(th).size <= |s.file.bytes + memory|
    ensures var pc := s.PcOf(th);
      Inv(To(s.(file := Extended(s.file, memory)), th, Acquire(pc.off, pc.size, pc.data)))
  {
    hide L.Inv, MemoryOk, OwnersOk;
    var pc := s.PcOf(th);
    PcIsOk(s, th);
    Extends(s, memory);
    MoveInv(s.(file := Extended(s.file, memory)), th, Acquire(pc.off, pc.size, pc.data));
  }

  lemma AttemptHeld(st: L.State, th: nat, req: L.Request, retried: bool) returns (l: L.Lock)
    requires L.Attempt(st, th, req, retried).Next?
    ensures var held := L.Attempt(st, th, req, retried).state.held;
      if |held| > |st.held| then held == st.held + [l] && l.start == req.start && l.end == req.end && l.kind == req.kind
      else held == st.held
  {
    var held := L.Attempt(st, th, req, retried).state.held;
    l := if held != [] then held[|held| - 1] else L.Lock(0, 0, req.kind, L.Null);
  }

  lemma BusySize(f: Memory, pc: Pc)
    requires PcOk(f, pc) && !pc.Idle?
    ensures 0 < pc.size
  {
  }

  lemma LockInv(s: State, th: nat, a: Action, next: Pc)
    requires Inv(s) && Enabled(s, th, a) && (s.PcOf(th).Acquire? || s.PcOf(th).Await?)
    requires next.Holding() && next.off == s.PcOf(th).off && next.size == s.PcOf(th).size
    requires (next.Writing() <==> s.PcOf(th).Acquire?) && PcOk(s.file, next)
    ensures Inv(Locking(s, th, Tried(s, th, a).state, next))
  {
    hide L.Inv, L.Attempt, MemoryOk, PcOk, OwnersOk;
    var pc := s.PcOf(th);
    var req, retried := Ask(pc), th in s.lock.pending && a.Go? && !a.retest;
    PcIsOk(s, th);
    BusySize(s.file, pc);
    var lock := Tried(s, th, a).state;
    Safety.AttemptInv(s.lock, th, req, retried);
    var l := AttemptHeld(s.lock, th, req, retried);
    if |lock.held| > |s.lock.held| {
      OwnersGain(s.owners, s.lock.held, s.pcs, th, next, l);
      MemoryMove(s, th, next);
      SameMemory(To(s, th, next), s.(lock := lock, owners := s.owners + [th]), th, next);
    } else {
      SameMemory(s, s.(lock := lock), th, pc);
    }
  }

  lemma SameMemory(s: State, s': State, th: nat, pc: Pc)
    requires MemoryOk(s) && s.PcOf(th) == pc && s'.file == s.file && s'.past == s.past
    ensures s'.pcs == s.pcs ==> MemoryOk(s')
    ensures s'.pcs[th := pc] == s.pcs ==> MemoryOk(To(s', th, pc))
  {
    hide Clean, FileOk, PcOk, ReadOk;
  }

  lemma PutOthers(s: State, th: nat, i: nat, b: Byte, t: nat)
    requires Inv(s) && th in s.pcs && s.pcs[th].Touches(i) && i < |s.file.bytes| && t in s.pcs && t != th
    ensures PcOk(Stored(s.file, i, b), s.pcs[t])
  {
    hide L.Inv, OwnersOk, PcOk, MemoryOk;
    PcIsOk(s, t);
    if s.pcs[t].Holding() { Apart(s, th, t, i); }
    PcStored(s.file, i, b, s.pcs[t]);
  }

  lemma PutOwn(f: Memory, off: nat, size: nat, data: seq<Byte>, done: nat)
    requires PcOk(f, Put(off, size, data, done)) && done < |data|
    ensures off + done < |f.bytes| && Put(off, size, data, done).Touches(off + done)
    ensures PcOk(Stored(f, off + done, data[done]), Put(off, size, data, done + 1))
  {
    assert f.bytes[off + done := data[done]][off..off + done + 1] == f.bytes[off..off + done] + [data[done]];
  }

  lemma PutInv(s: State, th: nat, off: nat, size: nat, data: seq<Byte>, done: nat)
    requires Inv(s) && s.PcOf(th) == Put(off, size, data, done) && done < |data|
    ensures off + done < |s.file.bytes|
    ensures Inv(To(s.(file := Stored(s.file, off + done, data[done])), th, Put(off, size, data, done + 1)))
  {
    hide L.Inv, PcOk, Clean, OwnersOk;
    PcIsOk(s, th);
    PutOwn(s.file, off, size, data, done);
    var i, pc' := off + done, Put(off, size, data, done + 1);
    forall t | t in s.pcs && t != th ensures PcOk(Stored(s.file, i, data[done]), s.pcs[t]) {
      PutOthers(s, th, i, data[done], t);
    }
    CleanMove(s.file, s.pcs, th, pc');
    CleanStored(s.file, s.pcs[th := pc'], th, i, data[done]);
    OwnersMove(s.owners, s.lock.held, s.pcs, th, pc');
  }

  lemma CleanStored(f: Memory, pcs: map<nat, Pc>, th: nat, i: nat, b: Byte)
    requires Clean(f, pcs) && i < |f.bytes| && th in pcs && pcs[th].Touches(i)
    ensures Clean(Stored(f, i, b), pcs)
  {
  }

  /** The write enters the history: its bytes are in place, and it raises the size. */
  lemma CleanGrown(f: Memory, pcs: map<nat, Pc>, th: nat, off: nat, size: nat, data: seq<Byte>)
    requires Clean(f, pcs) && th in pcs && pcs[th] == Grow(off, size, data) && PcOk(f, pcs[th])
    ensures Clean(Grown(f, off, size, data), pcs[th := Leave(off, size, data)])
  {
    var w, pcs', f' := Write(off, data), pcs[th := Leave(off, size, data)], Grown(f, off, size, data);
    forall i: nat | LastWritten(f'.log, i).Some? && Quiet(pcs', i)
      ensures i < |f.bytes| && f.bytes[i] == LastWritten(f'.log, i).value
    {
      LastSnoc(f.log, w, i);
      if w.Has(i) {
        assert f.bytes[off..off + |data|][i - off] == data[i - off];
      } else {
        forall t | t in pcs ensures !pcs[t].Touches(i) { assert t in pcs' && !pcs'[t].Touches(i); }
        assert Quiet(pcs, i);
      }
    }
  }

  lemma FileGrown(f: Memory, off: nat, size: nat, data: seq<Byte>)
    requires FileOk(f) && off + size <= |f.bytes| && |data| <= size
    ensures FileOk(Grown(f, off, size, data))
  {
    EndSnoc(f.ends, off + size);
  }

  lemma GrowOthers(s: State, th: nat, off: nat, size: nat, data: seq<Byte>, t: nat)
    requires Inv(s) && s.PcOf(th) == Grow(off, size, data) && t in s.pcs && t != th
    ensures PcOk(Grown(s.file, off, size, data), s.pcs[t])
  {
    hide L.Inv, OwnersOk, MemoryOk;
    PcIsOk(s, th);
    PcIsOk(s, t);
    if s.pcs[t].Reading() {
      forall i: nat | Write(off, data).Has(i) ensures !s.pcs[t].Has(i) { Apart(s, th, t, i); }
    }
    hide PcOk;
    PcGrown(s.file, off, size, data, s.pcs[t]);
  }

  lemma GrowInv(s: State, th: nat, off: nat, size: nat, data: seq<Byte>)
    requires Inv(s) && s.PcOf(th) == Grow(off, size, data)
    ensures Inv(To(s.(file := Grown(s.file, off, size, data), makers := s.makers + [th]), th, Leave(off, size, data)))
  {
    hide L.Inv, OwnersOk, PcOk, ReadOk, Clean, FileOk;
    PcIsOk(s, th);
    GrowOwn(s.file, off, size, data);
    forall t | t in s.pcs && t != th ensures PcOk(Grown(s.file, off, size, data), s.pcs[t]) {
      GrowOthers(s, th, off, size, data, t);
    }
    forall r | r in s.past ensures ReadOk(Grown(s.file, off, size, data), r) { ReadLater(s.file, off, size, data, r); }
    CleanGrown(s.file, s.pcs, th, off, size, data);
    FileGrown(s.file, off, size, data);
    OwnersMove(s.owners, s.lock.held, s.pcs, th, Leave(off, size, data));
  }

  lemma GrowOwn(f: Memory, off: nat, size: nat, data: seq<Byte>)
    requires PcOk(f, Grow(off, size, data))
    ensures off + size <= |f.bytes| && |data| <= size && PcOk(Grown(f, off, size, data), Leave(off, size, data))
  {
  }

  lemma OwnerHolds(owners: seq<nat>, held: seq<L.Lock>, pcs: map<nat, Pc>, th: nat)
    requires OwnersOk(owners, held, pcs) && th in pcs && pcs[th].Holding()
    ensures th in owners && |owners| == |held|
  {
  }

  lemma UnlockHeld(st: L.State, k: nat)
    requires k < |st.held|
    ensures L.Unlock(st, k).held == st.held[..k] + st.held[k + 1..]
  {
  }

  /** What unlocking leaves of the lock and of the owners. */
  lemma UnlockOwners(s: State, th: nat)
    requires L.Inv(s.lock) && OwnersOk(s.owners, s.lock.held, s.pcs) && s.PcOf(th).Holding()
    ensures var s' := Unlocking(s, th);
      && L.Inv(s'.lock) && OwnersOk(s'.owners, s'.lock.held, s'.pcs)
      && s'.pcs == s.pcs[th := Idle] && s'.file == s.file && s'.past == s.past
  {
    hide L.Inv, OwnersOk, L.Unlock, IndexOf;
    OwnerHolds(s.owners, s.lock.held, s.pcs, th);
    var k := IndexOf(s.owners, th);
    UnlockHeld(s.lock, k);
    Safety.UnlockInv(s.lock, k);
    OwnersLose(s.owners, s.lock.held, s.pcs, k);
  }

  lemma UnlockInv(s: State, th: nat)
    requires Inv(s) && (s.PcOf(th).Leave? || s.PcOf(th).Reading())
    ensures Inv(Unlocking(s, th))
  {
    hide L.Inv, OwnersOk, MemoryOk, PcOk;
    IdleOk(s.file);
    MemoryMove(s, th, Idle);
    UnlockOwners(s, th);
    SameMemory(To(s, th, Idle), Unlocking(s, th), th, Idle);
  }

  lemma IdleOk(f: Memory)
    ensures PcOk(f, Idle)
  {
  }

  lemma DoneInv(s: State, th: nat, off: nat, size: nat, at: nat, buf: seq<Byte>)
    requires Inv(s) && s.PcOf(th) == Done(off, size, at, buf)
    ensures Inv(Unlocking(s.(past := s.past + [Read(th, off, size, at, buf)]), th))
  {
    hide L.Inv, OwnersOk, MemoryOk, Unlocking, ReadOk;
    PcIsOk(s, th);
    PastGrows(s, th, off, size, at, buf);
    UnlockInv(s.(past := s.past + [Read(th, off, size, at, buf)]), th);
  }

  lemma PastGrows(s: State, th: nat, off: nat, size: nat, at: nat, buf: seq<Byte>)
    requires MemoryOk(s) && ReadOk(s.file, Read(0, off, size, at, buf))
    ensures MemoryOk(s.(past := s.past + [Read(th, off, size, at, buf)]))
  {
    hide Clean, FileOk, PcOk;
  }

  lemma LookOk(f: Memory, off: nat, size: nat)
    requires FileOk(f) && 0 < size
    ensures PcOk(f, Looked(off, size, f))
  {
    assert f.log[..|f.log|] == f.log && f.ends[..|f.ends|] == f.ends;
  }

  lemma LookInv(s: State, th: nat, off: nat, size: nat)
    requires Inv(s) && s.PcOf(th) == Look(off, size)
    ensures Inv(To(s, th, Looked(off, size, s.file)))
  {
    hide Inv, PcOk;
    PcIsOk(s, th);
    BusySize(s.file, s.PcOf(th));
    LookOk(s.file, off, size);
    MoveInv(s, th, Looked(off, size, s.file));
  }

  /** No writer is at work in the range of a reader. */
  lemma QuietByte(s: State, th: nat, i: nat)
    requires Inv(s) && th in s.pcs && s.pcs[th].Reading() && s.pcs[th].Has(i)
    ensures LastWritten(s.file.log, i).Some? ==>
      i < |s.file.bytes| && s.file.bytes[i] == LastWritten(s.file.log, i).value
  {
    hide L.Inv, PcOk, OwnersOk, ReadOk, FileOk;
    forall t | t in s.pcs ensures !s.pcs[t].Touches(i) {
      if t != th && s.pcs[t].Touches(i) { Apart(s, t, th, i); }
    }
    assert Quiet(s.pcs, i);
  }

  lemma GetBounds(f: Memory, off: nat, size: nat, end: nat, at: nat, buf: seq<Byte>)
    requires PcOk(f, Get(off, size, end, at, buf)) && off + |buf| < end
    ensures off + |buf| < |f.bytes| && off + |buf| < off + size
  {
  }

  lemma GetOk(f: Memory, off: nat, size: nat, end: nat, at: nat, buf: seq<Byte>)
    requires PcOk(f, Get(off, size, end, at, buf)) && off + |buf| < end
    requires var i := off + |buf|;
      LastWritten(f.log, i).Some? ==> i < |f.bytes| && f.bytes[i] == LastWritten(f.log, i).value
    ensures PcOk(f, Get(off, size, end, at, buf + [f.bytes[off + |buf|]]))
  {
    assert LastWritten(f.log, off + |buf|) == LastWritten(f.log[..at], off + |buf|);
  }

  lemma GetInv(s: State, th: nat, off: nat, size: nat, end: nat, at: nat, buf: seq<Byte>)
    requires Inv(s) && s.PcOf(th) == Get(off, size, end, at, buf) && off + |buf| < end
    ensures off + |buf| < |s.file.bytes|
    ensures Inv(To(s, th, Get(off, size, end, at, buf + [s.file.bytes[off + |buf|]])))
  {
    hide Inv, PcOk;
    PcIsOk(s, th);
    var i := off + |buf|;
    GetBounds(s.file, off, size, end, at, buf);
    QuietByte(s, th, i);
    GetOk(s.file, off, size, end, at, buf);
    MoveInv(s, th, Get(off, size, end, at, buf + [s.file.bytes[i]]));
  }

  /** Every step of every thread keeps the invariant. */
  lemma StepInv(s: State, th: nat, a: Action)
    requires Inv(s) && Enabled(s, th, a)
    ensures Inv(Step(s, th, a))
  {
    var pc := s.PcOf(th);
    hide Inv, Unlocking, Locking, Tried, Agrees, Same;
    PcIsOk(s, th);
    match pc
    case Idle => MoveInv(s, th, if a.Store? then Fetch(a.off, a.size, a.data) else Await(a.off, a.size));
    case Fetch(_, _, _) => FetchInv(s, th, a.memory);
    case Acquire(off, size, data) => LockInv(s, th, a, Put(off, size, data, 0));
    case Put(off, size, data, done) =>
      if done < |data| {
        PutInv(s, th, off, size, data, done);
      } else {
        assert data[..done] == data;
        MoveInv(s, th, Grow(off, size, data));
      }
    case Grow(off, size, data) => GrowInv(s, th, off, size, data);
    case Leave(_, _, _) => UnlockInv(s, th);
    case Await(off, size) => LockInv(s, th, a, Look(off, size));
    case Look(off, size) => LookInv(s, th, off, size);
    case Get(off, size, end, at, buf) =>
      if off + |buf| < end {
        GetInv(s, th, off, size, end, at, buf);
      } else {
        MoveInv(s, th, Done(off, size, at, buf));
      }
    case Done(off, size, at, buf) => DoneInv(s, th, off, size, at, buf);
  }

  lemma {:induction false} RunInv(run: seq<(nat, Action)>)
    ensures Inv(After(run))
  {
    if run != [] {
      RunInv(run[..|run| - 1]);
      var s := After(run[..|run| - 1]);
      var (th, a) := run[|run| - 1];
      if Enabled(s, th, a) { StepInv(s, th, a); }
    } else {
      assert LastWritten([], 0) == None;
    }
  }

  // ---------------------------------------------------------------------------------------------
  // What readers see

  /** After every run, each finished read has returned its part of the file that the first `r.at` writes leave, when
      they are made one after the other: as many bytes as the range has below the end of that file, and every byte that
      those writes wrote, with its value. */
  lemma ReadsAreSerial(run: seq<(nat, Action)>, r: Read, i: nat)
    requires r in After(run).past && r.off <= i < r.off + r.size
    ensures var f := After(run).file;
      && r.at <= |f.log| == |f.ends| && |r.buf| == Within(r.off, r.size, EndOf(f.ends[..r.at]))
      && var v := LastWritten(f.log[..r.at], i);
         v.Some? ==> i < r.off + |r.buf| && r.buf[i - r.off] == v.value
  {
    hide L.Inv, OwnersOk, After, PcOk, Clean;
    RunInv(run);
    var f := After(run).file;
    assert ReadOk(f, r);
    WrittenInside(f.log[..r.at], f.ends[..r.at], i);
  }

  /** A step adds one write to the history at most, at its end, and keeps the finished reads. */
  lemma StepHistory(s: State, th: nat, a: Action)
    requires Enabled(s, th, a)
    ensures s.file.log <= Step(s, th, a).file.log && s.past <= Step(s, th, a).past
  {
  }

  /** The writes that have been made keep their places along every run. */
  lemma {:induction false} HistoryGrows(run: seq<(nat, Action)>, j: nat, k: nat)
    requires j <= k <= |run|
    ensures After(run[..j]).file.log <= After(run[..k]).file.log && After(run[..j]).past <= After(run[..k]).past
    decreases k
  {
    hide After, Step;
    if j < k {
      HistoryGrows(run, j, k - 1);
      AfterNext(run, k);
      var s := After(run[..k - 1]);
      if Enabled(s, run[k - 1].0, run[k - 1].1) { StepHistory(s, run[k - 1].0, run[k - 1].1); }
    }
  }

  lemma AfterNext(run: seq<(nat, Action)>, k: nat)
    requires 0 < k <= |run|
    ensures var s := After(run[..k - 1]);
      After(run[..k]) == if Enabled(s, run[k - 1].0, run[k - 1].1) then Step(s, run[k - 1].0, run[k - 1].1) else s
  {
    assert run[..k][..k - 1] == run[..k - 1];
  }

  predicate HasLooked(pc: Pc) { pc.Get? || pc.Done? }

  /** What a step makes of the reader `u` and of its reads: it looks at all writes made so far, or has looked before. */
  lemma StepLooks(s: State, th: nat, a: Action, u: nat, r: Read)
    requires Enabled(s, th, a)
    ensures var pc := Step(s, th, a).PcOf(u);
      HasLooked(pc) ==> pc.at == |s.file.log| || (HasLooked(s.PcOf(u)) && pc.at == s.PcOf(u).at)
    ensures r in Step(s, th, a).past && r.th == u ==> r in s.past || (s.PcOf(u).Done? && s.PcOf(u).at == r.at)
  {
    hide Tried, L.Unlock, IndexOf;
  }

  /** A read that has not yet looked after the first `j` steps sees all writes made in them. */
  lemma {:induction false} LooksLater(run: seq<(nat, Action)>, j: nat, k: nat, u: nat, r: Read)
    requires j <= k <= |run| && !HasLooked(After(run[..j]).PcOf(u))
    ensures var n, pc := |After(run[..j]).file.log|, After(run[..k]).PcOf(u);
      && (HasLooked(pc) ==> n <= pc.at)
      && (r in After(run[..k]).past && r.th == u ==> r in After(run[..j]).past || n <= r.at)
    decreases k
  {
    hide After, Step, Enabled;
    if j < k {
      LooksLater(run, j, k - 1, u, r);
      HistoryGrows(run, j, k - 1);
      AfterNext(run, k);
      var s := After(run[..k - 1]);
      if Enabled(s, run[k - 1].0, run[k - 1].1) { StepLooks(s, run[k - 1].0, run[k - 1].1, u, r); }
    }
  }

  /** Real-time order: a read by a thread that was idle after the first `j` steps, and that has finished since, sees
      all writes that were in the history then; a write is, from before it unlocks its range. */
  lemma ReadsSeeFinishedWrites(run: seq<(nat, Action)>, j: nat, r: Read)
    requires j <= |run| && r in After(run).past && r !in After(run[..j]).past && After(run[..j]).PcOf(r.th).Idle?
    ensures |After(run[..j]).file.log| <= r.at <= |After(run).file.log|
    ensures After(run[..j]).file.log <= After(run).file.log[..r.at]
  {
    assert run[..|run|] == run;
    hide After;
    LooksLater(run, j, |run|, r.th, r);
    HistoryGrows(run, j, |run|);
    ReadInside(run, r);
  }

  lemma ReadInside(run: seq<(nat, Action)>, r: Read)
    requires r in After(run).past
    ensures r.at <= |After(run).file.log|
  {
    hide L.Inv, OwnersOk, After, PcOk, Clean;
    RunInv(run);
    assert ReadOk(After(run).file, r);
  }

  /** A writer is in the history from before it unlocks its range. */
  lemma FinishedWritesAreLogged(run: seq<(nat, Action)>, th: nat)
    requires After(run).PcOf(th).Leave?
    ensures var pc := After(run).PcOf(th); Write(pc.off, pc.data) in After(run).file.log
  {
    hide Inv, After;
    RunInv(run);
    PcIsOk(After(run), th);
  }

  /** When no writer is past `lock_range`, the file is what its writes make of it, one after the other. */
  lemma QuietFileIsSerial(run: seq<(nat, Action)>)
    requires forall th :: !After(run).PcOf(th).Writing()
    ensures var f := After(run).file; Remembers(f.bytes, f.used, f.log) && f.used == EndOf(f.ends)
  {
    hide L.Inv, OwnersOk, After, PcOk, ReadOk;
    RunInv(run);
    var s := After(run);
    forall i: nat ensures Quiet(s.pcs, i) {
      forall th | th in s.pcs ensures !s.pcs[th].Touches(i) { assert !s.PcOf(th).Writing(); }
    }
    forall i: nat | LastWritten(s.file.log, i).Some? ensures i < s.file.used {
      WrittenInside(s.file.log, s.file.ends, i);
    }
  }

  /** Nobody waits for nobody: a sleeper waits for a lock whose owner can go on. */
  lemma SleepersWaitForTheBusy(run: seq<(nat, Action)>, th: nat) returns (owner: nat, l: L.Lock)
    requires th in After(run).lock.parked
    ensures var s := After(run);
      && owner in s.owners && l in s.lock.held && Matches(s.PcOf(owner), l)
      && th in s.lock.pending && l.start < s.lock.pending[th].end && s.lock.pending[th].start < l.end
      && Enabled(s, owner, Go([], true))
  {
    hide L.Inv, After, MemoryOk;
    RunInv(run);
    var s := After(run);
    var r;
    r, l := Safety.SleeperBlocked(s.lock, th);
    var k :| 0 <= k < |s.lock.held| && s.lock.held[k] == l;
    owner := s.owners[k];
    assert Matches(s.pcs[owner], l);
  }
}
