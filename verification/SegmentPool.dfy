/**
  `big_pool`: a bitmap allocator of runs of equal segments. A request first tries the place right
  behind the last allocation and then scans from the start.
 */
module SegmentPool {
  import opened Basics

  /** A run of segments that has been handed out. */
  datatype Block = Block(start: nat, count: nat) {
    predicate Has(i: int) { start <= i < start + count }
  }

  ghost predicate Clear(bits: seq<bool>, s: nat, n: nat) {
    s + n <= |bits| && forall i | s <= i < s + n :: !bits[i]
  }

  /** The bitmap with the segments [s, s + n) marked as `v`. */
  function Mark(bits: seq<bool>, s: nat, n: nat, v: bool): seq<bool> {
    seq(|bits|, i requires 0 <= i < |bits| => if s <= i < s + n then v else bits[i])
  }

  /** The distance from `s` to the first used segment of [s, s + n), or n. */
  function FirstUsed(bits: seq<bool>, s: nat, n: nat): (i: nat)
    requires s + n <= |bits|
    ensures i <= n && Clear(bits, s, i) && (i < n ==> bits[s + i])
    decreases n
  {
    if n == 0 || bits[s] then 0 else 1 + FirstUsed(bits, s + 1, n - 1)
  }

  /** The scan: after a used segment at distance i it goes on at j + i + 2. */
  function Scan(bits: seq<bool>, j: nat, n: nat, m: nat): Option<nat>
    requires m <= |bits|
    decreases m - j
  {
    if j >= m || n + j >= m then None
    else
      var i := FirstUsed(bits, j, n);
      if i == n then Some(j) else Scan(bits, j + i + 2, n, m)
  }

  /** Where `allocate` finds room: at the last offset, or by the scan. */
  function Search(bits: seq<bool>, offset: nat, n: nat, m: nat): Option<nat>
    requires m <= |bits|
  {
    if n + offset < m && FirstUsed(bits, offset, n) == n then Some(offset) else Scan(bits, 0, n, m)
  }

  lemma {:induction false} ScanSound(bits: seq<bool>, j: nat, n: nat, m: nat)
    requires m <= |bits|
    ensures var r := Scan(bits, j, n, m); r.Some? ==> r.value + n < m && Clear(bits, r.value, n)
    decreases m - j
  {
    if j < m && n + j < m {
      var i := FirstUsed(bits, j, n);
      if i != n { ScanSound(bits, j + i + 2, n, m); }
    }
  }

  /** What the search returns is free and in bounds; the last segment is never handed out. */
  lemma SearchSound(bits: seq<bool>, offset: nat, n: nat, m: nat)
    requires m <= |bits|
    ensures var r := Search(bits, offset, n, m); r.Some? ==> r.value + n < m && Clear(bits, r.value, n)
  {
    ScanSound(bits, 0, n, m);
  }

  /** The number of used segments right before `s`. */
  function UsedBefore(bits: seq<bool>, s: nat): nat
    requires s <= |bits|
  {
    if s == 0 || !bits[s - 1] then 0 else 1 + UsedBefore(bits, s - 1)
  }

  /** A free run that the scan does not step over: an even number of used segments precedes it. */
  ghost predicate Fits(bits: seq<bool>, s: nat, n: nat, m: nat) {
    s + n < m <= |bits| && Clear(bits, s, n) && UsedBefore(bits, s) % 2 == 0
  }

  /** The scan lands only behind an even number of used segments. */
  lemma LandsEven(bits: seq<bool>, j: nat, i: nat)
    requires j + i < |bits| && Clear(bits, j, i) && bits[j + i] && UsedBefore(bits, j) % 2 == 0
    ensures UsedBefore(bits, j + i) % 2 == 0 && UsedBefore(bits, j + i + 1) % 2 == 1
    ensures j + i + 2 <= |bits| ==> UsedBefore(bits, j + i + 2) % 2 == 0
  {
    if i > 0 { assert !bits[j + i - 1]; }
  }

  lemma {:induction false} ScanIff(bits: seq<bool>, j: nat, n: nat, m: nat)
    requires m <= |bits| && (j <= |bits| ==> UsedBefore(bits, j) % 2 == 0)
    ensures Scan(bits, j, n, m).Some? <==> exists s :: j <= s && Fits(bits, s, n, m)
    decreases m - j
  {
    if j < m && n + j < m {
      var i := FirstUsed(bits, j, n);
      if i == n {
        assert Fits(bits, j, n, m);
      } else {
        LandsEven(bits, j, i);
        ScanIff(bits, j + i + 2, n, m);
        forall s | j <= s && Fits(bits, s, n, m) ensures j + i + 2 <= s {
          assert !(s <= j + i < s + n);
        }
      }
    }
  }

  lemma {:induction false} ScanFirst(bits: seq<bool>, j: nat, n: nat, m: nat)
    requires m <= |bits| && (j <= |bits| ==> UsedBefore(bits, j) % 2 == 0)
    ensures var r := Scan(bits, j, n, m);
      r.Some? ==> j <= r.value && Fits(bits, r.value, n, m) && forall s | j <= s < r.value :: !Fits(bits, s, n, m)
    decreases m - j
  {
    if j < m && n + j < m {
      var i := FirstUsed(bits, j, n);
      if i != n {
        LandsEven(bits, j, i);
        ScanFirst(bits, j + i + 2, n, m);
        forall s | j <= s && Fits(bits, s, n, m) ensures j + i + 2 <= s {
          assert !(s <= j + i < s + n);
        }
      }
    }
  }

  /** The place found is the one behind the last allocation if that is free, and else the first that fits. */
  lemma SearchFirst(bits: seq<bool>, offset: nat, n: nat, m: nat)
    requires m <= |bits|
    ensures var r := Search(bits, offset, n, m);
      r.Some? ==>
        if n + offset < m && Clear(bits, offset, n) then r.value == offset
        else Fits(bits, r.value, n, m) && forall s | 0 <= s < r.value :: !Fits(bits, s, n, m)
  {
    ScanFirst(bits, 0, n, m);
    if n + offset < m && Clear(bits, offset, n) { assert FirstUsed(bits, offset, n) == n; }
  }

  /** A request for n segments succeeds exactly when the place behind the last allocation is free, or
      some free run of n (not touching the last segment) has an even number of used segments right
      before it. */
  lemma SearchIff(bits: seq<bool>, offset: nat, n: nat, m: nat)
    requires m <= |bits|
    ensures Search(bits, offset, n, m).Some? <==>
      (n + offset < m && Clear(bits, offset, n)) || exists s :: Fits(bits, s, n, m)
  {
    ScanIff(bits, 0, n, m);
    if n + offset < m && Clear(bits, offset, n) {
      assert FirstUsed(bits, offset, n) == n;
    }
    if exists s :: Fits(bits, s, n, m) {
      var s :| Fits(bits, s, n, m);
      assert 0 <= s && Fits(bits, s, n, m);
    }
  }

  /** Allocate, then deallocate: the bitmap is as before. */
  lemma MarkRoundTrip(bits: seq<bool>, s: nat, n: nat)
    requires Clear(bits, s, n)
    ensures Mark(Mark(bits, s, n, true), s, n, false) == bits
  {
  }

  /** The bitmap is exactly the union of the live blocks, which are in bounds and pairwise disjoint. */
  ghost predicate Tracks(bits: seq<bool>, live: set<Block>, m: nat) {
    && (forall b | b in live :: 0 < b.count && b.start + b.count < m)
    && (forall a, b, i | a in live && b in live && a != b && a.Has(i) :: !b.Has(i))
    && (forall i | 0 <= i < |bits| :: bits[i] <==> Used(live, i))
  }

  ghost predicate Used(live: set<Block>, i: int) { exists b | b in live :: b.Has(i) }

  /** The live blocks with one more; a request for no segment reserves nothing. */
  function With(live: set<Block>, b: Block): set<Block> { if b.count == 0 then live else live + {b} }

  lemma WithIff(live: set<Block>, b: Block)
    requires b !in live
    ensures b in With(live, b) <==> 0 < b.count
  {
  }

  lemma AddBlock(bits: seq<bool>, live: set<Block>, m: nat, b: Block)
    requires Tracks(bits, live, m) && m <= |bits| && b.start + b.count < m
    requires Clear(bits, b.start, b.count)
    ensures b !in live && Tracks(Mark(bits, b.start, b.count, true), With(live, b), m)
    ensures b.count == 0 ==> Mark(bits, b.start, b.count, true) == bits
  {
    if b.count == 0 {
      assert Mark(bits, b.start, b.count, true) == bits;
      return;
    }
    assert forall i | b.Has(i) :: !Used(live, i);
    assert b.Has(b.start);
    forall i | 0 <= i < |bits| ensures Mark(bits, b.start, b.count, true)[i] <==> Used(live + {b}, i) {
      if Used(live, i) {
        var a :| a in live && a.Has(i);
        assert a in live + {b};
      }
    }
  }

  lemma RemoveBlock(bits: seq<bool>, live: set<Block>, m: nat, b: Block)
    requires Tracks(bits, live, m) && b in live
    ensures Tracks(Mark(bits, b.start, b.count, false), live - {b}, m)
  {
    forall i | 0 <= i < |bits| ensures Mark(bits, b.start, b.count, false)[i] <==> Used(live - {b}, i) {
      if bits[i] && !b.Has(i) {
        var a :| a in live && a.Has(i);
        assert a in live - {b};
      }
    }
  }

  // ---------------------------------------------------------------------------------------------
  // Runs of requests

  datatype Pool = Pool(bits: seq<bool>, offset: nat, live: set<Block>)

  datatype Event = Request(n: nat) | Return(b: Block)

  /** The effect of `allocate`, and of `deallocate` of a live block. */
  function Step(p: Pool, ev: Event, m: nat): Pool
    requires m <= |p.bits|
  {
    match ev
    case Request(n) =>
      var r := Search(p.bits, p.offset, n, m);
      if r.None? then p
      else Pool(Mark(p.bits, r.value, n, true), r.value + n + 1, With(p.live, Block(r.value, n)))
    case Return(b) =>
      if b in p.live then p.(bits := Mark(p.bits, b.start, b.count, false), live := p.live - {b}) else p
  }

  lemma RequestStep(p: Pool, n: nat, m: nat)
    requires m <= |p.bits|
    ensures var r := Search(p.bits, p.offset, n, m);
      Step(p, Request(n), m) == if r.None? then p
        else Pool(Mark(p.bits, r.value, n, true), r.value + n + 1, With(p.live, Block(r.value, n)))
  {
  }

  function After(capacity: nat, m: nat, run: seq<Event>): (p: Pool)
    requires m <= capacity
    ensures |p.bits| == capacity
  {
    if run == [] then Pool(seq(capacity, i => false), 0, {})
    else Step(After(capacity, m, run[..|run| - 1]), run[|run| - 1], m)
  }

  /** After every run the bitmap is exactly the union of the live blocks, in bounds and disjoint. */
  lemma {:induction false} RunTracks(capacity: nat, m: nat, run: seq<Event>)
    requires m <= capacity
    ensures Tracks(After(capacity, m, run).bits, After(capacity, m, run).live, m)
  {
    if run != [] {
      var p, ev := After(capacity, m, run[..|run| - 1]), run[|run| - 1];
      RunTracks(capacity, m, run[..|run| - 1]);
      match ev
      case Request(n) =>
        SearchSound(p.bits, p.offset, n, m);
        var r := Search(p.bits, p.offset, n, m);
        if r.Some? { AddBlock(p.bits, p.live, m, Block(r.value, n)); }
      case Return(b) =>
        if b in p.live { RemoveBlock(p.bits, p.live, m, b); }
    }
  }

  /** A free run can be stepped over when it fits exactly behind a used segment: after two requests
      for one of four segments, segment 1 is free, and a third request fails. */
  lemma ExactFitIsMissed()
    ensures var p := After(4, 4, [Request(1)] + [Request(1)]);
      p.bits == [true, false, true, false] && Clear(p.bits, 1, 1) && Search(p.bits, p.offset, 1, 4) == None
  {
    var zero, one, two := [false, false, false, false], [true, false, false, false], [true, false, true, false];
    var r1 := [Request(1)];
    assert ([] + r1)[..0] == [] && r1[..0] == [] && (r1 + [Request(1)])[..1] == r1;
    assert After(4, 4, []).bits == zero;
    assert Mark(zero, 0, 1, true) == one && Mark(one, 2, 1, true) == two;
    assert FirstUsed(zero, 0, 1) == 1 && FirstUsed(one, 2, 1) == 1;
    assert After(4, 4, r1) == Pool(one, 2, {Block(0, 1)});
    assert After(4, 4, r1 + [Request(1)]) == Pool(two, 4, {Block(0, 1), Block(2, 1)});
    assert FirstUsed(two, 0, 1) == 0 && FirstUsed(two, 2, 1) == 0;
    assert Scan(two, 4, 1, 4) == None;
    assert Scan(two, 2, 1, 4) == None;
  }

  lemma InBounds(bits: seq<bool>, live: set<Block>, m: nat, b: Block)
    requires Tracks(bits, live, m) && b in live
    ensures b.start + b.count < m
  {
  }

  /** Bytes of `k` segments, and whole segments in a number of bytes. */
  function Bytes(k: nat, segment: nat): nat { k * segment }
  function Segments(bytes: nat, segment: nat): nat requires segment > 0 { bytes / segment }

  lemma SegmentsOfBytes(k: nat, segment: nat)
    requires 0 < segment
    ensures Segments(Bytes(k, segment), segment) == k
  {
    var x := k * segment;
    var d := k - x / segment;
    assert x % segment == x - segment * (x / segment);
    assert segment * d == x % segment;
    MulSmall(segment, d);
  }

  /** Byte `x` of a request lies in the reserved segments. */
  ghost predicate Reserved(b: Block, x: nat, segment: nat)
    requires segment > 0
  {
    Segments(x, segment) < b.count
  }

  /** All bytes of a request are reserved if and only if it is for whole segments. */
  lemma ReservedIff(b: Block, size: nat, segment: nat)
    requires 0 < segment && b.count == Segments(size, segment)
    ensures (forall x: nat | x < size :: Reserved(b, x, segment)) <==> size % segment == 0
  {
    var n := b.count;
    assert size == n * segment + size % segment by { assert size == segment * (size / segment) + size % segment; }
    if size % segment == 0 {
      forall x: nat | x < size ensures Reserved(b, x, segment) { SegmentsLess(x, n, segment); }
    } else {
      SegmentsOfBytes(n, segment);
      assert Bytes(n, segment) < size && !Reserved(b, Bytes(n, segment), segment);
    }
  }

  lemma SegmentsLess(x: nat, n: nat, segment: nat)
    requires 0 < segment && x < n * segment
    ensures Segments(x, segment) < n
  {
    var q := x / segment;
    assert x == segment * q + x % segment;
    if q >= n { assert segment * q >= segment * n; }
  }

  lemma BytesAdd(a: nat, b: nat, segment: nat)
    ensures Bytes(a + b, segment) == Bytes(a, segment) + Bytes(b, segment)
  {
  }

  lemma BytesInLength(k: nat, length: nat, segment: nat)
    requires 0 < segment && k < Segments(length, segment)
    ensures Bytes(k, segment) < length
  {
    var d := length / segment - k;
    assert length % segment == length - segment * (length / segment);
    assert segment * d >= segment;
    assert segment * (length / segment) == segment * k + segment * d;
  }

  class BigPool {
    const bits: array<bool>
    const segment: nat  // m_size_of_segment
    const length: nat
    const mappings: nat // m_NVML_MAPPINGS
    const address: nat
    var offset: nat     // behind the last block handed out
    ghost var live: set<Block>

    ghost predicate Valid()
      reads this, bits
    {
      && 0 < segment && mappings == Segments(length, segment) && 0 < mappings <= bits.Length
      && offset <= mappings && Tracks(bits[..], live, mappings)
    }

    ghost function Abs(): Pool reads this, bits { Pool(bits[..], offset, live) }

    constructor (capacity: nat, address: nat, length: nat, segment: nat)
      requires 0 < segment <= length && Segments(length, segment) <= capacity
      ensures Valid() && bits.Length == capacity && Abs() == After(capacity, mappings, [])
      ensures fresh(bits) && this.address == address && this.length == length && this.segment == segment
    {
      bits := new bool[capacity](i => false);
      this.address, this.length, this.segment, mappings := address, length, segment, Segments(length, segment);
      offset, live := 0, {};
      assert Segments(length, segment) >= 1 by { assert length == segment * (length / segment) + length % segment; }
    }

    /** The inner loops of `allocate`: is a window free, and if not, where is it used? */
    method Probe(start: nat, n: nat) returns (i: nat)
      requires start + n <= bits.Length
      ensures i == FirstUsed(bits[..], start, n)
    {
      i := 0;
      while i < n
        invariant i <= n && FirstUsed(bits[..], start, n) == i + FirstUsed(bits[..], start + i, n - i)
      {
        if bits[i + start] {
          return;
        }
        i := i + 1;
      }
    }

    /** The scan from the start, with the loop variable moved by the body. */
    method ScanForward(n: nat) returns (r: Option<nat>)
      requires mappings <= bits.Length
      ensures r == Scan(bits[..], 0, n, mappings)
    {
      var j := 0;
      while j < mappings
        invariant Scan(bits[..], 0, n, mappings) == Scan(bits[..], j, n, mappings)
        decreases mappings - j
      {
        if n + j >= mappings {
          return None;
        }
        var i := Probe(j, n);
        if i == n {
          return Some(j);
        }
        j := j + i + 1;
        j := j + 1;
      }
      return None;
    }

    /** Sets or resets the bits of a block. */
    method MarkBits(s: nat, n: nat, v: bool)
      requires s + n <= bits.Length
      modifies bits
      ensures bits[..] == Mark(old(bits[..]), s, n, v)
    {
      var i := 0;
      while i < n
        invariant i <= n && bits[..] == Mark(old(bits[..]), s, i, v)
      {
        bits[i + s] := v;
        i := i + 1;
      }
    }

    method Find(n: nat) returns (start: Option<nat>)
      requires mappings <= bits.Length
      ensures start == Search(bits[..], offset, n, mappings)
    {
      start := None;
      if n + offset < mappings {
        var i := Probe(offset, n);
        if i == n {
          start := Some(offset);
        }
      }
      if start.None? {
        start := ScanForward(n);
      }
    }

    lemma AbsIs()
      ensures Abs() == Pool(bits[..], offset, live)
    {
    }

    lemma PoolParts()
      requires Valid()
      ensures 0 < segment && mappings == Segments(length, segment) && 0 < mappings <= bits.Length
      ensures offset <= mappings && Tracks(bits[..], live, mappings)
    {
    }

    lemma PoolValid()
      requires 0 < segment && mappings == Segments(length, segment) && 0 < mappings <= bits.Length
      requires offset <= mappings && Tracks(bits[..], live, mappings)
      ensures Valid()
    {
    }

    /** `allocate`: the address of a run that was free and now is marked, or no change at all. */
    method Allocate(size: nat) returns (r: Option<nat>, ghost b: Block)
      requires Valid()
      modifies this`offset, this`live, bits
      ensures Valid() && Abs() == Step(old(Abs()), Request(Segments(size, segment)), mappings)
      ensures var found := Search(old(bits[..]), old(offset), Segments(size, segment), mappings);
        if found.None? then r == None && bits[..] == old(bits[..]) && live == old(live) && offset == old(offset)
        else
          && b == Block(found.value, Segments(size, segment)) && r == Some(address + Bytes(b.start, segment))
          && live == With(old(live), b) && b !in old(live) && (b in live <==> 0 < Segments(size, segment))
          && ((forall x: nat | x < size :: Reserved(b, x, segment)) <==> size % segment == 0)
          && bits[..] == Mark(old(bits[..]), b.start, b.count, true) && offset == b.start + b.count + 1
    {
      hide *;
      ghost var before := bits[..];
      AbsIs();
      PoolParts();
      var n := Segments(size, segment);
      var start := Find(n);
      SearchSound(before, offset, n, mappings);
      RequestStep(Pool(before, offset, live), n, mappings);
      if start.Some? {
        b := Block(start.value, n);
        ReservedIff(b, size, segment);
        r := Some(address + Bytes(start.value, segment));
        AddBlock(before, live, mappings, b);
        MarkBits(start.value, n, true);
        live := With(live, b);
        WithIff(old(live), b);
        offset := n + start.value + 1;
      } else {
        b, r := Block(0, 0), None;
      }
      if offset > 0 { BytesInLength(offset - 1, length, segment); }
      if offset == 0 || Bytes(offset - 1, segment) >= length { // 0 - 1 wraps to the largest size_t
        offset := 0;
      }
      PoolValid();
      AbsIs();
    }

    /** `deallocate` of what was handed out; the length is the requested one, or that of whole segments. */
    method Deallocate(addr: nat, len: nat, ghost b: Block)
      requires Valid() && addr == address + Bytes(b.start, segment) && b.count == Segments(len, segment)
      requires b in live || b.count == 0
      modifies this`live, bits
      ensures Valid() && live == old(live) - {b} && Abs() == Step(old(Abs()), Return(b), mappings)
      ensures bits[..] == Mark(old(bits[..]), b.start, b.count, false)
    {
      var i := 0;
      if b in live { InBounds(bits[..], live, mappings, b); }
      assert b.count == 0 ==> b !in live;
      hide Bytes, Segments, Tracks;
      while i < Segments(len, segment)
        invariant i <= b.count && live == old(live)
        invariant forall k | 0 <= k < bits.Length :: bits[k] == (!(b.start <= k < b.start + i) && old(bits[k]))
      {
        BytesAdd(b.start, i, segment);
        SegmentsOfBytes(b.start + i, segment);
        bits[Segments(addr - address + Bytes(i, segment), segment)] := false;
        i := i + 1;
      }
      assert bits[..] == Mark(old(bits[..]), b.start, b.count, false);
      if b in live {
        RemoveBlock(old(bits[..]), live, mappings, b);
      } else {
        assert bits[..] == old(bits[..]);
      }
      live := live - {b};
    }
  }

  /** A request for one byte is answered with an address, and nothing is reserved. */
  method NothingReserved() returns (pool: BigPool, r: Option<nat>)
    ensures r == Some(0) && pool.live == {} && pool.Valid()
  {
    pool := new BigPool(2, 0, 8192, 4096);
    ghost var b;
    assert Segments(1, 4096) == 0 && Segments(8192, 4096) == 2 && Bytes(0, 4096) == 0;
    assert FirstUsed(pool.bits[..], 0, 0) == 0;
    assert Search(pool.bits[..], 0, 0, 2) == Some(0);
    r, b := pool.Allocate(1);
  }

  /** A request for two and a half segments reserves two; the third is handed out again while the first block is live,
      and overlaps its last bytes. */
  method HandedOutTwice() returns (pool: BigPool, first: Option<nat>, third: Option<nat>)
    ensures first == Some(0) && third == Some(8192) && third.value < first.value + 10240 && Block(0, 2) in pool.live
  {
    SmallSegments();
    StepsTwice();
    hide *;
    pool := new BigPool(5, 0, 20480, 4096);
    pool.AbsIs();
    pool.PoolParts();
    ghost var b1, b2, b3;
    var second;
    first, b1 := pool.Allocate(10240);
    pool.AbsIs();
    second, b2 := pool.Allocate(4096);
    pool.AbsIs();
    third, b3 := pool.Allocate(4096);
    pool.AbsIs();
  }

  lemma SmallSegments()
    ensures Segments(10240, 4096) == 2 && Segments(4096, 4096) == 1 && Segments(20480, 4096) == 5
    ensures Bytes(0, 4096) == 0 && Bytes(2, 4096) == 8192 && Bytes(3, 4096) == 12288
  {
  }

  lemma StepsTwice()
    ensures var none, two := [false, false, false, false, false], [true, true, false, false, false];
      var three := [true, true, false, true, false];
      && After(5, 5, []) == Pool(none, 0, {})
      && Search(none, 0, 2, 5) == Some(0) && Step(Pool(none, 0, {}), Request(2), 5) == Pool(two, 3, {Block(0, 2)})
      && Search(two, 3, 1, 5) == Some(3)
      && Step(Pool(two, 3, {Block(0, 2)}), Request(1), 5) == Pool(three, 5, {Block(0, 2), Block(3, 1)})
      && Search(three, 5, 1, 5) == Some(2)
      && Block(0, 2) in Step(Pool(three, 5, {Block(0, 2), Block(3, 1)}), Request(1), 5).live
  {
    var none, two := [false, false, false, false, false], [true, true, false, false, false];
    var three := [true, true, false, true, false];
    assert After(5, 5, []).bits == none;
    assert FirstUsed(none, 0, 2) == 2 && FirstUsed(two, 3, 1) == 1;
    assert FirstUsed(three, 0, 1) == 0 && FirstUsed(three, 2, 1) == 1;
    assert Scan(three, 2, 1, 5) == Some(2);
    assert Mark(none, 0, 2, true) == two && Mark(two, 3, 1, true) == three;
  }
}
