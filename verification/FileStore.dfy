/**
  The storage of a file: memory segments that grow by doubling, the regions of a byte range, and
  reading and writing through them. Writes are dense: they begin at or before the allocated end.
 */
module FileStore {
  import opened Basics
  import opened BufferCopy
  import opened IndexBuilder
  import opened IndexSearch

  // ---------------------------------------------------------------------------------------------
  // Alignment, for block sizes that are powers of two

  /** `align`: clears the low bits. */
  function Align(n: nat, block: nat): nat requires block > 0 { n - n % block }

  /** `xalign`: the next block boundary after `n`. */
  function XAlign(n: nat, block: nat): nat requires block > 0 { Align(n + block, block) }

  predicate Multiple(n: nat, block: nat) { block > 0 && n % block == 0 }

  lemma MultipleMod(k: nat, block: nat)
    requires block > 0
    ensures (block * k) % block == 0
  {
    var x := block * k;
    var d := k - x / block;
    assert x % block == x - block * (x / block);
    assert block * d == x % block;
    MulSmall(block, d);
  }

  lemma AlignProps(n: nat, block: nat)
    requires block > 0
    ensures Multiple(Align(n, block), block) && n - block < Align(n, block) <= n
  {
    assert n - n % block == block * (n / block);
    MultipleMod(n / block, block);
  }

  lemma XAlignProps(n: nat, block: nat)
    requires block > 0
    ensures Multiple(XAlign(n, block), block) && n < XAlign(n, block) <= n + block
  {
    AlignProps(n + block, block);
  }

  // ---------------------------------------------------------------------------------------------
  // Segments and regions

  datatype Segment = Segment(offset: nat, data: seq<Byte>)

  /** A piece of a segment: `m_address` is a pointer `delta` bytes into segment `seg`. */
  datatype Region = Region(seg: nat, delta: nat, size: nat)

  function Data(segs: seq<Segment>): Buffers { seq(|segs|, i requires 0 <= i < |segs| => segs[i].data) }

  /** The bytes of the file, as far as they are allocated. */
  function Bytes(segs: seq<Segment>): seq<Byte> { Flat(Data(segs)) }

  /** The segments are non-empty and tile the file from 0 on, without hole or overlap. */
  ghost predicate Tiles(segs: seq<Segment>) {
    forall i | 0 <= i < |segs| :: |segs[i].data| > 0 && segs[i].offset == |Bytes(segs[..i])|
  }

  lemma DataSlice(segs: seq<Segment>, k: nat)
    requires k <= |segs|
    ensures Data(segs[..k]) == Data(segs)[..k] && Data(segs[k..]) == Data(segs)[k..]
  {
  }

  lemma BytesAt(segs: seq<Segment>, k: nat)
    requires k < |segs|
    ensures Bytes(segs) == Bytes(segs[..k]) + segs[k].data + Bytes(segs[k + 1..])
    ensures Bytes(segs[..k + 1]) == Bytes(segs[..k]) + segs[k].data
  {
    DataSlice(segs, k);
    DataSlice(segs, k + 1);
    FlatAt(Data(segs), k);
  }

  /** The regions are pieces of segments that make up [a, e) in order. */
  ghost predicate Cover(segs: seq<Segment>, rs: seq<Region>, a: nat, e: nat) {
    if rs == [] then a == e
    else
      var r := rs[0];
      && r.seg < |segs| && 0 < r.size && r.delta + r.size <= |segs[r.seg].data|
      && segs[r.seg].offset + r.delta == a
      && Cover(segs, rs[1..], a + r.size, e)
  }

  lemma {:induction false} CoverSnoc(segs: seq<Segment>, rs: seq<Region>, a: nat, m: nat, r: Region)
    requires Cover(segs, rs, a, m)
    requires r.seg < |segs| && 0 < r.size && r.delta + r.size <= |segs[r.seg].data|
    requires segs[r.seg].offset + r.delta == m
    ensures Cover(segs, rs + [r], a, m + r.size)
  {
    if rs == [] {
      assert (rs + [r])[1..] == [];
    } else {
      CoverSnoc(segs, rs[1..], a + rs[0].size, m, r);
      assert (rs + [r])[1..] == rs[1..] + [r];
    }
  }

  /** Regions stay where they are when segments are appended. */
  lemma {:induction false} CoverAppend(segs: seq<Segment>, more: seq<Segment>, rs: seq<Region>, a: nat, e: nat)
    requires Cover(segs, rs, a, e)
    ensures Cover(segs + more, rs, a, e)
  {
    if rs != [] { CoverAppend(segs, more, rs[1..], a + rs[0].size, e); }
  }

  lemma {:induction false} CoverSame(segs: seq<Segment>, t: seq<Segment>, rs: seq<Region>, a: nat, e: nat)
    requires Cover(segs, rs, a, e) && |segs| == |t|
    requires forall i | 0 <= i < |t| :: t[i].offset == segs[i].offset && |t[i].data| == |segs[i].data|
    ensures Cover(t, rs, a, e)
  {
    if rs != [] { CoverSame(segs, t, rs[1..], a + rs[0].size, e); }
  }

  /** A region points at the bytes of the file that it stands for. */
  lemma RegionBytes(segs: seq<Segment>, r: Region)
    requires Tiles(segs) && r.seg < |segs| && r.delta + r.size <= |segs[r.seg].data|
    ensures var a := segs[r.seg].offset + r.delta;
      a + r.size <= |Bytes(segs)| && Bytes(segs)[a..a + r.size] == segs[r.seg].data[r.delta..r.delta + r.size]
  {
    BytesAt(segs, r.seg);
  }

  // ---------------------------------------------------------------------------------------------
  // The history of writes

  datatype Write = Write(offset: nat, data: seq<Byte>) {
    predicate Has(i: int) { offset <= i < offset + |data| }
  }

  /** The byte at `i` according to the last write that covers it. */
  function LastWritten(log: seq<Write>, i: nat): Option<Byte> {
    if log == [] then None
    else
      var w := log[|log| - 1];
      if w.Has(i) then Some(w.data[i - w.offset]) else LastWritten(log[..|log| - 1], i)
  }

  ghost predicate Remembers(bytes: seq<Byte>, used: nat, log: seq<Write>) {
    forall i: nat | LastWritten(log, i).Some? :: i < used <= |bytes| && bytes[i] == LastWritten(log, i).value
  }

  /** A write puts its own bytes in place and leaves all others. */
  lemma RemembersWrite(bytes: seq<Byte>, used: nat, log: seq<Write>, base: seq<Byte>, at: nat, d: seq<Byte>, used': nat)
    requires Remembers(bytes, used, log) && bytes <= base && at + |d| <= used' <= |base| && used <= used'
    ensures Remembers(Splice(base, at, d), used', log + [Write(at, d)])
  {
    var log' := log + [Write(at, d)];
    assert log'[..|log'| - 1] == log;
    forall i: nat | LastWritten(log', i).Some?
      ensures i < used' && Splice(base, at, d)[i] == LastWritten(log', i).value
    {
      if !Write(at, d).Has(i) { assert LastWritten(log, i).Some? && base[i] == bytes[i]; }
    }
  }

  /** The largest `off_t`. */
  const LIMIT := 0x7fff_ffff_ffff_ffff

  /** The leaves of the segment tree: the starts of the segments, the end of the last one (where the map has
      no segment any more), and the end of the map. */
  function Keys(segs: seq<Segment>, alloc: nat): seq<int> {
    seq(|segs| + 2, (i: nat) => if i < |segs| then segs[i].offset else if i == |segs| then alloc else LIMIT)
  }

  /** The index is built over the present segments. */
  ghost predicate Mapped(segs: seq<Segment>, alloc: nat, index: seq<PoolNode>, root: Ref) {
    alloc < LIMIT && root.Inner? && Covers(Keys(segs, alloc), index, root, Levels(|segs| + 2), 0, |segs| + 2)
  }

  /** The index does not depend on the data. */
  lemma MappedSame(segs: seq<Segment>, t: seq<Segment>, alloc: nat, index: seq<PoolNode>, root: Ref)
    requires Mapped(segs, alloc, index, root)
    requires |t| == |segs| && forall i | 0 <= i < |t| :: t[i].offset == segs[i].offset
    ensures Mapped(t, alloc, index, root)
  {
    assert Keys(t, alloc) == Keys(segs, alloc);
  }

  /** The leaf found for `x` is the segment that holds it, or the one behind the last segment. */
  lemma LeafIsSegment(segs: seq<Segment>, alloc: nat, x: nat, k: nat)
    requires Tiles(segs) && alloc == |Bytes(segs)| && k < |segs| + 1
    requires Keys(segs, alloc)[k] <= x < Keys(segs, alloc)[k + 1]
    ensures k < |segs| <==> x < alloc
    ensures k < |segs| ==> segs[k].offset <= x < segs[k].offset + |segs[k].data|
  {
    if k < |segs| {
      SegmentEnd(segs, k);
      if segs[k].offset + |segs[k].data| < alloc { NextSegment(segs, k); }
    }
  }

  lemma SegmentEnd(segs: seq<Segment>, k: nat)
    requires Tiles(segs) && k < |segs|
    ensures segs[k].offset + |segs[k].data| <= |Bytes(segs)|
    ensures k + 1 < |segs| ==> segs[k + 1].offset == segs[k].offset + |segs[k].data|
    ensures k + 1 == |segs| ==> |Bytes(segs)| == segs[k].offset + |segs[k].data|
  {
    BytesAt(segs, k);
    if k + 1 == |segs| { assert segs[..k + 1] == segs; }
  }

  class File {
    var segments: seq<Segment>
    var alloc: nat           // m_alloc_offset
    var used: nat            // m_used_offset, the size of the file
    var segmentSize: nat     // m_segment_size
    var index: seq<PoolNode> // the inner nodes of m_segments
    var root: Ref
    const maxSegment: nat    // segment::s_segment_size
    ghost var log: seq<Write>

    /** The segments tile the allocated part, whose end is a multiple of the last segment size, and the index
        is up to date. */
    ghost predicate Shape()
      reads this
    {
      && Tiles(segments) && alloc == |Bytes(segments)| && used <= alloc
      && 0 < segmentSize && 0 < maxSegment && (segments != [] ==> Multiple(alloc, segmentSize))
      && Mapped(segments, alloc, index, root)
    }

    /** ... and every byte ever written reads as it was last written. */
    ghost predicate Valid()
      reads this
    {
      Shape() && Remembers(Bytes(segments), used, log)
    }

    constructor (maxSegment: nat)
      requires 0 < maxSegment
      ensures Valid() && alloc == 0 && used == 0 && segmentSize == 4096 && this.maxSegment == maxSegment && log == []
    {
      segments, alloc, used, segmentSize, log := [], 0, 0, 4096, [];
      this.maxSegment := maxSegment;
      var pool, top := BuildTree(Keys([], 0));
      index, root := pool, top;
      CoversKind(Keys([], 0), pool, top, Levels(2), 0, 2);
    }

    /** `search_tree`: the segment that holds `x`, or nothing if `x` is not allocated. */
    method SearchTree(x: nat) returns (k: Option<nat>)
      requires Shape() && x < LIMIT
      ensures k.Some? <==> x < alloc
      ensures k.Some? ==>
        k.value < |segments| && segments[k.value].offset <= x < segments[k.value].offset + |segments[k.value].data|
    {
      hide Tiles, Bytes, Covers, Levels, Multiple;
      var keys := Keys(segments, alloc);
      FirstKey(segments, alloc);
      var leaf;
      ghost var steps;
      leaf, steps := IndexSearch.SearchTree(keys, index, root, x, Levels(|segments| + 2));
      LeafIsSegment(segments, alloc, x, leaf.value);
      k := if leaf.value < |segments| then leaf else None;
    }

    /** `lookup_helper` on gap-free storage: the regions of [start, end). For a start behind the end, the length
        wraps around: inside the allocated part this gives one region of an absurd size. */
    method Lookup(start: nat, end: nat) returns (rs: seq<Region>)
      requires Shape() && start < LIMIT && end <= alloc
      ensures start <= end ==> Cover(segments, rs, start, end)
      ensures end < start && alloc <= start ==> rs == []
      ensures end < start < alloc ==> |rs| == 1 && rs[0].size == (end - start) % WORD
    {
      hide Multiple, Bytes, Mapped, Tiles, Cover;
      AllocFits(segments, alloc, index, root);
      CoverNone(segments, start, end);
      CoverNone(segments, start, start);
      rs := [];
      if start == end {
        return;
      }
      var found := SearchTree(start);
      if found.None? {
        return;
      }
      var it := found.value;
      var from, size := start, end - start;
      while true
        invariant it < |segments| && segments[it].offset <= from < segments[it].offset + |segments[it].data|
        invariant size == end - from
        invariant if start < end then Cover(segments, rs, start, from) && from < end else from == start && rs == []
        decreases |segments| - it
      {
        var s := segments[it];
        var delta := from - s.offset;
        var sEnd := s.offset + |s.data|;
        var piece := if size < |s.data| - delta then size else |s.data| - delta;
        SegmentEnd(segments, it);
        if start < end { CoverSnoc(segments, rs, start, from, Region(it, delta, piece)); }
        rs := rs + [Region(it, delta, piece % WORD)];
        if sEnd >= end {
          return;
        }
        NextSegment(segments, it);
        from, size, it := sEnd, size - piece, it + 1;
      }
    }

    /** `append_segments`: the new segment goes to the end, and the index is built anew. */
    method AppendSegments(s: Segment)
      requires Tiles(segments) && alloc == |Bytes(segments)| == s.offset && 0 < |s.data| && alloc + |s.data| < LIMIT
      modifies this`segments, this`alloc, this`index, this`root
      ensures Tiles(segments) && segments == old(segments) + [s] && Bytes(segments) == Bytes(old(segments)) + s.data
      ensures alloc == |Bytes(segments)| == old(alloc) + |s.data| && Mapped(segments, alloc, index, root)
    {
      hide Tiles, Bytes, Covers, Levels;
      AppendSegment(segments, s);
      segments := segments + [s];
      alloc := alloc + |s.data|;
      index, root := BuildTree(Keys(segments, alloc));
      TwoLevels(|segments| + 2);
      CoversKind(Keys(segments, alloc), index, root, Levels(|segments| + 2), 0, |segments| + 2);
    }

    /** `fetch_storage` for a dense write: existing regions, and a new segment if they do not reach. */
    method FetchStorage(offset: nat, size: nat) returns (rs: seq<Region>)
      requires Shape() && offset <= alloc && offset + size + maxSegment < LIMIT
      modifies this`segments, this`alloc, this`segmentSize, this`index, this`root
      ensures Shape() && used == old(used)
      ensures Cover(segments, rs, offset, offset + size) && offset + size <= alloc
      ensures old(segments) <= segments && Bytes(old(segments)) <= Bytes(segments)
      ensures offset + size <= old(alloc) ==>
        segments == old(segments) && alloc == old(alloc) && segmentSize == old(segmentSize)
      ensures offset + size > old(alloc) ==>
        && segmentSize == Min(2 * old(segmentSize), maxSegment) && |segments| == |old(segments)| + 1
        && alloc - segmentSize <= offset + size < alloc
    {
      hide Tiles, Bytes, Cover, XAlign, Multiple, Mapped;
      AllocFits(segments, alloc, index, root);
      if offset + size <= alloc {
        rs := Lookup(offset, offset + size);
        return;
      }
      rs := Lookup(offset, alloc);
      segmentSize := Min(segmentSize * 2, maxSegment);
      XAlignProps(offset + size, segmentSize);
      var newSize := XAlign(offset + size, segmentSize) - alloc;
      var s := CreateSegment(alloc, newSize);
      CoverAppend(segments, [s], rs, offset, alloc);
      CoverSnoc(segments + [s], rs, offset, alloc, Region(|segments|, 0, offset + size - alloc));
      rs := rs + [Region(|segments|, 0, offset + size - alloc)];
      AppendSegments(s);
    }

    /** `create_segment`: fresh memory, of which only the size is known. */
    method CreateSegment(offset: nat, size: nat) returns (s: Segment)
      ensures s.offset == offset && |s.data| == size
    {
      s := Segment(offset, seq(size, i => 0));
    }

    /** `update_size` */
    method UpdateSize(size: nat)
      requires Shape() && size <= alloc
      modifies this`used
      ensures Shape() && used == if old(used) < size then size else old(used)
    {
      if used < size {
        used := size;
      }
    }

    /** The body of the region loop of `put_data`: fills one region from the source cursor. */
    method WriteRegion(r: Region, src: BufVec) returns (n: nat)
      requires Shape() && src.Valid()
      requires r.seg < |segments| && r.delta + r.size <= |segments[r.seg].data|
      modifies this`segments, src`idx, src`off
      ensures Shape() && src.Valid() && |segments| == |old(segments)|
      ensures forall i | 0 <= i < |segments| ::
        segments[i].offset == old(segments)[i].offset && |segments[i].data| == |old(segments)[i].data|
      ensures n == Min(r.size, |old(src.Rest())|) && src.Rest() == old(src.Rest())[n..]
      ensures old(segments)[r.seg].offset + r.delta + n <= |Bytes(old(segments))|
      ensures Bytes(segments)
        == Splice(Bytes(old(segments)), old(segments)[r.seg].offset + r.delta, old(src.Rest())[..n])
    {
      hide Tiles, Bytes, Multiple, Mapped, BufVec.Rest, BufVec.Pos, Splice, Flat;
      ghost var segs := segments;
      var s := segments[r.seg];
      var dst := new BufVec([s.data[r.delta..r.delta + r.size]]);
      OneBuffer(dst);
      n := Copy(dst, src);
      ghost var d := old(src.Rest())[..n];
      OneFlat(dst.bufs);
      PieceSplice(s.data, r.delta, r.size, d);
      SegmentSplice(segs, r.seg, r.delta, d);
      segments := segments[r.seg := s.(data := Splice(s.data, r.delta, dst.bufs[0]))];
      MappedSame(segs, segments, alloc, index, root);
    }

    /** The region loop of `put_data`: scatters the source over the regions, in order. */
    method WriteRegions(rs: seq<Region>, offset: nat, size: nat, src: BufVec) returns (n: nat)
      requires Shape() && src.Valid() && Cover(segments, rs, offset, offset + size) && offset + size <= alloc
      modifies this`segments, src`idx, src`off
      ensures Shape() && src.Valid()
      ensures n == Min(size, |old(src.Rest())|) && offset + n <= |Bytes(old(segments))|
      ensures Bytes(segments) == Splice(Bytes(old(segments)), offset, old(src.Rest())[..n])
    {
      hide Tiles, Bytes, BufVec.Rest, Splice, Multiple, Mapped;
      ghost var base, rest := Bytes(segments), src.Rest();
      n := 0;
      ghost var done: nat := 0;
      var i := 0;
      NoSplice(base, offset);
      while i < |rs|
        invariant i <= |rs| && Shape() && src.Valid() && done <= size
        invariant Cover(segments, rs[i..], offset + done, offset + size)
        invariant n == Min(done, |rest|) && src.Rest() == rest[n..]
        invariant Bytes(segments) == Splice(base, offset, rest[..n])
      {
        ghost var segs := segments;
        CoverEnd(segments, rs[i..], offset + done, offset + size);
        assert rs[i..][1..] == rs[i + 1..];
        var k := WriteRegion(rs[i], src);
        CoverSame(segs, segments, rs[i + 1..], offset + done + rs[i].size, offset + size);
        if n == done {
          Extend(base, offset, rest, n, k);
        } else {
          NoSplice(Splice(base, offset, rest[..n]), offset + done);
        }
        n := n + k;
        done := done + rs[i].size;
        i := i + 1;
      }
    }

    /** `put_data`: stores the source bytes at `offset`; the file grows to hold them. */
    method PutData(offset: nat, size: nat, src: BufVec) returns (n: nat, ghost base: seq<Byte>)
      requires Valid() && src.Valid() && offset <= alloc && offset + size + maxSegment < LIMIT
      modifies this, src`idx, src`off
      ensures Valid() && n == Min(size, |old(src.Rest())|)
      ensures Bytes(old(segments)) <= base && offset + n <= |base|
      ensures Bytes(segments) == Splice(base, offset, old(src.Rest())[..n])
      ensures used == Max(old(used), offset + size)
      ensures if offset + size <= old(alloc) then alloc == old(alloc)
              else segmentSize == Min(2 * old(segmentSize), maxSegment) && alloc - segmentSize <= offset + size < alloc
      ensures log == old(log) + [Write(offset, old(src.Rest())[..n])]
    {
      hide Tiles, Bytes, Cover, Remembers, BufVec.Rest, Splice, Multiple, Mapped;
      ghost var bytes, rest := Bytes(segments), src.Rest();
      var regions := FetchStorage(offset, size);
      base := Bytes(segments);
      n := WriteRegions(regions, offset, size, src);
      UpdateSize(offset + size);
      RemembersWrite(bytes, old(used), log, base, offset, rest[..n], used);
      log := log + [Write(offset, rest[..n])];
    }

    /** `get_data`: the bytes up to the end of the file, or `-ENOMEM`. A read from behind the end is empty, and
        fails if and only if it starts in the part that is allocated. */
    method GetData(start: nat, size: nat) returns (buffer: Option<seq<Byte>>)
      requires Valid() && start < LIMIT
      ensures buffer.None? <==> used < start < alloc
      ensures buffer.Some? ==>
        buffer.value == if start < used then Bytes(segments)[start..Min(start + size, used)] else []
      ensures buffer.Some? ==> forall i | 0 <= i < |buffer.value| && LastWritten(log, start + i).Some? ::
        buffer.value[i] == LastWritten(log, start + i).value
    {
      hide Tiles, Bytes, Mapped, Multiple;
      AllocFits(segments, alloc, index, root);
      var end := Min(start + size, used);
      var regions := Lookup(start, end);
      if regions == [] {
        CoverNone(segments, start, end);
        return Some([]);
      }
      if start <= end { CoverTotal(segments, regions, start, end); }
      if TotalSize(regions) > LIMIT { // posix_memalign fails
        return None;
      }
      var read := [];
      var i := 0;
      ghost var at := start;
      while i < |regions|
        invariant i <= |regions| && start <= at <= end && Cover(segments, regions[i..], at, end)
        invariant read == Bytes(segments)[start..at]
      {
        var r := regions[i];
        CoverEnd(segments, regions[i..], at, end);
        assert regions[i..][1..] == regions[i + 1..];
        RegionBytes(segments, r);
        read := read + segments[r.seg].data[r.delta..r.delta + r.size];
        at := at + r.size;
        i := i + 1;
      }
      return Some(read);
    }
  }

  /** After one byte has been written, a read from offset 2 does not come back empty. */
  method ReadBehindEndFails() returns (n: nat, buffer: Option<seq<Byte>>)
    ensures n == 1 && buffer == None
  {
    hide Tiles, Mapped, Remembers, Splice;
    var file := new File(4096);
    var src := new BufVec([[1]]);
    OneBuffer(src);
    ghost var base;
    n, base := file.PutData(0, 1, src);
    assert file.segments != [] by { assert Data([]) == []; }
    assert file.alloc % 4096 == 0;
    buffer := file.GetData(2, 1);
  }

  lemma FirstKey(segs: seq<Segment>, alloc: nat)
    requires Tiles(segs) && alloc == |Bytes(segs)|
    ensures Keys(segs, alloc)[0] == 0 && Keys(segs, alloc)[|segs| + 1] == LIMIT
  {
    if segs != [] { assert segs[..0] == []; }
  }

  lemma TwoLevels(n: nat)
    requires n >= 2
    ensures Levels(n) >= 1
  {
  }

  lemma AllocFits(segs: seq<Segment>, alloc: nat, index: seq<PoolNode>, root: Ref)
    requires Mapped(segs, alloc, index, root)
    ensures alloc < LIMIT
  {
  }

  /** `total_size` */
  function TotalSize(rs: seq<Region>): nat { if rs == [] then 0 else rs[0].size + TotalSize(rs[1..]) }

  lemma {:induction false} CoverTotal(segs: seq<Segment>, rs: seq<Region>, a: nat, e: nat)
    requires Cover(segs, rs, a, e)
    ensures a + TotalSize(rs) == e
  {
    if rs != [] { CoverTotal(segs, rs[1..], a + rs[0].size, e); }
  }

  lemma CoverNone(segs: seq<Segment>, a: nat, e: nat)
    ensures Cover(segs, [], a, e) <==> a == e
  {
  }

  lemma {:induction false} CoverEnd(segs: seq<Segment>, rs: seq<Region>, a: nat, e: nat)
    requires Cover(segs, rs, a, e)
    ensures a <= e && (rs != [] ==> a + rs[0].size <= e)
  {
    if rs != [] { CoverEnd(segs, rs[1..], a + rs[0].size, e); }
  }

  lemma NextSegment(segs: seq<Segment>, k: nat)
    requires Tiles(segs) && k < |segs| && segs[k].offset + |segs[k].data| < |Bytes(segs)|
    ensures k + 1 < |segs| && segs[k + 1].offset == segs[k].offset + |segs[k].data| && |segs[k + 1].data| > 0
  {
    BytesAt(segs, k);
    assert segs[..|segs|] == segs;
  }

  lemma AppendSegment(segs: seq<Segment>, s: Segment)
    requires Tiles(segs) && s.offset == |Bytes(segs)| && |s.data| > 0
    ensures Tiles(segs + [s]) && Bytes(segs + [s]) == Bytes(segs) + s.data
  {
    var t, n := segs + [s], |segs|;
    assert t[..n] == segs && t[..n + 1] == t;
    BytesAt(t, n);
    forall i | 0 <= i < |t| ensures |t[i].data| > 0 && t[i].offset == |Bytes(t[..i])| {
      if i < n { assert t[..i] == segs[..i]; }
    }
  }

  /** A write inside one segment is a write into the bytes of the file. */
  lemma SegmentSplice(segs: seq<Segment>, k: nat, at: nat, d: seq<Byte>)
    requires Tiles(segs) && k < |segs| && at + |d| <= |segs[k].data|
    ensures segs[k].offset + at + |d| <= |Bytes(segs)|
    ensures var t := segs[k := segs[k].(data := Splice(segs[k].data, at, d))];
      Tiles(t) && Bytes(t) == Splice(Bytes(segs), segs[k].offset + at, d)
  {
    var t := segs[k := segs[k].(data := Splice(segs[k].data, at, d))];
    DataSlice(segs, k);
    FlatSplice(Data(segs), k, at, d);
    assert Data(t) == Data(segs)[k := Splice(segs[k].data, at, d)];
    forall i | 0 <= i < |t| ensures |t[i].data| > 0 && t[i].offset == |Bytes(t[..i])| {
      if i <= k {
        assert t[..i] == segs[..i];
      } else {
        SameLength(segs[..i], t[..i]);
      }
    }
  }

  lemma {:induction false} SameLength(a: seq<Segment>, b: seq<Segment>)
    requires |a| == |b| && forall i | 0 <= i < |a| :: |a[i].data| == |b[i].data|
    ensures |Bytes(a)| == |Bytes(b)|
  {
    if a != [] {
      SameLength(a[1..], b[1..]);
      BytesAt(a, 0);
      BytesAt(b, 0);
      assert a[..0] == [] && b[..0] == [];
    }
  }

  lemma OneBuffer(dst: BufVec)
    requires |dst.bufs| == 1 && dst.idx == 0 && dst.off == 0
    ensures dst.Valid() && dst.Pos() == 0 && dst.Rest() == dst.bufs[0] && Flat(dst.bufs) == dst.bufs[0]
  {
    OneFlat(dst.bufs);
    assert dst.bufs[..0] == [] && Flat([]) == [];
    assert Flat(dst.bufs)[0..] == dst.bufs[0];
  }

  lemma OneFlat(b: Buffers)
    requires |b| == 1
    ensures Flat(b) == b[0]
  {
    assert b == [b[0]];
    FlatCons(b[0], []);
  }

  /** Writing into a slice and putting the slice back. */
  lemma PieceSplice(data: seq<Byte>, at: nat, size: nat, d: seq<Byte>)
    requires at + size <= |data| && |d| <= size
    ensures Splice(data, at, Splice(data[at..at + size], 0, d)) == Splice(data, at, d)
  {
    var p, rest := data[at..at + size], data[at + size..];
    assert p[..0] == [] && Splice(p, 0, d) == d + p[|d|..];
    assert data[at + |d|..] == p[|d|..] + rest;
    assert data[..at] + (d + p[|d|..]) + rest == data[..at] + d + (p[|d|..] + rest);
  }
}
