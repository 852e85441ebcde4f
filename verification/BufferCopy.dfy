/**
  `fuse_buf_copy_pmem` between vectors of memory buffers: two cursors move through source and
  destination, piece by piece, over buffers of any length including zero.
 */
module BufferCopy {
  import opened Basics

  type Byte = x: int | 0 <= x < 256

  type Buffers = seq<seq<Byte>>

  /** The bytes of a vector of buffers, one after the other. */
  function Flat(b: Buffers): seq<Byte> { if b == [] then [] else b[0] + Flat(b[1..]) }

  lemma {:induction false} FlatCons(h: seq<Byte>, t: Buffers)
    ensures Flat([h] + t) == h + Flat(t) && Flat([h]) == h && Flat([]) == []
  {
    assert ([h] + t)[1..] == t && [h][1..] == [];
  }

  lemma {:induction false} FlatConcat(a: Buffers, b: Buffers)
    ensures Flat(a + b) == Flat(a) + Flat(b)
  {
    hide Flat;
    if a == [] {
      assert a + b == b;
      FlatCons([], []);
    } else {
      FlatConcat(a[1..], b);
      assert a == [a[0]] + a[1..] && a + b == [a[0]] + (a[1..] + b);
      FlatCons(a[0], a[1..]);
      FlatCons(a[0], a[1..] + b);
    }
  }

  /** The bytes around buffer `k`. */
  lemma {:induction false} FlatAt(b: Buffers, k: nat)
    requires k < |b|
    ensures Flat(b) == Flat(b[..k]) + b[k] + Flat(b[k + 1..])
    ensures Flat(b[..k + 1]) == Flat(b[..k]) + b[k]
  {
    hide Flat;
    assert b[..k + 1] == b[..k] + [b[k]];
    assert b == b[..k + 1] + b[k + 1..];
    FlatConcat(b[..k + 1], b[k + 1..]);
    FlatConcat(b[..k], [b[k]]);
    FlatCons(b[k], []);
  }

  /** `s` with `d` written over it from position `at` on. */
  function Splice(s: seq<Byte>, at: nat, d: seq<Byte>): (r: seq<Byte>)
    requires at + |d| <= |s|
    ensures |r| == |s|
  {
    s[..at] + d + s[at + |d|..]
  }

  /** The written bytes are those of `d`, and the others stay. */
  lemma SpliceAt(s: seq<Byte>, at: nat, d: seq<Byte>, i: nat)
    requires at + |d| <= |s| && i < |s|
    ensures Splice(s, at, d)[i] == if at <= i < at + |d| then d[i - at] else s[i]
  {
  }

  lemma SpliceTwice(s: seq<Byte>, at: nat, d: seq<Byte>, e: seq<Byte>)
    requires at + |d| + |e| <= |s|
    ensures Splice(Splice(s, at, d), at + |d|, e) == Splice(s, at, d + e)
  {
  }

  /** A write inside buffer `k` is a write into the flat bytes. */
  lemma FlatSplice(b: Buffers, k: nat, at: nat, d: seq<Byte>)
    requires k < |b| && at + |d| <= |b[k]|
    ensures var n := |Flat(b[..k])|;
      n + at + |d| <= |Flat(b)| && Flat(b[k := Splice(b[k], at, d)]) == Splice(Flat(b), n + at, d)
  {
    hide Flat;
    var b' := b[k := Splice(b[k], at, d)];
    FlatAt(b, k);
    FlatAt(b', k);
    assert b'[..k] == b[..k] && b'[k + 1..] == b[k + 1..];
  }

  /** `fuse_bufvec` */
  class BufVec {
    var bufs: Buffers
    var idx: nat
    var off: nat

    constructor (bufs: Buffers)
      ensures this.bufs == bufs && idx == 0 && off == 0
    {
      this.bufs, idx, off := bufs, 0, 0;
    }

    ghost predicate Valid()
      reads this
    {
      idx <= |bufs| && (idx < |bufs| ==> off <= |bufs[idx]|)
    }

    /** The number of bytes behind the cursor. */
    ghost function Pos(): nat
      requires Valid()
      reads this
    {
      |Flat(bufs[..idx])| + if idx < |bufs| then off else 0
    }

    /** The bytes still to come. */
    ghost function Rest(): seq<Byte>
      requires Valid()
      reads this
    {
      PosInside();
      Flat(bufs)[Pos()..]
    }

    lemma PosInside()
      requires Valid()
      ensures Pos() <= |Flat(bufs)|
      ensures idx < |bufs| ==> Pos() + (|bufs[idx]| - off) <= |Flat(bufs)|
      ensures idx < |bufs| ==> Flat(bufs)[Pos()..Pos() + (|bufs[idx]| - off)] == bufs[idx][off..]
      ensures idx == |bufs| ==> Pos() == |Flat(bufs)|
    {
      if idx < |bufs| {
        FlatAt(bufs, idx);
      } else {
        assert bufs[..idx] == bufs;
      }
    }

    /** The last buffer still has bytes ahead of the cursor. */
    predicate LastOpen()
      reads this
    {
      var last := |bufs| - 1;
      idx < |bufs| && |bufs[last]| > 0 && (idx == last ==> off < |bufs[last]|)
    }

    lemma OpenAhead()
      requires Valid() && LastOpen()
      ensures Rest() != []
    {
      var last := |bufs| - 1;
      hide Flat;
      PosInside();
      if idx < last {
        FlatAt(bufs, last);
        assert bufs[..last] == bufs[..idx + 1] + bufs[idx + 1..last];
        FlatConcat(bufs[..idx + 1], bufs[idx + 1..last]);
        FlatAt(bufs, idx);
      }
    }

    lemma ClosedAtEnd()
      ensures idx >= |bufs| ==> !LastOpen()
    {
    }

    lemma RestLength()
      requires Valid()
      ensures Pos() + |Rest()| == |Flat(bufs)|
      ensures idx == |bufs| ==> Rest() == []
    {
      PosInside();
    }

    lemma Ahead(len: nat)
      requires Valid() && idx < |bufs| && len <= |bufs[idx]| - off
      ensures len <= |Rest()| && Rest()[..len] == bufs[idx][off..off + len]
    {
      PosInside();
      var p, n := Pos(), |bufs[idx]| - off;
      assert Flat(bufs)[p..][..len] == Flat(bufs)[p..p + n][..len];
      assert bufs[idx][off..][..len] == bufs[idx][off..off + len];
    }

    /** `fuse_bufvec_advance`: false when the last buffer has been used up. */
    method Advance(len: nat) returns (more: bool)
      requires Valid() && idx < |bufs| && off + len <= |bufs[idx]|
      modifies this`idx, this`off
      ensures Valid() && Pos() == old(Pos()) + len
      ensures more <==> idx < |bufs|
      ensures idx == old(idx) + if old(off) + len == |bufs[old(idx)]| then 1 else 0
      ensures idx < |bufs| ==> off == if idx == old(idx) then old(off) + len else 0
    {
      FlatAt(bufs, idx);
      off := off + len;
      if off == |bufs[idx]| {
        idx := idx + 1;
        if idx == |bufs| {
          return false;
        }
        off := 0;
      }
      return true;
    }
  }

  /** Memory case of `fuse_buf_copy_one`: `len` bytes from the source cursor to the destination. */
  method CopyOne(dst: BufVec, src: BufVec, len: nat)
    requires dst != src && dst.Valid() && src.Valid() && dst.idx < |dst.bufs| && src.idx < |src.bufs|
    requires len <= |src.bufs[src.idx]| - src.off && len <= |dst.bufs[dst.idx]| - dst.off
    modifies dst`bufs
    ensures dst.Valid() && dst.Pos() == old(dst.Pos()) && |dst.bufs| == old(|dst.bufs|)
    ensures |dst.bufs[dst.idx]| == old(|dst.bufs[dst.idx]|)
    ensures old(dst.Pos()) + len <= |old(Flat(dst.bufs))| && len <= |src.Rest()|
    ensures Flat(dst.bufs) == Splice(old(Flat(dst.bufs)), old(dst.Pos()), src.Rest()[..len])
  {
    ghost var k := dst.idx;
    var piece := src.bufs[src.idx][src.off..src.off + len];
    src.Ahead(len);
    FlatSplice(dst.bufs, k, dst.off, piece);
    dst.bufs := dst.bufs[dst.idx := Splice(dst.bufs[dst.idx], dst.off, piece)];
    assert dst.bufs[..k] == old(dst.bufs)[..k];
  }

  /** One round of the loop of `fuse_buf_copy_pmem`; when the source is used up the destination
      cursor stays behind. */
  method CopyPiece(dst: BufVec, src: BufVec) returns (len: nat, more: bool)
    requires dst != src && dst.Valid() && src.Valid() && dst.idx < |dst.bufs| && src.idx < |src.bufs|
    modifies dst, src`idx, src`off
    ensures dst.Valid() && src.Valid() && |dst.bufs| == old(|dst.bufs|)
    ensures len <= |old(src.Rest())| && old(dst.Pos()) + len <= |old(Flat(dst.bufs))|
    ensures Flat(dst.bufs) == Splice(old(Flat(dst.bufs)), old(dst.Pos()), old(src.Rest())[..len])
    ensures src.Pos() == old(src.Pos()) + len && src.Rest() == old(src.Rest())[len..]
    ensures src.idx >= old(src.idx) && dst.idx >= old(dst.idx)
    ensures more ==> src.idx + dst.idx > old(src.idx + dst.idx)
    ensures if src.idx < |src.bufs| then dst.Pos() == old(dst.Pos()) + len && (more <==> dst.idx < |dst.bufs|)
            else !more && src.Rest() == [] && dst.Pos() == old(dst.Pos())
    ensures if src.idx < |src.bufs| then src.LastOpen() <==> old(src.LastOpen()) else len > 0 <==> old(src.LastOpen())
  {
    hide Flat, Splice;
    var srcLen, dstLen := |src.bufs[src.idx]| - src.off, |dst.bufs[dst.idx]| - dst.off;
    len := Min(srcLen, dstLen);
    src.PosInside();
    dst.PosInside();
    CopyOne(dst, src, len);
    more := src.Advance(len);
    src.PosInside();
    if more {
      more := dst.Advance(len);
    }
  }

  /** One buffer more in `fuse_buf_size`: the largest size is absorbing until the next buffer, and sums wrap. */
  function AddSize(size: nat, n: nat): nat { if n == WORD - 1 then WORD - 1 else (size + n) % WORD }

  function SizeUpto(b: Buffers): nat { if b == [] then 0 else AddSize(SizeUpto(b[..|b| - 1]), |b[|b| - 1]|) }

  /** `fuse_buf_size`: the number of bytes, whenever a `size_t` can hold it. */
  method BufSize(v: BufVec) returns (size: nat)
    ensures size == SizeUpto(v.bufs) && (|Flat(v.bufs)| < WORD ==> size == |Flat(v.bufs)|)
    ensures v.bufs != [] && |v.bufs[|v.bufs| - 1]| == WORD - 1 ==> size == WORD - 1
  {
    size := 0;
    var i := 0;
    while i < |v.bufs|
      invariant i <= |v.bufs| && size == SizeUpto(v.bufs[..i])
      invariant |Flat(v.bufs[..i])| < WORD ==> size == |Flat(v.bufs[..i])|
    {
      FlatAt(v.bufs, i);
      assert v.bufs[..i + 1][..i] == v.bufs[..i];
      size := AddSize(size, |v.bufs[i]|);
      i := i + 1;
    }
    assert v.bufs[..i] == v.bufs;
  }

  /** The same, seen from the start of the copy: the first `copied` bytes of `rest` are in place already. */
  method CopyNext(dst: BufVec, src: BufVec, ghost to: seq<Byte>, ghost d0: nat, ghost rest: seq<Byte>,
                  ghost copied: nat)
    returns (len: nat, more: bool)
    requires dst != src && dst.Valid() && src.Valid() && dst.idx < |dst.bufs| && src.idx < |src.bufs|
    requires Taken(dst, src, to, d0, rest, copied) && dst.Pos() == d0 + copied
    modifies dst, src`idx, src`off
    ensures dst.Valid() && src.Valid() && |dst.bufs| == old(|dst.bufs|)
    ensures Taken(dst, src, to, d0, rest, copied + len) && src.Pos() == old(src.Pos()) + len
    ensures src.idx >= old(src.idx) && dst.idx >= old(dst.idx)
    ensures more ==> src.idx + dst.idx > old(src.idx + dst.idx)
    ensures if src.idx < |src.bufs| then dst.Pos() == old(dst.Pos()) + len && (more <==> dst.idx < |dst.bufs|)
            else !more && src.Rest() == [] && dst.Pos() == old(dst.Pos())
    ensures if src.idx < |src.bufs| then src.LastOpen() <==> old(src.LastOpen()) else len > 0 <==> old(src.LastOpen())
  {
    hide Flat, Splice, BufVec.Rest, BufVec.Pos, BufVec.LastOpen, Taken;
    ghost var before := Flat(dst.bufs);
    AllTaken(dst, src, to, d0, rest, copied);
    len, more := CopyPiece(dst, src);
    MoreTaken(dst, src, to, d0, rest, copied, len, before);
  }

  /** `fuse_buf_copy_pmem` between two vectors: as many bytes as both sides have are copied, in order. The
      source cursor moves by exactly that much. The destination cursor does so if and only if the source
      is not used up, or its last buffer had nothing to offer. */
  method Copy(dst: BufVec, src: BufVec) returns (copied: nat)
    requires dst != src && dst.Valid() && src.Valid()
    modifies dst, src`idx, src`off
    ensures dst.Valid() && src.Valid() && |dst.bufs| == |old(dst.bufs)|
    ensures copied == Min(|old(src.Rest())|, |old(dst.Rest())|) && old(dst.Pos()) + copied <= |old(Flat(dst.bufs))|
    ensures Flat(dst.bufs) == Splice(old(Flat(dst.bufs)), old(dst.Pos()), old(src.Rest())[..copied])
    ensures src.Pos() == old(src.Pos()) + copied && src.Rest() == old(src.Rest())[copied..]
    ensures dst.Pos() == old(dst.Pos()) + copied
      <==> !old(src.LastOpen()) || |old(src.Rest())| > |old(dst.Rest())|
  {
    hide Flat, Splice, BufVec.Rest, BufVec.Pos, BufVec.LastOpen, Taken;
    ghost var to, d0, rest := Flat(dst.bufs), dst.Pos(), src.Rest();
    dst.RestLength();
    src.RestLength();
    src.ClosedAtEnd();
    copied := 0;
    NoneTaken(dst, src, to, d0, rest);
    var more := src.idx < |src.bufs| && dst.idx < |dst.bufs|;
    while more
      invariant dst.Valid() && src.Valid() && |dst.bufs| == |old(dst.bufs)|
      invariant Taken(dst, src, to, d0, rest, copied) && src.Pos() == old(src.Pos()) + copied
      invariant more ==> src.idx < |src.bufs| && dst.idx < |dst.bufs|
      invariant src.idx < |src.bufs| ==> dst.Pos() == d0 + copied && (more <==> dst.idx < |dst.bufs|)
      invariant src.idx < |src.bufs| ==> (src.LastOpen() <==> old(src.LastOpen()))
      invariant src.idx == |src.bufs| ==> src.Rest() == []
      invariant src.idx == |src.bufs| ==> (dst.Pos() == d0 + copied <==> !old(src.LastOpen()))
      decreases more, |src.bufs| - src.idx + |dst.bufs| - dst.idx
    {
      var len;
      len, more := CopyNext(dst, src, to, d0, rest, copied);
      copied := copied + len;
    }
    AllTaken(dst, src, to, d0, rest, copied);
    dst.RestLength();
    if src.LastOpen() { src.OpenAhead(); }
  }

  /** The first `copied` bytes of `rest` have gone into `to` from `d0` on. */
  ghost predicate Taken(dst: BufVec, src: BufVec, to: seq<Byte>, d0: nat, rest: seq<Byte>, copied: nat)
    requires src.Valid()
    reads dst, src
  {
    && copied <= |rest| && d0 + copied <= |to| && src.Rest() == rest[copied..]
    && Flat(dst.bufs) == Splice(to, d0, rest[..copied])
  }

  lemma NoneTaken(dst: BufVec, src: BufVec, to: seq<Byte>, d0: nat, rest: seq<Byte>)
    requires src.Valid() && rest == src.Rest() && to == Flat(dst.bufs) && d0 <= |to|
    ensures Taken(dst, src, to, d0, rest, 0)
  {
    NoSplice(to, d0);
  }

  lemma MoreTaken(dst: BufVec, src: BufVec, to: seq<Byte>, d0: nat, rest: seq<Byte>, copied: nat, len: nat,
                  before: seq<Byte>)
    requires src.Valid() && copied + len <= |rest| && d0 + copied + len <= |to| && src.Rest() == rest[copied..][len..]
    requires before == Splice(to, d0, rest[..copied])
    requires Flat(dst.bufs) == Splice(before, d0 + copied, rest[copied..][..len])
    ensures Taken(dst, src, to, d0, rest, copied + len)
  {
    Extend(to, d0, rest, copied, len);
  }

  lemma AllTaken(dst: BufVec, src: BufVec, to: seq<Byte>, d0: nat, rest: seq<Byte>, copied: nat)
    requires src.Valid() && Taken(dst, src, to, d0, rest, copied)
    ensures copied <= |rest| && d0 + copied <= |to| && src.Rest() == rest[copied..]
    ensures |Flat(dst.bufs)| == |to| && Flat(dst.bufs) == Splice(to, d0, rest[..copied])
  {
  }

  /** `fuse_buf_copy_pmem`: a vector copied to itself is left alone, and its whole size is returned. */
  method CopyVectors(dst: BufVec, src: BufVec) returns (copied: nat)
    requires dst.Valid() && src.Valid()
    modifies dst, src`idx, src`off
    ensures dst.Valid() && src.Valid()
    ensures dst == src ==> unchanged(dst) && copied == SizeUpto(dst.bufs)
    ensures dst == src && |Flat(dst.bufs)| < WORD ==> copied == |Flat(dst.bufs)|
    ensures dst != src ==>
      && copied == Min(|old(src.Rest())|, |old(dst.Rest())|) && old(dst.Pos()) + copied <= |old(Flat(dst.bufs))|
      && Flat(dst.bufs) == Splice(old(Flat(dst.bufs)), old(dst.Pos()), old(src.Rest())[..copied])
      && src.Pos() == old(src.Pos()) + copied
  {
    hide Flat, Splice, BufVec.Rest, BufVec.Pos, BufVec.LastOpen;
    if dst == src {
      copied := BufSize(dst);
    } else {
      copied := Copy(dst, src);
    }
  }

  /** The destination byte is there, but the cursor has not moved. */
  method CursorLags() returns (dst: BufVec, copied: nat)
    ensures dst.bufs == [[1]] && copied == 1 && dst.idx == 0 && dst.off == 0
  {
    dst := new BufVec([[0]]);
    var src := new BufVec([[1]]);
    FlatCons([0], []);
    FlatCons([1], []);
    assert dst.Pos() == 0 && dst.Rest() == [0] && src.Rest() == [1];
    copied := Copy(dst, src);
    assert Splice([0], 0, [1][..1]) == [1];
    FlatCons(dst.bufs[0], []);
    assert dst.bufs == [dst.bufs[0]] && dst.bufs[0] == [1];
    assert dst.bufs[..1] == [[1]];
  }

  /** One more piece of the source behind those already written. */
  lemma Extend(to: seq<Byte>, at: nat, rest: seq<Byte>, copied: nat, len: nat)
    requires copied + len <= |rest| && at + copied + len <= |to|
    ensures Splice(Splice(to, at, rest[..copied]), at + copied, rest[copied..][..len])
      == Splice(to, at, rest[..copied + len])
    ensures rest[copied..][len..] == rest[copied + len..]
  {
    assert rest[copied..][..len] == rest[copied..copied + len];
    assert rest[..copied + len] == rest[..copied] + rest[copied..copied + len];
    SpliceTwice(to, at, rest[..copied], rest[copied..copied + len]);
  }

  lemma NoSplice(s: seq<Byte>, at: nat)
    requires at <= |s|
    ensures Splice(s, at, []) == s
  {
  }
}
