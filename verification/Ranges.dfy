/**
 The dirty ranges that a scan of the era array reports. The scan is not atomic, so everything here
 is about the values that were loaded, one per chunk, whenever each was loaded.
 */
module Ranges {
  import opened Geometry

  datatype DirtyRange = DirtyRange(offset: nat, len: nat)

  /** The range list after the first `k` chunks have been looked at. */
  function RangesUpTo(vals: seq<nat>, since: nat, size: nat, g: nat, k: nat): (rs: seq<DirtyRange>)
    requires g > 0 && k <= |vals| == Chunks(size, g)
    decreases k
  {
    if k == 0 then []
    else
      var rs := RangesUpTo(vals, since, size, g, k - 1);
      if vals[k - 1] <= since then rs
      else
        ChunkStartsInside(size, g, k - 1);
        Append(rs, (k - 1) * g, Min(g, size - (k - 1) * g))
  }

  /** Extend the last range when the new one starts where it ends, otherwise push. */
  function Append(rs: seq<DirtyRange>, offset: nat, len: nat): (r: seq<DirtyRange>) {
    if rs != [] && rs[|rs| - 1].offset + rs[|rs| - 1].len == offset
    then rs[..|rs| - 1] + [DirtyRange(rs[|rs| - 1].offset, rs[|rs| - 1].len + len)]
    else rs + [DirtyRange(offset, len)]
  }

  function RangesOf(vals: seq<nat>, since: nat, size: nat, g: nat): seq<DirtyRange>
    requires g > 0 && |vals| == Chunks(size, g)
  {
    RangesUpTo(vals, since, size, g, |vals|)
  }

  ghost predicate InRange(r: DirtyRange, b: nat) { r.offset <= b < r.offset + r.len }

  /** Byte `b` is reported. */
  ghost predicate Denotes(rs: seq<DirtyRange>, b: nat) {
    exists i :: 0 <= i < |rs| && InRange(rs[i], b)
  }

  /** Sorted, disjoint, non-empty and never adjacent. */
  ghost predicate Separated(rs: seq<DirtyRange>) {
    && (forall i :: 0 <= i < |rs| ==> rs[i].len > 0)
    && (forall i, j :: 0 <= i < j < |rs| ==> rs[i].offset + rs[i].len < rs[j].offset)
  }

  /** Cut at chunk edges, except that the last chunk ends where the device ends. */
  ghost predicate Aligned(rs: seq<DirtyRange>, size: nat, g: nat)
    requires g > 0
  {
    forall i :: 0 <= i < |rs| ==>
      && rs[i].offset % g == 0
      && ((rs[i].offset + rs[i].len) % g == 0 || rs[i].offset + rs[i].len == size)
      && rs[i].offset + rs[i].len <= size
  }

  ghost predicate EndsBy(rs: seq<DirtyRange>, bound: nat) {
    forall i :: 0 <= i < |rs| ==> rs[i].offset + rs[i].len <= bound
  }

  // ---------------------------------------------------------------- one appended range

  lemma AppendSeparated(rs: seq<DirtyRange>, offset: nat, len: nat)
    requires Separated(rs) && EndsBy(rs, offset) && len > 0
    ensures Separated(Append(rs, offset, len)) && EndsBy(Append(rs, offset, len), offset + len)
  {
    var r := Append(rs, offset, len);
    forall i, j | 0 <= i < j < |r| ensures r[i].offset + r[i].len < r[j].offset {
      if j < |rs| {
        assert r[i] == rs[i] && r[j].offset == rs[j].offset;
      } else {
        assert rs != [] ==> rs[|rs| - 1].offset + rs[|rs| - 1].len < offset;
        assert i < |rs| - 1 ==> rs[i].offset + rs[i].len < rs[|rs| - 1].offset;
      }
    }
  }

  lemma AppendDenotes(rs: seq<DirtyRange>, offset: nat, len: nat, b: nat)
    ensures Denotes(Append(rs, offset, len), b) <==> Denotes(rs, b) || offset <= b < offset + len
  {
    var r := Append(rs, offset, len);
    assert InRange(r[|r| - 1], b) ==> Denotes(r, b);
    if rs != [] && rs[|rs| - 1].offset + rs[|rs| - 1].len == offset {
      assert forall i :: 0 <= i < |rs| - 1 ==> r[i] == rs[i];
      assert InRange(rs[|rs| - 1], b) ==> Denotes(rs, b);
      assert InRange(r[|r| - 1], b) <==> InRange(rs[|rs| - 1], b) || offset <= b < offset + len;
    } else {
      assert forall i :: 0 <= i < |rs| ==> r[i] == rs[i];
    }
  }

  lemma AppendAligned(rs: seq<DirtyRange>, offset: nat, len: nat, size: nat, g: nat)
    requires g > 0 && Aligned(rs, size, g) && offset % g == 0 && offset + len <= size
    requires (offset + len) % g == 0 || offset + len == size
    ensures Aligned(Append(rs, offset, len), size, g)
  {
    var r := Append(rs, offset, len);
    assert r[|r| - 1].offset + r[|r| - 1].len == offset + len;
  }

  // ---------------------------------------------------------------- where a chunk lies

  lemma MultipleMod(c: nat, g: nat)
    requires g > 0
    ensures (c * g) % g == 0 && c * g + g == (c + 1) * g
  {
    var x := c * g;
    ChunkEdges(x, c, g);
    assert x == (x / g) * g + x % g;
  }

  /** Chunk `c` as an offset and a length, cut off at the end of the device. */
  lemma ChunkSpan(c: nat, size: nat, g: nat, offset: nat, len: nat)
    requires g > 0 && offset == c * g && offset < size && len == Min(g, size - offset)
    ensures len > 0 && offset + len == Min((c + 1) * g, size)
    ensures offset % g == 0 && ((offset + len) % g == 0 || offset + len == size)
  {
    MultipleMod(c, g);
    MultipleMod(c + 1, g);
  }

  lemma ChunkSpanHolds(c: nat, size: nat, g: nat, offset: nat, len: nat, b: nat)
    requires g > 0 && offset == c * g && offset < size && len == Min(g, size - offset)
    ensures offset <= b < offset + len <==> b < size && b / g == c
  {
    ChunkEdges(b, c, g);
  }

  // ---------------------------------------------------------------- the whole list

  /** The documented shape of a list that ends by `bound`. */
  ghost predicate Shape(rs: seq<DirtyRange>, bound: nat, size: nat, g: nat)
    requires g > 0
  {
    Separated(rs) && EndsBy(rs, bound) && Aligned(rs, size, g)
  }

  lemma ShapeAppended(rs: seq<DirtyRange>, offset: nat, len: nat, size: nat, g: nat)
    requires g > 0 && Shape(rs, offset, size, g) && len > 0 && offset % g == 0 && offset + len <= size
    requires (offset + len) % g == 0 || offset + len == size
    ensures Shape(Append(rs, offset, len), offset + len, size, g)
  {
    hide Append, Separated, EndsBy, Aligned;
    AppendSeparated(rs, offset, len);
    AppendAligned(rs, offset, len, size, g);
  }

  lemma ShapeSkipped(rs: seq<DirtyRange>, offset: nat, bound: nat, size: nat, g: nat)
    requires g > 0 && Shape(rs, offset, size, g) && offset <= bound
    ensures Shape(rs, bound, size, g)
  {
    hide Separated, Aligned;
  }

  /** What one chunk adds to the list. */
  lemma RangesStep(vals: seq<nat>, since: nat, size: nat, g: nat, k: nat, offset: nat, len: nat)
    requires g > 0 && k < |vals| == Chunks(size, g)
    requires offset == k * g && offset < size && len == Min(g, size - offset)
    ensures RangesUpTo(vals, since, size, g, k + 1)
         == if vals[k] <= since then RangesUpTo(vals, since, size, g, k)
            else Append(RangesUpTo(vals, since, size, g, k), offset, len)
  {
    hide Append, Chunks;
  }

  /** The list has the documented shape after every chunk. */
  lemma {:induction false} PrefixShape(vals: seq<nat>, since: nat, size: nat, g: nat, k: nat)
    requires g > 0 && k <= |vals| == Chunks(size, g)
    ensures Shape(RangesUpTo(vals, since, size, g, k), Min(k * g, size), size, g)
    decreases k
  {
    hide Shape, Append, Chunks;
    if k == 0 {
      NothingHasShape(0, size, g);
    } else {
      ChunkStartsInside(size, g, k - 1);
      MulMonotone(0, k - 1, g);
      var offset: nat := (k - 1) * g;
      var len := Min(g, size - offset);
      ChunkSpan(k - 1, size, g, offset, len);
      PrefixShape(vals, since, size, g, k - 1);
      RangesStep(vals, since, size, g, k - 1, offset, len);
      var rs := RangesUpTo(vals, since, size, g, k - 1);
      if vals[k - 1] > since {
        ShapeAppended(rs, offset, len, size, g);
      } else {
        ShapeSkipped(rs, offset, offset + len, size, g);
      }
    }
  }

  lemma NothingHasShape(bound: nat, size: nat, g: nat)
    requires g > 0
    ensures Shape([], bound, size, g)
  {}

  /** After `k` chunks exactly the bytes of the dirty ones among them are reported. */
  lemma {:induction false} PrefixExact(vals: seq<nat>, since: nat, size: nat, g: nat, k: nat, b: nat)
    requires g > 0 && k <= |vals| == Chunks(size, g)
    ensures Denotes(RangesUpTo(vals, since, size, g, k), b)
       <==> b < size && b / g < k && vals[b / g] > since
    decreases k
  {
    hide Append, Chunks;
    if k > 0 {
      hide Denotes;
      ChunkStartsInside(size, g, k - 1);
      MulMonotone(0, k - 1, g);
      var offset: nat := (k - 1) * g;
      var len := Min(g, size - offset);
      PrefixExact(vals, since, size, g, k - 1, b);
      RangesStep(vals, since, size, g, k - 1, offset, len);
      ChunkSpanHolds(k - 1, size, g, offset, len, b);
      AppendDenotes(RangesUpTo(vals, since, size, g, k - 1), offset, len, b);
    }
  }

  /** A byte is reported exactly when it is on the device and its chunk was loaded as newer than `since`. */
  lemma RangesExact(vals: seq<nat>, since: nat, size: nat, g: nat, b: nat)
    requires g > 0 && |vals| == Chunks(size, g)
    ensures Denotes(RangesOf(vals, since, size, g), b)
       <==> b < size && b / g < |vals| && vals[b / g] > since
  {
    PrefixExact(vals, since, size, g, |vals|, b);
  }

  /** Two separated lists that report the same bytes are the same list. */
  lemma {:induction false} SeparatedUnique(rs: seq<DirtyRange>, qs: seq<DirtyRange>)
    requires Separated(rs) && Separated(qs)
    requires forall b: nat :: Denotes(rs, b) <==> Denotes(qs, b)
    ensures rs == qs
    decreases |rs|
  {
    if rs == [] {
      if qs != [] {
        assert InRange(qs[0], qs[0].offset);
        assert Denotes(qs, qs[0].offset);
        assert false;
      }
    } else {
      assert InRange(rs[0], rs[0].offset) && Denotes(rs, rs[0].offset);
      assert qs != [];
      assert InRange(qs[0], qs[0].offset) && Denotes(qs, qs[0].offset);
      FirstByte(rs, qs[0].offset);
      FirstByte(qs, rs[0].offset);
      FirstEnd(rs, qs);
      FirstEnd(qs, rs);
      forall b: nat ensures Denotes(rs[1..], b) <==> Denotes(qs[1..], b) {
        TailDenotes(rs, b);
        TailDenotes(qs, b);
      }
      SeparatedUnique(rs[1..], qs[1..]);
      assert rs == [rs[0]] + rs[1..] && qs == [qs[0]] + qs[1..];
    }
  }

  lemma FirstByte(rs: seq<DirtyRange>, b: nat)
    requires Separated(rs) && rs != [] && Denotes(rs, b)
    ensures rs[0].offset <= b
  {
    var i :| 0 <= i < |rs| && InRange(rs[i], b);
    if i > 0 {
      assert rs[0].offset + rs[0].len < rs[i].offset;
    }
  }

  /** The byte just after the first range is not reported, so no other list's first range goes past it. */
  lemma FirstEnd(rs: seq<DirtyRange>, qs: seq<DirtyRange>)
    requires Separated(rs) && Separated(qs) && rs != [] && qs != [] && rs[0].offset == qs[0].offset
    requires forall b: nat :: Denotes(rs, b) <==> Denotes(qs, b)
    ensures qs[0].len <= rs[0].len
  {
    var e := rs[0].offset + rs[0].len;
    assert qs[0].len > rs[0].len ==> InRange(qs[0], e);
    GapAfterFirst(rs);
  }

  lemma GapAfterFirst(rs: seq<DirtyRange>)
    requires Separated(rs) && rs != []
    ensures !Denotes(rs, rs[0].offset + rs[0].len)
  {
    forall i | 0 <= i < |rs| ensures !InRange(rs[i], rs[0].offset + rs[0].len) {
      if i > 0 {
        assert rs[0].offset + rs[0].len < rs[i].offset;
      }
    }
  }

  lemma TailDenotes(rs: seq<DirtyRange>, b: nat)
    requires Separated(rs) && rs != []
    ensures Denotes(rs[1..], b) <==> Denotes(rs, b) && !InRange(rs[0], b)
  {
    if Denotes(rs[1..], b) {
      var i :| 0 <= i < |rs[1..]| && InRange(rs[1..][i], b);
      assert InRange(rs[i + 1], b) && rs[0].offset + rs[0].len < rs[i + 1].offset;
    }
    if Denotes(rs, b) && !InRange(rs[0], b) {
      var i :| 0 <= i < |rs| && InRange(rs[i], b);
      assert InRange(rs[1..][i - 1], b);
    }
  }

  /** The list reports exactly the bytes of the device whose chunk was loaded as newer than `since`. */
  ghost predicate ReportsExactly(rs: seq<DirtyRange>, vals: seq<nat>, since: nat, size: nat, g: nat)
    requires g > 0
  {
    forall b: nat :: Denotes(rs, b) <==> b < size && b / g < |vals| && vals[b / g] > since
  }

  lemma RangesShape(vals: seq<nat>, since: nat, size: nat, g: nat)
    requires g > 0 && |vals| == Chunks(size, g)
    ensures var rs := RangesOf(vals, since, size, g);
      Separated(rs) && Aligned(rs, size, g) && EndsBy(rs, size)
  {
    hide Chunks, Separated, Aligned, RangesUpTo;
    PrefixShape(vals, since, size, g, |vals|);
  }

  lemma RangesReport(vals: seq<nat>, since: nat, size: nat, g: nat)
    requires g > 0 && |vals| == Chunks(size, g)
    ensures ReportsExactly(RangesOf(vals, since, size, g), vals, since, size, g)
  {
    hide RangesOf, Denotes, Chunks;
    forall b: nat
      ensures Denotes(RangesOf(vals, since, size, g), b) <==> b < size && b / g < |vals| && vals[b / g] > since
    {
      RangesExact(vals, since, size, g, b);
    }
  }

  lemma SameReport(rs: seq<DirtyRange>, qs: seq<DirtyRange>, vals: seq<nat>, since: nat, size: nat, g: nat)
    requires g > 0 && ReportsExactly(rs, vals, since, size, g) && ReportsExactly(qs, vals, since, size, g)
    ensures forall b: nat :: Denotes(rs, b) <==> Denotes(qs, b)
  {
    hide Denotes;
  }

  /**
   The reported list is canonical: it is the only separated list that reports exactly the bytes of
   the chunks loaded as newer than `since`, and it is cut at chunk edges inside the device.
   */
  lemma RangesCanonical(vals: seq<nat>, since: nat, size: nat, g: nat, qs: seq<DirtyRange>)
    requires g > 0 && |vals| == Chunks(size, g)
    ensures var rs := RangesOf(vals, since, size, g);
      && Separated(rs) && Aligned(rs, size, g)
      && (Separated(qs) && ReportsExactly(qs, vals, since, size, g) <==> qs == rs)
  {
    hide RangesOf, ReportsExactly, Separated, Aligned, Denotes, Chunks;
    var rs := RangesOf(vals, since, size, g);
    RangesShape(vals, since, size, g);
    RangesReport(vals, since, size, g);
    if Separated(qs) && ReportsExactly(qs, vals, since, size, g) {
      SameReport(qs, rs, vals, since, size, g);
      SeparatedUnique(qs, rs);
    }
  }

  // ---------------------------------------------------------------- dirty_bytes

  /** The `dirty_bytes` field: the sum of the lengths. */
  function TotalLen(rs: seq<DirtyRange>): nat {
    if rs == [] then 0 else rs[|rs| - 1].len + TotalLen(rs[..|rs| - 1])
  }

  ghost function BytesBelow(bound: nat, rs: seq<DirtyRange>): set<nat> {
    set b: nat | b < bound && Denotes(rs, b)
  }

  ghost function BytesOf(r: DirtyRange): set<nat> {
    set b: nat | b < r.offset + r.len && InRange(r, b)
  }

  lemma {:induction false} RangeSize(r: DirtyRange)
    ensures |BytesOf(r)| == r.len
    decreases r.len
  {
    if r.len == 0 {
      assert BytesOf(r) == {};
    } else {
      var r' := DirtyRange(r.offset, r.len - 1);
      RangeSize(r');
      var e := r.offset + r.len - 1;
      assert forall b: nat :: InRange(r, b) <==> InRange(r', b) || b == e;
      assert BytesOf(r) == BytesOf(r') + {e};
    }
  }

  lemma LastDenotes(rs: seq<DirtyRange>, b: nat)
    requires Separated(rs) && rs != []
    ensures Denotes(rs, b) <==> Denotes(rs[..|rs| - 1], b) || InRange(rs[|rs| - 1], b)
    ensures !(Denotes(rs[..|rs| - 1], b) && InRange(rs[|rs| - 1], b))
  {
    var init, last := rs[..|rs| - 1], rs[|rs| - 1];
    if Denotes(rs, b) {
      var i :| 0 <= i < |rs| && InRange(rs[i], b);
      assert i < |init| ==> InRange(init[i], b);
    }
    if Denotes(init, b) {
      var i :| 0 <= i < |init| && InRange(init[i], b);
      assert InRange(rs[i], b) && rs[i].offset + rs[i].len < last.offset;
    }
  }

  /** `dirty_bytes` counts the reported bytes, each once. */
  lemma {:induction false} TotalLenCounts(rs: seq<DirtyRange>, bound: nat)
    requires Separated(rs) && EndsBy(rs, bound)
    ensures TotalLen(rs) == |BytesBelow(bound, rs)|
    decreases |rs|
  {
    if rs == [] {
      assert BytesBelow(bound, rs) == {};
    } else {
      var init, last := rs[..|rs| - 1], rs[|rs| - 1];
      TotalLenCounts(init, bound);
      RangeSize(last);
      SplitLast(rs, bound);
    }
  }

  lemma SplitLast(rs: seq<DirtyRange>, bound: nat)
    requires Separated(rs) && EndsBy(rs, bound) && rs != []
    ensures BytesBelow(bound, rs) == BytesBelow(bound, rs[..|rs| - 1]) + BytesOf(rs[|rs| - 1])
    ensures BytesBelow(bound, rs[..|rs| - 1]) !! BytesOf(rs[|rs| - 1])
  {
    var init, last := rs[..|rs| - 1], rs[|rs| - 1];
    forall b: nat
      ensures b in BytesBelow(bound, rs) <==> b in BytesBelow(bound, init) || b in BytesOf(last)
      ensures !(b in BytesBelow(bound, init) && b in BytesOf(last))
    {
      LastDenotes(rs, b);
    }
  }
}
