/**
 Whole runs of the cached disk: writes, failed writes, discards, honest and lying flushes and power
 losses in any order, with autonomous writeback happening inside the writes.
 */
module Durability {
  import opened Bytes
  import opened Geometry
  import opened CachedDisk
  import Ranges

  datatype Op =
    | Write(off: nat, data: seq<byte>)
    | FailedWrite(off: nat, data: seq<byte>, kept: nat)  // `kept` whole blocks reached the cache
    | Discard(off: nat, len: nat)
    | HonestFlush
    | LyingFlush
    | Crash(keep: seq<seq<bool>>)

  datatype Params = Params(lbs: nat, cap: nat)

  function Zeros(n: nat): (z: seq<byte>)
    ensures |z| == n && forall i :: 0 <= i < n ==> z[i] == 0
  {
    seq(n, i => 0)
  }

  /** What an op puts into the cache: nothing or one entry. */
  function Payload(op: Op, lbs: nat): (es: seq<Entry>)
    requires op.FailedWrite? ==> op.kept * lbs <= |op.data|
    ensures |es| <= 1
  {
    match op
    case Write(off, data) => [Entry(off, data)]
    case FailedWrite(off, data, kept) => if kept * lbs > 0 then [Entry(off, data[..kept * lbs])] else []
    case Discard(off, len) => [Entry(off, Zeros(len))]
    case _ => []
  }

  /** What the op writes to lies on a disk of this size. */
  predicate OnDisk(p: Params, op: Op, size: nat) {
    match op
    case Write(off, data) => off + |data| <= size
    case FailedWrite(off, data, kept) => off + |data| <= size && kept * p.lbs <= |data|
    case Discard(off, len) => off + len <= size
    case _ => true
  }

  ghost predicate Enabled(p: Params, d: Disk, op: Op)
    requires p.lbs > 0
  {
    OnDisk(p, op, |d.committed|) && (op.Crash? ==> Choices(d.cache, p.lbs, op.keep))
  }

  function Step(p: Params, d: Disk, op: Op): (r: Disk)
    requires p.lbs > 0 && Valid(d) && Enabled(p, d, op)
    ensures Valid(r) && |r.committed| == |d.committed|
  {
    match op
    case HonestFlush => Flush(d)
    case LyingFlush => d
    case Crash(keep) => PowerLoss(d, p.lbs, keep)
    case _ =>
      var es := Payload(op, p.lbs);
      if es == [] then d else Push(d, es[0], p.cap)
  }

  ghost predicate ValidRun(p: Params, d: Disk, ops: seq<Op>)
    requires p.lbs > 0 && Valid(d)
    decreases |ops|, 0
  {
    ops == [] || (var n := |ops| - 1; ValidRun(p, d, ops[..n]) && Enabled(p, Run(p, d, ops[..n]), ops[n]))
  }

  ghost function Run(p: Params, d: Disk, ops: seq<Op>): (r: Disk)
    requires p.lbs > 0 && Valid(d) && ValidRun(p, d, ops)
    ensures Valid(r) && |r.committed| == |d.committed|
    decreases |ops|, 1
  {
    if ops == [] then d
    else var n := |ops| - 1; Step(p, Run(p, d, ops[..n]), ops[n])
  }

  // ---------------------------------------------------------------- the flat disk

  /** The same op on a disk without a cache: what it stores replaces what was there, a flush does nothing. */
  function FlatStep(p: Params, img: seq<byte>, op: Op): (r: seq<byte>)
    requires OnDisk(p, op, |img|)
    ensures |r| == |img|
  {
    match op
    case Write(off, data) => img[..off] + data + img[off + |data|..]
    case FailedWrite(off, data, kept) =>
      MulMonotone(0, kept, p.lbs);
      img[..off] + data[..kept * p.lbs] + img[off + kept * p.lbs..]
    case Discard(off, len) => img[..off] + Zeros(len) + img[off + len..]
    case _ => img
  }

  /** Byte by byte: a write gives its data, a failed one its whole-block prefix, a discard zeros. */
  lemma FlatBytes(p: Params, img: seq<byte>, op: Op, b: nat)
    requires OnDisk(p, op, |img|) && b < |img|
    ensures op.Write? ==>
      FlatStep(p, img, op)[b] == if op.off <= b < op.off + |op.data| then op.data[b - op.off] else img[b]
    ensures op.FailedWrite? ==>
      FlatStep(p, img, op)[b] == if op.off <= b < op.off + op.kept * p.lbs then op.data[b - op.off] else img[b]
    ensures op.Discard? ==> FlatStep(p, img, op)[b] == if op.off <= b < op.off + op.len then 0 else img[b]
    ensures !op.Write? && !op.FailedWrite? && !op.Discard? ==> FlatStep(p, img, op) == img
  {
    if op.FailedWrite? {
      MulMonotone(0, op.kept, p.lbs);
    }
  }

  lemma PutOne(img: seq<byte>, e: Entry)
    requires Fits(e, |img|)
    ensures PutAll(img, [e]) == img[..e.off] + e.data + img[e.off + |e.data|..]
  {
    PutAllOne(img, e);
  }

  lemma FailedIsFlat(p: Params, img: seq<byte>, op: Op, n: nat)
    requires op.FailedWrite? && OnDisk(p, op, |img|) && n == op.kept * p.lbs
    ensures AllFit(Payload(op, p.lbs), |img|) && PutAll(img, Payload(op, p.lbs)) == FlatStep(p, img, op)
  {
    hide Put;
    if n > 0 {
      PutOne(img, Entry(op.off, op.data[..n]));
    } else {
      assert img[..op.off] + op.data[..n] + img[op.off..] == img;
    }
  }

  /** Storing a payload is what the op does to a flat disk. */
  lemma PayloadIsFlat(p: Params, img: seq<byte>, op: Op)
    requires OnDisk(p, op, |img|)
    ensures AllFit(Payload(op, p.lbs), |img|) && PutAll(img, Payload(op, p.lbs)) == FlatStep(p, img, op)
  {
    match op {
      case Write(off, data) => PutOne(img, Entry(off, data));
      case FailedWrite(off, data, kept) =>
        MulMonotone(0, kept, p.lbs);
        FailedIsFlat(p, img, op, kept * p.lbs);
      case Discard(off, len) => PutOne(img, Entry(off, Zeros(len)));
      case _ =>
    }
  }

  /** Short of a power loss, one op does to the view exactly what it does to a flat disk. */
  lemma FlatRefinementStep(p: Params, d: Disk, op: Op)
    requires p.lbs > 0 && Valid(d) && Enabled(p, d, op) && !op.Crash?
    ensures View(Step(p, d, op)) == FlatStep(p, View(d), op)
  {
    hide FlatStep;
    var es := Payload(op, p.lbs);
    PayloadIsFlat(p, View(d), op);
    if es != [] {
      ViewOfPush(d, es[0], p.cap);
      assert PutAll(View(d), es) == Put(View(d), es[0]);
    }
  }

  ghost function FlatRun(p: Params, d: Disk, ops: seq<Op>): (r: seq<byte>)
    requires p.lbs > 0 && Valid(d) && ValidRun(p, d, ops)
    requires forall i :: 0 <= i < |ops| ==> !ops[i].Crash?
    ensures |r| == |d.committed|
    decreases |ops|
  {
    if ops == [] then View(d)
    else
      var n := |ops| - 1;
      FlatRefinementStep(p, Run(p, d, ops[..n]), ops[n]);
      FlatStep(p, FlatRun(p, d, ops[..n]), ops[n])
  }

  /** The view of the cached disk is a flat disk to which every op was applied in order. */
  lemma {:induction false} FlatRefinement(p: Params, d: Disk, ops: seq<Op>)
    requires p.lbs > 0 && Valid(d) && ValidRun(p, d, ops)
    requires forall i :: 0 <= i < |ops| ==> !ops[i].Crash?
    ensures View(Run(p, d, ops)) == FlatRun(p, d, ops)
    decreases |ops|
  {
    if ops != [] {
      var n := |ops| - 1;
      FlatRefinement(p, d, ops[..n]);
      FlatRefinementStep(p, Run(p, d, ops[..n]), ops[n]);
    }
  }

  // ---------------------------------------------------------------- durability of a flush

  predicate AlignedEntry(e: Entry, lbs: nat)
    requires lbs > 0
  {
    e.off % lbs == 0 && |e.data| % lbs == 0
  }

  predicate AlignedOp(op: Op, lbs: nat)
    requires lbs > 0
  {
    match op
    case Write(off, data) => off % lbs == 0 && |data| % lbs == 0
    case FailedWrite(off, data, _) => off % lbs == 0 && |data| % lbs == 0
    case Discard(off, len) => off % lbs == 0 && len % lbs == 0
    case _ => true
  }

  /** Entry `e` holds the whole logical block `k`. */
  predicate HasBlock(e: Entry, lbs: nat, k: nat) {
    e.off <= k * lbs && k * lbs + lbs <= e.off + |e.data|
  }

  function BlockIn(e: Entry, lbs: nat, k: nat): seq<byte>
    requires HasBlock(e, lbs, k)
  {
    e.data[k * lbs - e.off..k * lbs - e.off + lbs]
  }

  function BlockAt(img: seq<byte>, lbs: nat, k: nat): seq<byte>
    requires k * lbs + lbs <= |img|
  {
    img[k * lbs..k * lbs + lbs]
  }

  /** Op `op` gives logical block `k` the contents `content`. */
  ghost predicate Gives(p: Params, op: Op, k: nat, content: seq<byte>) {
    var lo, hi := k * p.lbs, k * p.lbs + p.lbs;
    match op
    case Write(off, data) => off <= lo && hi <= off + |data| && content == data[lo - off..hi - off]
    case FailedWrite(off, data, kept) =>
      kept * p.lbs <= |data| && off <= lo && hi <= off + kept * p.lbs && content == data[lo - off..hi - off]
    case Discard(off, len) => off <= lo && hi <= off + len && content == Zeros(p.lbs)
    case _ => false
  }

  /** A payload holds for a block what its op gives it. */
  lemma PayloadGives(p: Params, op: Op, k: nat)
    requires op.FailedWrite? ==> op.kept * p.lbs <= |op.data|
    requires Payload(op, p.lbs) != [] && HasBlock(Payload(op, p.lbs)[0], p.lbs, k)
    ensures Gives(p, op, k, BlockIn(Payload(op, p.lbs)[0], p.lbs, k))
  {
    var content, lo := BlockIn(Payload(op, p.lbs)[0], p.lbs, k), k * p.lbs;
    match op {
      case Discard(off, len) => assert content == Zeros(p.lbs);
      case FailedWrite(off, data, kept) => assert content == data[lo - off..lo - off + p.lbs];
      case _ =>
    }
  }

  /** `content` is what block `k` of `base` held, or what one of `ops` gave it. */
  ghost predicate Legal(p: Params, base: seq<byte>, ops: seq<Op>, k: nat, content: seq<byte>)
    requires k * p.lbs + p.lbs <= |base|
  {
    content == BlockAt(base, p.lbs, k) || exists i :: 0 <= i < |ops| && Gives(p, ops[i], k, content)
  }

  ghost predicate LegalImage(p: Params, base: seq<byte>, ops: seq<Op>, img: seq<byte>) {
    && |img| == |base|
    && forall k: nat :: k * p.lbs + p.lbs <= |base| ==> Legal(p, base, ops, k, BlockAt(img, p.lbs, k))
  }

  /** Every block of the entry was given by one of `ops`. */
  ghost predicate LegalEntry(p: Params, base: seq<byte>, ops: seq<Op>, e: Entry)
    requires p.lbs > 0
  {
    && AlignedEntry(e, p.lbs) && Fits(e, |base|)
    && forall k: nat :: HasBlock(e, p.lbs, k) ==>
         exists i :: 0 <= i < |ops| && Gives(p, ops[i], k, BlockIn(e, p.lbs, k))
  }

  ghost predicate LegalEntries(p: Params, base: seq<byte>, ops: seq<Op>, es: seq<Entry>)
    requires p.lbs > 0
  {
    forall j :: 0 <= j < |es| ==> LegalEntry(p, base, ops, es[j])
  }

  /** A run of whole units covers a byte of unit `k` exactly when it covers all of unit `k`. */
  lemma WholeUnits(lo: nat, n: nat, k: nat, u: nat, b: nat)
    requires k * u <= b < k * u + u
    ensures lo * u <= b < lo * u + n * u <==> lo * u <= k * u && k * u + u <= lo * u + n * u
  {
    assert (lo + n) * u == lo * u + n * u && (k + 1) * u == k * u + u;
    if lo <= k {
      MulMonotone(lo, k, u);
    } else {
      MulMonotone(k + 1, lo, u);
    }
    if k + 1 <= lo + n {
      MulMonotone(k + 1, lo + n, u);
    } else {
      MulMonotone(lo + n, k, u);
    }
  }

  lemma WholeMultiple(x: nat, u: nat)
    requires u > 0 && x % u == 0
    ensures x == (x / u) * u
  {}

  /** An aligned entry holds a block entirely or not at all. */
  lemma AlignedCovers(e: Entry, lbs: nat, k: nat, b: nat)
    requires lbs > 0 && AlignedEntry(e, lbs) && k * lbs <= b < k * lbs + lbs
    ensures Covers(e, b) <==> HasBlock(e, lbs, k)
  {
    WholeMultiple(e.off, lbs);
    WholeMultiple(|e.data|, lbs);
    WholeUnits(e.off / lbs, |e.data| / lbs, k, lbs, b);
  }

  /** So copying it into an image replaces whole blocks. */
  lemma PutBlock(img: seq<byte>, e: Entry, lbs: nat, k: nat)
    requires lbs > 0 && Fits(e, |img|) && AlignedEntry(e, lbs) && k * lbs + lbs <= |img|
    ensures BlockAt(Put(img, e), lbs, k) == if HasBlock(e, lbs, k) then BlockIn(e, lbs, k) else BlockAt(img, lbs, k)
  {
    var r := Put(img, e);
    MulMonotone(0, k, lbs);
    forall x: nat | x < lbs
      ensures BlockAt(r, lbs, k)[x] == if HasBlock(e, lbs, k) then BlockIn(e, lbs, k)[x] else BlockAt(img, lbs, k)[x]
    {
      AlignedCovers(e, lbs, k, k * lbs + x);
      assert BlockAt(r, lbs, k)[x] == r[k * lbs + x];
    }
  }

  lemma PutLegal(p: Params, base: seq<byte>, ops: seq<Op>, img: seq<byte>, e: Entry)
    requires p.lbs > 0 && LegalImage(p, base, ops, img) && LegalEntry(p, base, ops, e)
    ensures LegalImage(p, base, ops, Put(img, e))
  {
    forall k: nat | k * p.lbs + p.lbs <= |base| ensures Legal(p, base, ops, k, BlockAt(Put(img, e), p.lbs, k)) {
      PutBlock(img, e, p.lbs, k);
      assert Legal(p, base, ops, k, BlockAt(img, p.lbs, k));
    }
  }

  lemma {:induction false} PutAllLegal(p: Params, base: seq<byte>, ops: seq<Op>, img: seq<byte>, es: seq<Entry>)
    requires p.lbs > 0 && LegalImage(p, base, ops, img) && LegalEntries(p, base, ops, es) && AllFit(es, |img|)
    ensures LegalImage(p, base, ops, PutAll(img, es))
    decreases |es|
  {
    if es != [] {
      PutLegal(p, base, ops, img, es[0]);
      PutAllLegal(p, base, ops, Put(img, es[0]), es[1..]);
    }
  }

  lemma {:induction false} DrainLegal(p: Params, base: seq<byte>, ops: seq<Op>, d: Disk)
    requires p.lbs > 0 && Valid(d) && LegalImage(p, base, ops, d.committed) && LegalEntries(p, base, ops, d.cache)
    ensures var r := Drain(d, p.cap); LegalImage(p, base, ops, r.committed) && LegalEntries(p, base, ops, r.cache)
    decreases |d.cache|
  {
    if CacheBytes(d.cache) > p.cap {
      PutLegal(p, base, ops, d.committed, d.cache[0]);
      DrainLegal(p, base, ops, WriteBack(d));
    }
  }

  lemma FullUnit(i: nat, n: nat, u: nat)
    requires i * u < n * u
    ensures i * u + u <= n * u
  {
    if i >= n {
      MulMonotone(n, i, u);
    } else {
      MulMonotone(i + 1, n, u);
    }
  }

  lemma SumOfMultiples(x: nat, i: nat, u: nat)
    requires u > 0 && x % u == 0
    ensures (x + i * u) % u == 0
  {
    WholeMultiple(x, u);
    assert x + i * u == (x / u + i) * u;
    Ranges.MultipleMod(x / u + i, u);
  }

  lemma BlockOfAt(e: Entry, lbs: nat, i: nat, start: nat)
    requires lbs > 0 && start == i * lbs && start + lbs <= |e.data|
    ensures BlockOf(e, lbs, i) == Entry(e.off + start, e.data[start..start + lbs])
  {}

  /** Every logical block of an aligned entry is a full aligned block. */
  lemma BlockAligned(e: Entry, lbs: nat, i: nat, start: nat)
    requires lbs > 0 && AlignedEntry(e, lbs) && start == i * lbs && start < |e.data|
    ensures start + lbs <= |e.data| && BlockOf(e, lbs, i) == Entry(e.off + start, e.data[start..start + lbs])
    ensures AlignedEntry(BlockOf(e, lbs, i), lbs)
  {
    hide BlockOf;
    BlockBounds(e.off, |e.data|, lbs, i, start);
    BlockOfAt(e, lbs, i, start);
  }

  lemma BlockBounds(off: nat, len: nat, lbs: nat, i: nat, start: nat)
    requires lbs > 0 && off % lbs == 0 && len % lbs == 0 && start == i * lbs && start < len
    ensures start + lbs <= len && (off + start) % lbs == 0 && lbs % lbs == 0
  {
    BlockEnd(len, lbs, i);
    SumOfMultiples(off, i, lbs);
  }

  lemma BlockEnd(len: nat, lbs: nat, i: nat)
    requires lbs > 0 && len % lbs == 0 && i * lbs < len
    ensures i * lbs + lbs <= len
  {
    WholeMultiple(len, lbs);
    FullUnit(i, len / lbs, lbs);
  }

  /** A logical block of a legal entry is a legal entry. */
  lemma BlockLegal(p: Params, base: seq<byte>, ops: seq<Op>, e: Entry, i: nat)
    requires p.lbs > 0 && LegalEntry(p, base, ops, e) && i * p.lbs < |e.data|
    ensures LegalEntry(p, base, ops, BlockOf(e, p.lbs, i))
  {
    var lbs, f := p.lbs, BlockOf(e, p.lbs, i);
    MulMonotone(0, i, lbs);
    BlockAligned(e, lbs, i, i * lbs);
    forall k: nat | HasBlock(f, lbs, k)
      ensures exists j :: 0 <= j < |ops| && Gives(p, ops[j], k, BlockIn(f, lbs, k))
    {
      assert HasBlock(e, lbs, k);
      assert BlockIn(f, lbs, k) == BlockIn(e, lbs, k);
    }
  }

  lemma {:induction false} PutBlocksLegal(p: Params, base: seq<byte>, ops: seq<Op>, img: seq<byte>, e: Entry,
                                          keep: seq<bool>, k: nat)
    requires p.lbs > 0 && LegalImage(p, base, ops, img) && LegalEntry(p, base, ops, e)
    requires |keep| == Blocks(|e.data|, p.lbs) && k <= |keep|
    ensures LegalImage(p, base, ops, PutBlocks(img, e, p.lbs, keep, k))
    decreases k
  {
    if k > 0 {
      PutBlocksLegal(p, base, ops, img, e, keep, k - 1);
      ChunkStartsInside(|e.data|, p.lbs, k - 1);
      BlockLegal(p, base, ops, e, k - 1);
      if keep[k - 1] {
        PutLegal(p, base, ops, PutBlocks(img, e, p.lbs, keep, k - 1), BlockOf(e, p.lbs, k - 1));
      }
    }
  }

  lemma {:induction false} SurvivingLegal(p: Params, base: seq<byte>, ops: seq<Op>, img: seq<byte>, es: seq<Entry>,
                                          keep: seq<seq<bool>>)
    requires p.lbs > 0 && LegalImage(p, base, ops, img) && LegalEntries(p, base, ops, es)
    requires AllFit(es, |img|) && Choices(es, p.lbs, keep)
    ensures LegalImage(p, base, ops, SurvivingImage(img, es, p.lbs, keep))
    decreases |es|
  {
    if es != [] {
      PutBlocksLegal(p, base, ops, img, es[0], keep[0], |keep[0]|);
      SurvivingLegal(p, base, ops, PutBlocks(img, es[0], p.lbs, keep[0], |keep[0]|), es[1..], keep[1..]);
    }
  }

  lemma MoreOpsLegal(p: Params, base: seq<byte>, ops: seq<Op>, op: Op, d: Disk)
    requires p.lbs > 0 && LegalImage(p, base, ops, d.committed) && LegalEntries(p, base, ops, d.cache)
    ensures LegalImage(p, base, ops + [op], d.committed) && LegalEntries(p, base, ops + [op], d.cache)
  {
    var more := ops + [op];
    assert forall i :: 0 <= i < |ops| ==> more[i] == ops[i];
    forall k: nat | k * p.lbs + p.lbs <= |base| ensures Legal(p, base, more, k, BlockAt(d.committed, p.lbs, k)) {
      assert Legal(p, base, ops, k, BlockAt(d.committed, p.lbs, k));
    }
    forall j | 0 <= j < |d.cache| ensures LegalEntry(p, base, more, d.cache[j]) {
      assert LegalEntry(p, base, ops, d.cache[j]);
    }
  }

  lemma PayloadLegal(p: Params, base: seq<byte>, ops: seq<Op>, op: Op)
    requires p.lbs > 0 && (op.FailedWrite? ==> op.kept * p.lbs <= |op.data|) && AlignedOp(op, p.lbs)
    requires AllFit(Payload(op, p.lbs), |base|)
    ensures LegalEntries(p, base, ops + [op], Payload(op, p.lbs))
  {
    var es := Payload(op, p.lbs);
    if es != [] {
      if op.FailedWrite? {
        Ranges.MultipleMod(op.kept, p.lbs);
      }
      forall k: nat | HasBlock(es[0], p.lbs, k)
        ensures exists i :: 0 <= i < |ops + [op]| && Gives(p, (ops + [op])[i], k, BlockIn(es[0], p.lbs, k))
      {
        PayloadGives(p, op, k);
        assert Gives(p, (ops + [op])[|ops|], k, BlockIn(es[0], p.lbs, k));
      }
    }
  }

  ghost predicate AllAligned(ops: seq<Op>, lbs: nat)
    requires lbs > 0
  {
    forall i :: 0 <= i < |ops| ==> AlignedOp(ops[i], lbs)
  }

  lemma {:induction false} RunLegal(p: Params, d: Disk, ops: seq<Op>)
    requires p.lbs > 0 && Valid(d) && ValidRun(p, d, ops) && d.cache == [] && AllAligned(ops, p.lbs)
    ensures LegalImage(p, d.committed, ops, Run(p, d, ops).committed)
    ensures LegalEntries(p, d.committed, ops, Run(p, d, ops).cache)
    decreases |ops|
  {
    if ops != [] {
      var n := |ops| - 1;
      var op, mid, base := ops[n], Run(p, d, ops[..n]), d.committed;
      RunLegal(p, d, ops[..n]);
      MoreOpsLegal(p, base, ops[..n], op, mid);
      assert ops[..n] + [op] == ops;
      match op {
        case HonestFlush => PutAllLegal(p, base, ops, mid.committed, mid.cache);
        case LyingFlush =>
        case Crash(keep) => SurvivingLegal(p, base, ops, mid.committed, mid.cache, keep);
        case _ =>
          var es := Payload(op, p.lbs);
          PayloadLegal(p, base, ops[..n], op);
          if es != [] {
            assert LegalEntries(p, base, ops, mid.cache + [es[0]]);
            DrainLegal(p, base, ops, Disk(mid.committed, mid.cache + [es[0]]));
          }
      }
    }
  }

  /**
   Durability: from an honest flush on, through any later writes, failed writes, discards, flushes,
   writebacks and power losses, every logical block a reader sees holds entirely what it held at the
   flush or entirely what one later op gave it.
   */
  lemma FlushIsDurable(p: Params, d: Disk, ops: seq<Op>, k: nat)
    requires p.lbs > 0 && Valid(d) && ValidRun(p, Flush(d), ops) && AllAligned(ops, p.lbs)
    requires k * p.lbs + p.lbs <= |d.committed|
    ensures var now := BlockAt(View(Run(p, Flush(d), ops)), p.lbs, k);
      || now == BlockAt(View(d), p.lbs, k)
      || exists i :: 0 <= i < |ops| && Gives(p, ops[i], k, now)
  {
    var r := Run(p, Flush(d), ops);
    RunLegal(p, Flush(d), ops);
    PutAllLegal(p, View(d), ops, r.committed, r.cache);
    assert Legal(p, View(d), ops, k, BlockAt(View(r), p.lbs, k));
  }
}
