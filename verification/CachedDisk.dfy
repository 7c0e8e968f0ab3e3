/**
 A disk with a volatile write cache, as values: a committed image and the cached writes in arrival
 order. What a reader sees is the committed image overlaid with the cache; power loss keeps some of
 the cached blocks and drops the rest.
 */
module CachedDisk {
  import opened Bytes
  import opened Geometry

  datatype Entry = Entry(off: nat, data: seq<byte>)

  datatype Disk = Disk(committed: seq<byte>, cache: seq<Entry>)

  predicate Covers(e: Entry, b: nat) { e.off <= b < e.off + |e.data| }

  predicate Fits(e: Entry, size: nat) { e.off + |e.data| <= size }

  predicate AllFit(es: seq<Entry>, size: nat) {
    forall i :: 0 <= i < |es| ==> Fits(es[i], size)
  }

  predicate Valid(d: Disk) { AllFit(d.cache, |d.committed|) }

  /** The cache holds something for byte `b`. */
  predicate Cached(d: Disk, b: nat) {
    exists i :: 0 <= i < |d.cache| && Covers(d.cache[i], b)
  }

  /** Copy `e` into an image. */
  function Put(img: seq<byte>, e: Entry): (r: seq<byte>)
    requires Fits(e, |img|)
    ensures |r| == |img|
    ensures forall b :: 0 <= b < |img| ==> r[b] == if Covers(e, b) then e.data[b - e.off] else img[b]
  {
    img[..e.off] + e.data + img[e.off + |e.data|..]
  }

  /** Copy entries into an image, oldest first. */
  function PutAll(img: seq<byte>, es: seq<Entry>): (r: seq<byte>)
    requires AllFit(es, |img|)
    ensures |r| == |img|
    decreases |es|
  {
    if es == [] then img else PutAll(Put(img, es[0]), es[1..])
  }

  /** What a reader of the disk sees. */
  function View(d: Disk): (img: seq<byte>)
    requires Valid(d)
    ensures |img| == |d.committed|
  {
    PutAll(d.committed, d.cache)
  }

  function CacheBytes(es: seq<Entry>): nat {
    if es == [] then 0 else |es[0].data| + CacheBytes(es[1..])
  }

  // ---------------------------------------------------------------- operations

  /** The oldest cached write goes to the committed image. */
  function WriteBack(d: Disk): (r: Disk)
    requires Valid(d) && d.cache != []
    ensures Valid(r) && |r.committed| == |d.committed|
  {
    Disk(Put(d.committed, d.cache[0]), d.cache[1..])
  }

  /** Write back, oldest first, until the cache is within its capacity. */
  function Drain(d: Disk, cap: nat): (r: Disk)
    requires Valid(d)
    ensures Valid(r) && |r.committed| == |d.committed|
    ensures CacheBytes(r.cache) <= cap
    decreases |d.cache|
  {
    if CacheBytes(d.cache) > cap then Drain(WriteBack(d), cap) else d
  }

  function Push(d: Disk, e: Entry, cap: nat): (r: Disk)
    requires Valid(d) && Fits(e, |d.committed|)
    ensures Valid(r) && |r.committed| == |d.committed|
  {
    Drain(Disk(d.committed, d.cache + [e]), cap)
  }

  function Flush(d: Disk): (r: Disk)
    requires Valid(d)
    ensures Valid(r) && |r.committed| == |d.committed|
  {
    Disk(View(d), [])
  }

  /** `data.chunks(lbs)`: the number of logical blocks of an entry. */
  function Blocks(len: nat, lbs: nat): nat
    requires lbs > 0
  {
    Chunks(len, lbs)
  }

  function BlockOf(e: Entry, lbs: nat, i: nat): (r: Entry)
    requires lbs > 0 && i * lbs < |e.data|
    ensures forall b: nat :: Covers(r, b) ==> Covers(e, b) && r.data[b - r.off] == e.data[b - e.off]
  {
    MulMonotone(0, i, lbs);
    var hi := if i * lbs + lbs <= |e.data| then i * lbs + lbs else |e.data|;
    Entry(e.off + i * lbs, e.data[i * lbs..hi])
  }

  /** The blocks of `e` chosen by `keep`, among its first `k`, copied into an image one after another. */
  function PutBlocks(img: seq<byte>, e: Entry, lbs: nat, keep: seq<bool>, k: nat): (r: seq<byte>)
    requires lbs > 0 && Fits(e, |img|) && k <= |keep| <= Blocks(|e.data|, lbs)
    ensures |r| == |img|
    decreases k
  {
    if k == 0 then img
    else
      var r := PutBlocks(img, e, lbs, keep, k - 1);
      ChunkStartsInside(|e.data|, lbs, k - 1);
      if keep[k - 1] then Put(r, BlockOf(e, lbs, k - 1)) else r
  }

  /** One choice per logical block of every cached entry. */
  predicate Choices(es: seq<Entry>, lbs: nat, keep: seq<seq<bool>>)
    requires lbs > 0
  {
    |keep| == |es| && forall i :: 0 <= i < |es| ==> |keep[i]| == Blocks(|es[i].data|, lbs)
  }

  function SurvivingImage(img: seq<byte>, es: seq<Entry>, lbs: nat, keep: seq<seq<bool>>): (r: seq<byte>)
    requires lbs > 0 && AllFit(es, |img|) && Choices(es, lbs, keep)
    ensures |r| == |img|
    decreases |es|
  {
    if es == [] then img
    else SurvivingImage(PutBlocks(img, es[0], lbs, keep[0], |keep[0]|), es[1..], lbs, keep[1..])
  }

  /** Power loss: the chosen blocks survive, the cache is gone. */
  function PowerLoss(d: Disk, lbs: nat, keep: seq<seq<bool>>): (r: Disk)
    requires lbs > 0 && Valid(d) && Choices(d.cache, lbs, keep)
    ensures Valid(r) && |r.committed| == |d.committed|
  {
    Disk(SurvivingImage(d.committed, d.cache, lbs, keep), [])
  }

  // ---------------------------------------------------------------- the flat view

  lemma {:induction false} PutAllConcat(img: seq<byte>, es: seq<Entry>, fs: seq<Entry>)
    requires AllFit(es, |img|) && AllFit(fs, |img|)
    ensures AllFit(es + fs, |img|) && PutAll(img, es + fs) == PutAll(PutAll(img, es), fs)
    decreases |es|
  {
    if es == [] {
      assert es + fs == fs;
    } else {
      assert (es + fs)[1..] == es[1..] + fs;
      PutAllConcat(Put(img, es[0]), es[1..], fs);
    }
  }

  lemma PutAllOne(img: seq<byte>, e: Entry)
    requires Fits(e, |img|)
    ensures PutAll(img, [e]) == Put(img, e)
  {
    assert [e][1..] == [];
    assert PutAll(Put(img, e), []) == Put(img, e);
  }

  /** Autonomous writeback cannot be seen by a reader. */
  lemma {:induction false} ViewOfDrain(d: Disk, cap: nat)
    requires Valid(d)
    ensures View(Drain(d, cap)) == View(d)
    decreases |d.cache|
  {
    if CacheBytes(d.cache) > cap {
      ViewOfDrain(WriteBack(d), cap);
    }
  }

  /** A write is visible at once, whatever it pushed out of the cache. */
  lemma ViewOfPush(d: Disk, e: Entry, cap: nat)
    requires Valid(d) && Fits(e, |d.committed|)
    ensures View(Push(d, e, cap)) == Put(View(d), e)
  {
    ViewOfDrain(Disk(d.committed, d.cache + [e]), cap);
    PutAllConcat(d.committed, d.cache, [e]);
  }

  /** `now` is `was` with `data` in its place at `off`. */
  ghost predicate Replaced(now: seq<byte>, was: seq<byte>, off: nat, data: seq<byte>) {
    && |now| == |was|
    && forall b :: 0 <= b < |now| ==> now[b] == if off <= b < off + |data| then data[b - off] else was[b]
  }

  lemma PushReplaces(d: Disk, e: Entry, cap: nat)
    requires Valid(d) && Fits(e, |d.committed|)
    ensures Replaced(View(Push(d, e, cap)), View(d), e.off, e.data)
  {
    ViewOfPush(d, e, cap);
  }

  lemma {:induction false} PutAllUntouched(img: seq<byte>, es: seq<Entry>, b: nat)
    requires AllFit(es, |img|) && b < |img|
    requires forall i :: 0 <= i < |es| ==> !Covers(es[i], b)
    ensures PutAll(img, es)[b] == img[b]
    decreases |es|
  {
    if es != [] {
      PutAllUntouched(Put(img, es[0]), es[1..], b);
    }
  }

  /** `r` is `d` with its oldest entries written back, as many as it takes to fit `cap` and no more. */
  ghost predicate WrittenBackToFit(d: Disk, r: Disk, cap: nat)
    requires Valid(d)
  {
    && |r.cache| <= |d.cache|
    && var k := |d.cache| - |r.cache|;
       && r.cache == d.cache[k..] && r.committed == PutAll(d.committed, d.cache[..k])
       && CacheBytes(r.cache) <= cap && (k > 0 ==> CacheBytes(d.cache[k - 1..]) > cap)
  }

  lemma {:induction false} DrainToFit(d: Disk, cap: nat)
    requires Valid(d)
    ensures WrittenBackToFit(d, Drain(d, cap), cap)
    ensures CacheBytes(d.cache) <= cap ==> Drain(d, cap) == d
    decreases |d.cache|
  {
    if CacheBytes(d.cache) > cap {
      var w, r := WriteBack(d), Drain(d, cap);
      DrainToFit(w, cap);
      var k := |d.cache| - |r.cache|;
      assert w.cache[k - 1..] == d.cache[k..] && d.cache[..k][1..] == w.cache[..k - 1];
      assert k > 1 ==> w.cache[k - 2..] == d.cache[k - 1..];
      assert d.cache[0..] == d.cache;
    } else {
      assert d.cache[0..] == d.cache && d.cache[..0] == [];
    }
  }

  /** After a write only what was cached before and what was written can be cached. */
  lemma CachedAfterPush(d: Disk, e: Entry, cap: nat, b: nat)
    requires Valid(d) && Fits(e, |d.committed|)
    requires Cached(Push(d, e, cap), b)
    ensures Cached(d, b) || Covers(e, b)
  {
    var full := Disk(d.committed, d.cache + [e]);
    DrainToFit(full, cap);
    var c := Push(d, e, cap).cache;
    var i :| 0 <= i < |c| && Covers(c[i], b);
    var j := |full.cache| - |c| + i;
    assert full.cache[j] == c[i];
    assert j < |d.cache| ==> d.cache[j] == full.cache[j];
  }

  // ---------------------------------------------------------------- what power loss can do

  /** Block `(b - off) / lbs` of an entry is the one that holds byte `b`. */
  function BlockIndex(e: Entry, lbs: nat, b: nat): nat
    requires lbs > 0 && Covers(e, b)
  {
    (b - e.off) / lbs
  }

  lemma BlockIndexInside(e: Entry, lbs: nat, b: nat)
    requires lbs > 0 && Covers(e, b)
    ensures BlockIndex(e, lbs, b) < Blocks(|e.data|, lbs)
  {
    ChunkOfByte(|e.data|, lbs, b - e.off);
  }

  /** Entry `e`'s block around byte `b` was chosen to survive. */
  predicate Kept(e: Entry, lbs: nat, keep: seq<bool>, b: nat)
    requires lbs > 0 && |keep| == Blocks(|e.data|, lbs)
  {
    Covers(e, b) && (BlockIndexInside(e, lbs, b); keep[BlockIndex(e, lbs, b)])
  }

  lemma BlockCovers(e: Entry, lbs: nat, i: nat, b: nat)
    requires lbs > 0 && i * lbs < |e.data|
    ensures Covers(BlockOf(e, lbs, i), b) <==> Covers(e, b) && BlockIndex(e, lbs, b) == i
  {
    if Covers(e, b) {
      ChunkEdges(b - e.off, i, lbs);
    }
  }

  lemma {:induction false} PutBlocksAt(img: seq<byte>, e: Entry, lbs: nat, keep: seq<bool>, k: nat, b: nat)
    requires lbs > 0 && Fits(e, |img|) && |keep| == Blocks(|e.data|, lbs) && k <= |keep| && b < |img|
    ensures PutBlocks(img, e, lbs, keep, k)[b]
         == if Kept(e, lbs, keep, b) && BlockIndex(e, lbs, b) < k then e.data[b - e.off] else img[b]
    decreases k
  {
    if k > 0 {
      PutBlocksAt(img, e, lbs, keep, k - 1, b);
      ChunkStartsInside(|e.data|, lbs, k - 1);
      BlockCovers(e, lbs, k - 1, b);
    }
  }

  /** The byte that the newest surviving cached block gives, or the committed one when there is none. */
  function Survivor(img: seq<byte>, es: seq<Entry>, lbs: nat, keep: seq<seq<bool>>, b: nat): byte
    requires lbs > 0 && Choices(es, lbs, keep) && b < |img|
    decreases |es|
  {
    if es == [] then img[b]
    else
      var n := |es| - 1;
      if Kept(es[n], lbs, keep[n], b) then es[n].data[b - es[n].off]
      else Survivor(img, es[..n], lbs, keep[..n], b)
  }

  lemma {:induction false} SurvivorShift(img: seq<byte>, img': seq<byte>, es: seq<Entry>, lbs: nat,
                                         keep: seq<seq<bool>>, b: nat)
    requires lbs > 0 && es != [] && Choices(es, lbs, keep) && b < |img| == |img'|
    requires img'[b] == if Kept(es[0], lbs, keep[0], b) then es[0].data[b - es[0].off] else img[b]
    ensures Survivor(img', es[1..], lbs, keep[1..], b) == Survivor(img, es, lbs, keep, b)
    decreases |es|
  {
    var n := |es| - 1;
    if n > 0 {
      assert es[1..][..n - 1] == es[..n][1..] && keep[1..][..n - 1] == keep[..n][1..];
      SurvivorShift(img, img', es[..n], lbs, keep[..n], b);
    }
  }

  /** After power loss every byte is what the newest surviving block says. */
  lemma {:induction false} PowerLossExact(img: seq<byte>, es: seq<Entry>, lbs: nat, keep: seq<seq<bool>>, b: nat)
    requires lbs > 0 && AllFit(es, |img|) && Choices(es, lbs, keep) && b < |img|
    ensures SurvivingImage(img, es, lbs, keep)[b] == Survivor(img, es, lbs, keep, b)
    decreases |es|
  {
    if es != [] {
      var img' := PutBlocks(img, es[0], lbs, keep[0], |keep[0]|);
      PutBlocksAt(img, es[0], lbs, keep[0], |keep[0]|, b);
      if Covers(es[0], b) {
        BlockIndexInside(es[0], lbs, b);
      }
      PowerLossExact(img', es[1..], lbs, keep[1..], b);
      SurvivorShift(img, img', es, lbs, keep, b);
    }
  }

  lemma {:induction false} SurvivorUntouched(img: seq<byte>, es: seq<Entry>, lbs: nat, keep: seq<seq<bool>>, b: nat)
    requires lbs > 0 && Choices(es, lbs, keep) && b < |img|
    requires forall i :: 0 <= i < |es| ==> !Covers(es[i], b)
    ensures Survivor(img, es, lbs, keep, b) == img[b]
    decreases |es|
  {
    if es != [] {
      SurvivorUntouched(img, es[..|es| - 1], lbs, keep[..|es| - 1], b);
    }
  }

  /** Power loss changes what a reader sees only where the cache held something. */
  lemma PowerLossLocal(d: Disk, lbs: nat, keep: seq<seq<bool>>, b: nat)
    requires lbs > 0 && Valid(d) && Choices(d.cache, lbs, keep) && b < |d.committed|
    requires !Cached(d, b)
    ensures View(PowerLoss(d, lbs, keep))[b] == View(d)[b]
  {
    PutAllUntouched(d.committed, d.cache, b);
    PowerLossExact(d.committed, d.cache, lbs, keep, b);
    SurvivorUntouched(d.committed, d.cache, lbs, keep, b);
  }

  // ---------------------------------------------------------------- building a power loss step by step

  lemma {:induction false} PutBlocksPrefix(img: seq<byte>, e: Entry, lbs: nat, keep: seq<bool>, keep': seq<bool>, k: nat)
    requires lbs > 0 && Fits(e, |img|)
    requires k <= |keep| <= Blocks(|e.data|, lbs) && k <= |keep'| <= Blocks(|e.data|, lbs)
    requires keep[..k] == keep'[..k]
    ensures PutBlocks(img, e, lbs, keep, k) == PutBlocks(img, e, lbs, keep', k)
    decreases k
  {
    if k > 0 {
      assert keep[..k][k - 1] == keep'[..k][k - 1];
      assert keep[..k - 1] == keep[..k][..k - 1] && keep'[..k - 1] == keep'[..k][..k - 1];
      PutBlocksPrefix(img, e, lbs, keep, keep', k - 1);
    }
  }

  function Constant(value: bool, n: nat): (s: seq<bool>)
    ensures |s| == n && forall i :: 0 <= i < n ==> s[i] == value
  {
    seq(n, i => value)
  }

  /** Keeping every block is a plain write; keeping none is no write. */
  lemma PutBlocksUniform(img: seq<byte>, e: Entry, lbs: nat, value: bool)
    requires lbs > 0 && Fits(e, |img|)
    ensures var n := Blocks(|e.data|, lbs);
      PutBlocks(img, e, lbs, Constant(value, n), n) == if value then Put(img, e) else img
  {
    var n := Blocks(|e.data|, lbs);
    var r := PutBlocks(img, e, lbs, Constant(value, n), n);
    var w := if value then Put(img, e) else img;
    forall b: nat | b < |img| ensures r[b] == w[b] {
      PutBlocksAt(img, e, lbs, Constant(value, n), n, b);
      if Covers(e, b) {
        BlockIndexInside(e, lbs, b);
      }
    }
  }

  lemma {:induction false} SurvivingImageSnoc(img: seq<byte>, es: seq<Entry>, lbs: nat, keep: seq<seq<bool>>,
                                              e: Entry, k: seq<bool>)
    requires lbs > 0 && AllFit(es, |img|) && Choices(es, lbs, keep) && Fits(e, |img|)
    requires |k| == Blocks(|e.data|, lbs)
    ensures AllFit(es + [e], |img|) && Choices(es + [e], lbs, keep + [k])
    ensures SurvivingImage(img, es + [e], lbs, keep + [k])
         == PutBlocks(SurvivingImage(img, es, lbs, keep), e, lbs, k, |k|)
    decreases |es|
  {
    if es == [] {
      assert (es + [e])[1..] == [] && (keep + [k])[1..] == [];
      assert (es + [e])[0] == e && (keep + [k])[0] == k;
    } else {
      assert (es + [e])[1..] == es[1..] + [e] && (keep + [k])[1..] == keep[1..] + [k];
      SurvivingImageSnoc(PutBlocks(img, es[0], lbs, keep[0], |keep[0]|), es[1..], lbs, keep[1..], e, k);
    }
  }
}
