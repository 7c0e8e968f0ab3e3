/**
 The fault-injecting disk as the program writes it: an object whose fields every operation updates.
 Each method is proved to take one step of the value-level disk; which step it is follows from the
 draws, and these from the seed.
 */
module DiskModel {
  import opened Bytes
  import opened Geometry
  import opened CachedDisk
  import opened SplitMix
  import D = Durability

  datatype Policy = Policy(errorPm: nat, flushLiePm: nat)

  datatype Stats = Stats(readOps: nat, writes: nat, flushes: nat, discards: nat, errorsInjected: nat,
                         flushLies: nat, crashes: nat, autonomousWritebacks: nat)

  datatype CrashMode = Drop | Seeded

  datatype CrashReport = CrashReport(committed: nat, dropped: nat, torn: nat)

  /** What power loss does to one cached entry. */
  datatype Fate = Survives | Vanishes | Tears

  function Tally(fates: seq<Fate>, fate: Fate): nat {
    if fates == [] then 0 else Tally(fates[..|fates| - 1], fate) + if fates[|fates| - 1] == fate then 1 else 0
  }

  /** The report counts the entries of each fate. */
  predicate Reports(report: CrashReport, fates: seq<Fate>) {
    report == CrashReport(Tally(fates, Survives), Tally(fates, Vanishes), Tally(fates, Tears))
  }

  lemma OneMore(fates: seq<Fate>)
    ensures forall f, g :: Tally(fates + [f], g) == Tally(fates, g) + if f == g then 1 else 0
  {
    forall f ensures (fates + [f])[..|fates|] == fates {}
  }

  /** The choice of blocks is one that the fate allows. */
  predicate Fated(fate: Fate, keep: seq<bool>) {
    && (fate.Survives? ==> keep == Constant(true, |keep|))
    && (fate.Vanishes? ==> keep == Constant(false, |keep|))
  }

  /**
   The draws made for one entry from state `s` on, leaving the generator in `s'`: of a hundred, forty let it
   survive and thirty make it vanish; for a torn one each block is kept at its own draw of 0 out of 2.
   */
  ghost predicate Drawn(s: bv64, mode: CrashMode, fate: Fate, keep: seq<bool>, s': bv64) {
    if mode == Drop then fate == Vanishes && s' == s
    else
      && (fate == Survives <==> Draw(s, 100) <= 39)
      && (fate == Vanishes <==> 40 <= Draw(s, 100) <= 69)
      && if fate == Tears then KeptByDraw(Advance(s), keep, s') else s' == Advance(s)
  }

  /** One draw out of 2 for each block, from state `s` to state `s'`: a 0 keeps it. */
  ghost predicate KeptByDraw(s: bv64, keep: seq<bool>, s': bv64) {
    && s' == After(s, |keep|)
    && forall i :: 0 <= i < |keep| ==> keep[i] == (Draw(After(s, i), 2) == 0)
  }

  lemma NothingKept(s: bv64)
    ensures KeptByDraw(s, [], s)
  {}

  lemma KeptByDrawSnoc(s: bv64, keep: seq<bool>, s': bv64)
    requires KeptByDraw(s, keep, s')
    ensures KeptByDraw(s, keep + [Draw(s', 2) == 0], Advance(s'))
  {
    hide Draw, Advance;
  }

  /** The whole logical blocks in a request. */
  function WholeBlocks(len: nat, lbs: nat): (n: nat)
    requires lbs > 0
    ensures n * lbs <= len < (n + 1) * lbs
  {
    len / lbs
  }

  /** The generator goes through `seeds`, one entry after another. */
  ghost predicate AllDrawn(seeds: seq<bv64>, mode: CrashMode, fates: seq<Fate>, keep: seq<seq<bool>>) {
    && |seeds| == |fates| + 1 == |keep| + 1
    && forall i :: 0 <= i < |fates| ==> Drawn(seeds[i], mode, fates[i], keep[i], seeds[i + 1])
  }

  lemma AllDrawnSnoc(seeds: seq<bv64>, mode: CrashMode, fates: seq<Fate>, keep: seq<seq<bool>>, fate: Fate, k: seq<bool>,
                     s': bv64)
    requires AllDrawn(seeds, mode, fates, keep) && Drawn(seeds[|seeds| - 1], mode, fate, k, s')
    ensures AllDrawn(seeds + [s'], mode, fates + [fate], keep + [k])
  {
    hide Drawn;
  }

  lemma DrawnIsUnique(s: bv64, mode: CrashMode, fate: Fate, keep: seq<bool>, s': bv64, fate': Fate, keep': seq<bool>, s'': bv64)
    requires Drawn(s, mode, fate, keep, s') && Fated(fate, keep) && Drawn(s, mode, fate', keep', s'') && Fated(fate', keep')
    requires |keep| == |keep'|
    ensures fate == fate' && keep == keep' && s' == s''
  {
    hide Draw, Advance, After;
  }

  /** A power loss is reproducible: from the same seed the same entries meet the same fate, block by block. */
  lemma {:induction false} Reproducible(seeds: seq<bv64>, seeds': seq<bv64>, mode: CrashMode, fates: seq<Fate>,
                                        fates': seq<Fate>, keep: seq<seq<bool>>, keep': seq<seq<bool>>, n: nat)
    requires AllDrawn(seeds, mode, fates, keep) && AllDrawn(seeds', mode, fates', keep') && |fates| == |fates'|
    requires seeds[0] == seeds'[0] && n <= |fates|
    requires forall i :: 0 <= i < |fates| ==>
      Fated(fates[i], keep[i]) && Fated(fates'[i], keep'[i]) && |keep[i]| == |keep'[i]|
    ensures fates[..n] == fates'[..n] && keep[..n] == keep'[..n] && seeds[n] == seeds'[n]
    decreases n
  {
    hide Drawn, Fated;
    if n > 0 {
      Reproducible(seeds, seeds', mode, fates, fates', keep, keep', n - 1);
      DrawnIsUnique(seeds[n - 1], mode, fates[n - 1], keep[n - 1], seeds[n], fates'[n - 1], keep'[n - 1], seeds'[n]);
      assert fates[..n] == fates[..n - 1] + [fates[n - 1]] && keep[..n] == keep[..n - 1] + [keep[n - 1]];
    }
  }

  lemma {:induction false} TallySum(fates: seq<Fate>)
    ensures Tally(fates, Survives) + Tally(fates, Vanishes) + Tally(fates, Tears) == |fates|
    decreases |fates|
  {
    if fates != [] {
      TallySum(fates[..|fates| - 1]);
    }
  }

  const EIO: int := 5

  /** `usize as i32`: the 32-bit two's complement integer that is congruent to `n`. */
  function AsI32(n: nat): (r: int)
    ensures -0x8000_0000 <= r < 0x8000_0000 && (n - r) % 0x1_0000_0000 == 0
  {
    var m := n % U32_SPAN;
    if m < 0x8000_0000 then m else m - U32_SPAN
  }

  lemma AsI32OfSmall(n: nat)
    ensures n < 0x8000_0000 ==> AsI32(n) == n
  {}

  /** Where the window at `woff` and the data at `doff` meet, the window takes the data; elsewhere it stays. */
  method Overlay(out: array<byte>, woff: nat, doff: nat, data: seq<byte>)
    modifies out
    ensures forall k :: 0 <= k < out.Length ==>
      out[k] == if doff <= woff + k < doff + |data| then data[woff + k - doff] else old(out[k])
  {
    var wend, dend := woff + out.Length, doff + |data|;
    var start, end := Max(woff, doff), Min(wend, dend);
    if start >= end {
      return;
    }
    var at, part := start - woff, data[start - doff..end - doff];
    CopyInto(out, at, part);
    forall k | 0 <= k < out.Length
      ensures out[k] == if doff <= woff + k < doff + |data| then data[woff + k - doff] else old(out[k])
    {
      assert at <= k < at + |part| <==> doff <= woff + k < doff + |data|;
      assert at <= k < at + |part| ==> part[k - at] == data[woff + k - doff];
    }
  }

  /** `copy_from_slice` into part of a buffer. */
  method CopyInto(out: array<byte>, off: nat, data: seq<byte>)
    requires off + |data| <= out.Length
    modifies out
    ensures out[..] == Put(old(out[..]), Entry(off, data))
    ensures forall k :: 0 <= k < out.Length ==> out[k] == if off <= k < off + |data| then data[k - off] else old(out[k])
  {
    var i := 0;
    while i < |data|
      invariant 0 <= i <= |data|
      invariant forall k :: 0 <= k < out.Length ==>
        out[k] == if off <= k < off + i then data[k - off] else old(out[k])
    {
      out[off + i] := data[i];
      i := i + 1;
    }
  }

  /** Entries copied into an image, oldest first. */
  method ApplyAll(img: array<byte>, es: seq<Entry>)
    requires AllFit(es, img.Length)
    modifies img
    ensures img[..] == PutAll(old(img[..]), es)
  {
    hide Put;
    ghost var was := img[..];
    var i := 0;
    assert es[..0] == [];
    while i < |es|
      invariant 0 <= i <= |es| && AllFit(es[..i], img.Length)
      invariant img[..] == PutAll(was, es[..i])
    {
      PutAllConcat(was, es[..i], [es[i]]);
      assert es[..i] + [es[i]] == es[..i + 1];
      PutAllOne(img[..], es[i]);
      CopyInto(img, es[i].off, es[i].data);
      i := i + 1;
    }
    assert es[..i] == es;
  }

  /** Overlaying one entry keeps a window a window of the image with that entry stored. */
  method OverlayEntry(out: array<byte>, woff: nat, e: Entry, ghost img: seq<byte>)
    requires Fits(e, |img|) && woff + out.Length <= |img| && out[..] == img[woff..woff + out.Length]
    modifies out
    ensures out[..] == Put(img, e)[woff..woff + out.Length]
  {
    ghost var before := out[..];
    Overlay(out, woff, e.off, e.data);
    OverlayIsPut(img, e, woff, before, out[..]);
  }

  class Model {
    const lbs: nat
    const cacheCap: nat
    const committed: array<byte>
    var cache: seq<Entry>
    var volatileBytes: nat
    const rng: Rng
    var policy: Policy
    var stats: Stats

    /** The disk this object represents. */
    ghost function Abs(): Disk
      reads this, committed
    {
      Disk(committed[..], cache)
    }

    ghost function Params(): D.Params { D.Params(lbs, cacheCap) }

    /** Between operations the cache fits the disk, is within its capacity and is counted right. */
    ghost predicate Valid()
      reads this, committed
    {
      && lbs > 0
      && CachedDisk.Valid(Abs())
      && volatileBytes == CacheBytes(cache)
      && volatileBytes <= cacheCap
    }

    constructor (size: nat, lbs: nat, cacheCap: nat, seed: bv64, policy: Policy)
      requires lbs > 0
      ensures Valid() && fresh(committed) && fresh(rng)
      ensures this.lbs == lbs && this.cacheCap == cacheCap
      ensures Abs() == Disk(D.Zeros(size), [])
    {
      this.lbs := lbs;
      this.cacheCap := cacheCap;
      committed := new byte[size](i => 0);
      cache := [];
      volatileBytes := 0;
      rng := new Rng(seed);
      this.policy := policy;
      stats := Stats(0, 0, 0, 0, 0, 0, 0, 0);
    }

    /** Every read sees the flat disk: the committed image overlaid with the whole cache. */
    method Read(off: nat, out: array<byte>)
      requires Valid() && off + out.Length <= committed.Length && out != committed
      modifies this`stats, out
      ensures Valid() && Abs() == old(Abs())
      ensures out[..] == View(Abs())[off..off + out.Length]
      ensures stats == old(stats).(readOps := old(stats.readOps) + 1)
    {
      stats := stats.(readOps := stats.readOps + 1);
      var base := committed[..];
      CopyInto(out, 0, committed[off..off + out.Length]);
      var i := 0;
      ghost var img := base;
      assert cache[..0] == [];
      while i < |cache|
        invariant 0 <= i <= |cache| && committed[..] == base && Valid() && Abs() == old(Abs())
        invariant AllFit(cache[..i], |base|) && img == PutAll(base, cache[..i])
        invariant out[..] == img[off..off + out.Length]
        invariant stats == old(stats).(readOps := old(stats.readOps) + 1)
      {
        OverlayEntry(out, off, cache[i], img);
        PutAllConcat(base, cache[..i], [cache[i]]);
        assert cache[..i] + [cache[i]] == cache[..i + 1];
        img := Put(img, cache[i]);
        i := i + 1;
      }
      assert cache[..i] == cache;
    }

    /** The entry joins the cache, and the oldest ones leave it until it is within its capacity. */
    method PushVolatile(off: nat, data: seq<byte>)
      requires Valid() && off + |data| <= committed.Length
      modifies this`cache, this`volatileBytes, this`stats, committed
      ensures Valid() && |cache| <= |old(cache)| + 1
      ensures Abs() == Push(old(Abs()), Entry(off, data), cacheCap)
      ensures WrittenBackToFit(Disk(old(committed[..]), old(cache) + [Entry(off, data)]), Abs(), cacheCap)
      ensures CacheBytes(old(cache)) + |data| <= cacheCap ==>
        cache == old(cache) + [Entry(off, data)] && committed[..] == old(committed[..])
      ensures stats == old(stats).(autonomousWritebacks :=
                         old(stats.autonomousWritebacks) + |old(cache)| + 1 - |cache|)
    {
      ghost var before := Abs();
      volatileBytes := volatileBytes + |data|;
      cache := cache + [Entry(off, data)];
      CacheBytesSnoc(before.cache, Entry(off, data));
      ghost var full := Abs();
      while volatileBytes > cacheCap
        invariant CachedDisk.Valid(full) && CachedDisk.Valid(Abs())
        invariant full == Disk(before.committed, before.cache + [Entry(off, data)])
        invariant volatileBytes == CacheBytes(cache)
        invariant Drain(Abs(), cacheCap) == Drain(full, cacheCap)
        invariant |cache| <= |full.cache|
        invariant stats == old(stats).(autonomousWritebacks :=
                             old(stats.autonomousWritebacks) + |full.cache| - |cache|)
        decreases |cache|
      {
        assert cache != [];
        var e := cache[0];
        cache := cache[1..];
        volatileBytes := volatileBytes - |e.data|;
        CopyInto(committed, e.off, e.data);
        stats := stats.(autonomousWritebacks := stats.autonomousWritebacks + 1);
      }
      DrainToFit(full, cacheCap);
    }

    /** A failed write may still reach the cache, with some number of whole blocks. */
    method KeepPrefix(off: nat, data: seq<byte>) returns (ghost kept: nat)
      requires Valid() && off + |data| <= committed.Length
      modifies this`cache, this`volatileBytes, this`stats, committed, rng
      ensures Valid() && |cache| <= |old(cache)| + 1 && 0 <= kept * lbs <= |data|
      ensures Abs() == D.Step(Params(), old(Abs()), D.FailedWrite(off, data, kept))
      ensures Replaced(View(Abs()), old(View(Abs())), off, data[..kept * lbs])
      ensures stats == old(stats).(autonomousWritebacks :=
                         old(stats.autonomousWritebacks) + |old(cache)| - |cache| + (if kept * lbs > 0 then 1 else 0))
      ensures kept == Draw(old(rng.state), WholeBlocks(|data|, lbs) + 1)
    {
      hide Draw, Advance;
      hide View, Push, WrittenBackToFit, CacheBytes;
      ghost var before := Abs();
      hide WholeBlocks;
      var blocks := WholeBlocks(|data|, lbs);
      var keptBlocks := rng.Below(blocks + 1);
      kept := keptBlocks;
      MulMonotone(keptBlocks, blocks, lbs);
      MulMonotone(0, keptBlocks, lbs);
      var keep: nat := keptBlocks * lbs;
      if keep > 0 {
        PushVolatile(off, data[..keep]);
        PushReplaces(before, Entry(off, data[..keep]), cacheCap);
      }
    }

    /**
     A write that answers its length is seen whole; one that fails leaves a prefix of whole blocks, which
     may be none of it. At a thousand per mill every write fails.
     */
    method Write(off: nat, data: seq<byte>) returns (res: int, ghost op: D.Op)
      requires Valid() && off + |data| <= committed.Length
      modifies this`cache, this`volatileBytes, this`stats, committed, rng
      ensures Valid()
      ensures D.Enabled(Params(), old(Abs()), op) && Abs() == D.Step(Params(), old(Abs()), op)
      ensures
        || (op == D.Write(off, data) && res == AsI32(|data|))
        || (op.FailedWrite? && op.off == off && op.data == data && res == -5 && policy.errorPm > 0)
      ensures (op.Write? && |data| < 0x8000_0000 ==> res == |data|) && (policy.errorPm >= 1000 ==> op.FailedWrite?)
      ensures op.FailedWrite? <==> policy.errorPm > 0 && Draw(old(rng.state), 1000) < policy.errorPm
      ensures op.FailedWrite? ==> op.kept == Draw(Advance(old(rng.state)), WholeBlocks(|data|, lbs) + 1)
      ensures op.Write? ==> Replaced(View(Abs()), old(View(Abs())), off, data)
      ensures op.FailedWrite? ==>
        0 <= op.kept * lbs <= |data| && Replaced(View(Abs()), old(View(Abs())), off, data[..op.kept * lbs])
      ensures |cache| <= |old(cache)| + 1
      ensures stats == old(stats).(
                         writes := old(stats.writes) + 1,
                         errorsInjected := old(stats.errorsInjected) + (if op.FailedWrite? then 1 else 0),
                         autonomousWritebacks :=
                           old(stats.autonomousWritebacks) + |old(cache)| - |cache|
                           + (if op.Write? || op.kept * lbs > 0 then 1 else 0))
    {
      hide Draw, Advance, WholeBlocks;
      hide View, Push, WrittenBackToFit, CacheBytes, AsI32, Replaced;
      AsI32OfSmall(|data|);
      ghost var before := Abs();
      stats := stats.(writes := stats.writes + 1);
      var error := rng.Hit(policy.errorPm);
      if error {
        stats := stats.(errorsInjected := stats.errorsInjected + 1);
        ghost var kept := KeepPrefix(off, data);
        op := D.FailedWrite(off, data, kept);
        res := -EIO;
        return;
      }
      op := D.Write(off, data);
      PushVolatile(off, data);
      PushReplaces(before, Entry(off, data), cacheCap);
      res := AsI32(|data|);
    }

    /** A discarded range reads as zeros. */
    method Discard(off: nat, len: nat)
      requires Valid() && off + len <= committed.Length
      modifies this`cache, this`volatileBytes, this`stats, committed
      ensures Valid()
      ensures Abs() == D.Step(Params(), old(Abs()), D.Discard(off, len))
      ensures Replaced(View(Abs()), old(View(Abs())), off, D.Zeros(len))
      ensures |cache| <= |old(cache)| + 1
      ensures stats == old(stats).(
                         discards := old(stats.discards) + 1,
                         autonomousWritebacks := old(stats.autonomousWritebacks) + |old(cache)| + 1 - |cache|)
    {
      hide View, Push, WrittenBackToFit, CacheBytes;
      ghost var before := Abs();
      stats := stats.(discards := stats.discards + 1);
      PushVolatile(off, D.Zeros(len));
      PushReplaces(before, Entry(off, D.Zeros(len)), cacheCap);
    }

    /** Everything cached is committed, or it is a lie; at a thousand per mill every flush is. */
    method Flush() returns (ghost op: D.Op)
      requires Valid()
      modifies this`cache, this`volatileBytes, this`stats, committed, rng
      ensures Valid()
      ensures D.Enabled(Params(), old(Abs()), op) && Abs() == D.Step(Params(), old(Abs()), op)
      ensures op == D.HonestFlush || (op == D.LyingFlush && policy.flushLiePm > 0)
      ensures policy.flushLiePm >= 1000 ==> op == D.LyingFlush
      ensures op == D.LyingFlush <==> policy.flushLiePm > 0 && Draw(old(rng.state), 1000) < policy.flushLiePm
      ensures op == D.HonestFlush ==> cache == [] && committed[..] == old(View(Abs()))
      ensures op == D.LyingFlush ==> Abs() == old(Abs())
      ensures stats == old(stats).(flushes := old(stats.flushes) + 1,
                                   flushLies := old(stats.flushLies) + (if op.LyingFlush? then 1 else 0))
    {
      hide Draw, Advance;
      stats := stats.(flushes := stats.flushes + 1);
      var lie := rng.Hit(policy.flushLiePm);
      if lie {
        stats := stats.(flushLies := stats.flushLies + 1);
        op := D.LyingFlush;
        return;
      }
      hide WrittenBackToFit, CacheBytes;
      op := D.HonestFlush;
      CacheBytesNone();
      var entries := cache;
      cache := [];
      volatileBytes := 0;
      ApplyAll(committed, entries);
    }

    /** One cached entry at the moment of power loss: the draws decide which of its blocks survive. */
    method CrashEntry(e: Entry, mode: CrashMode, report: CrashReport, ghost fates: seq<Fate>)
      returns (report': CrashReport, ghost fate: Fate, ghost keep: seq<bool>)
      requires lbs > 0 && Fits(e, committed.Length) && Reports(report, fates)
      modifies committed, rng
      ensures |keep| == Blocks(|e.data|, lbs) && Fated(fate, keep)
      ensures committed[..] == PutBlocks(old(committed[..]), e, lbs, keep, |keep|)
      ensures Reports(report', fates + [fate]) && (mode == Drop ==> fate == Vanishes)
      ensures Drawn(old(rng.state), mode, fate, keep, rng.state)
    {
      hide Draw, Advance;
      hide PutBlocks, Tally, Blocks;
      ghost var n := Blocks(|e.data|, lbs);
      ghost var img := committed[..];
      PutBlocksUniform(img, e, lbs, true);
      PutBlocksUniform(img, e, lbs, false);
      OneMore(fates);
      keep := Constant(false, n);
      if mode == Drop {
        return report.(dropped := report.dropped + 1), Vanishes, keep;
      }
      var roll := rng.Below(100);
      if roll <= 39 {
        CopyInto(committed, e.off, e.data);
        return report.(committed := report.committed + 1), Survives, Constant(true, n);
      } else if roll <= 69 {
        return report.(dropped := report.dropped + 1), Vanishes, keep;
      }
      keep := TearEntry(e);
      return report.(torn := report.torn + 1), Tears, keep;
    }

    /** Torn: each logical block of the entry persists or not by its own draw. */
    method TearEntry(e: Entry) returns (ghost keep: seq<bool>)
      requires lbs > 0 && Fits(e, committed.Length)
      modifies committed, rng
      ensures |keep| == Blocks(|e.data|, lbs)
      ensures committed[..] == PutBlocks(old(committed[..]), e, lbs, keep, |keep|)
      ensures KeptByDraw(old(rng.state), keep, rng.state)
    {
      hide Draw, Advance, KeptByDraw;
      NothingKept(rng.state);
      ghost var n := Blocks(|e.data|, lbs);
      ghost var img := committed[..];
      keep := [];
      var i := 0;
      while i * lbs < |e.data|
        invariant i <= n && |keep| == i
        invariant committed[..] == PutBlocks(img, e, lbs, keep, i)
        invariant KeptByDraw(old(rng.state), keep, rng.state)
        decreases n - i
      {
        BlockCount(|e.data|, lbs, i);
        KeptByDrawSnoc(old(rng.state), keep, rng.state);
        var r := rng.Below(2);
        ghost var longer := keep + [r == 0];
        assert longer[..i] == keep[..i];
        PutBlocksPrefix(img, e, lbs, keep, longer, i);
        if r == 0 {
          var block := BlockOf(e, lbs, i);
          CopyInto(committed, block.off, block.data);
        }
        keep := longer;
        i := i + 1;
      }
      BlockCount(|e.data|, lbs, i);
    }

    /**
     Power loss. Whatever the draws, the image is the old committed one with some of the cached blocks
     applied in arrival order, the cache is gone, and the report counts every cached entry once: as
     committed only if all of its blocks survived, as dropped only if none did. What becomes of each entry
     is what is drawn for it, one after another from the state of the generator.
     */
    method Crash(mode: CrashMode)
      returns (report: CrashReport, ghost fates: seq<Fate>, ghost keep: seq<seq<bool>>, ghost seeds: seq<bv64>)
      requires Valid()
      modifies this`cache, this`volatileBytes, this`stats, committed, rng
      ensures Valid()
      ensures D.Enabled(Params(), old(Abs()), D.Crash(keep))
      ensures Abs() == D.Step(Params(), old(Abs()), D.Crash(keep)) && cache == []
      ensures forall b: nat :: b < committed.Length ==>
        committed[b] == Survivor(old(committed[..]), old(cache), lbs, keep, b)
      ensures |fates| == |old(cache)| && Reports(report, fates)
      ensures forall i :: 0 <= i < |fates| ==> Fated(fates[i], keep[i])
      ensures AllDrawn(seeds, mode, fates, keep) && seeds[0] == old(rng.state) && seeds[|fates|] == rng.state
      ensures report.committed + report.dropped + report.torn == |old(cache)|
      ensures mode == Drop ==> report.dropped == |old(cache)| && committed[..] == old(committed[..])
      ensures stats == old(stats).(crashes := old(stats.crashes) + 1)
    {
      hide SurvivingImage, PutBlocks, Crashed, Reports, Drawn;
      stats := stats.(crashes := stats.crashes + 1);
      report, keep, fates, seeds := CrashReport(0, 0, 0), [], [], [rng.state];
      var entries := cache;
      ghost var base := committed[..];
      cache := [];
      volatileBytes := 0;
      var i := 0;
      NothingCrashed(base, lbs);
      assert entries[..0] == [];
      while i < |entries|
        invariant 0 <= i <= |entries| && cache == [] && volatileBytes == 0 && committed.Length == |base|
        invariant AllFit(entries, |base|) && AllFit(entries[..i], |base|)
        invariant Crashed(base, entries[..i], lbs, mode, keep, fates, committed[..]) && Reports(report, fates)
        invariant stats == old(stats).(crashes := old(stats.crashes) + 1)
        invariant AllDrawn(seeds, mode, fates, keep) && |fates| == i
        invariant seeds[0] == old(rng.state) && seeds[i] == rng.state
      {
        ghost var fate, k;
        ghost var img := committed[..];
        report, fate, k := CrashEntry(entries[i], mode, report, fates);
        CrashedSnoc(base, entries[..i], lbs, mode, keep, fates, img, entries[i], fate, k);
        assert entries[..i] + [entries[i]] == entries[..i + 1];
        AllDrawnSnoc(seeds, mode, fates, keep, fate, k, rng.state);
        keep, fates, seeds := keep + [k], fates + [fate], seeds + [rng.state];
        i := i + 1;
      }
      assert entries[..i] == entries;
      CrashedAll(base, entries, lbs, mode, keep, fates, committed[..], report);
      forall b: nat | b < committed.Length ensures committed[b] == Survivor(base, entries, lbs, keep, b) {
        PowerLossExact(base, entries, lbs, keep, b);
      }
    }
  }

  /** Power loss has been through `es`: the choices made, what became of the entries, and the image now. */
  ghost predicate Crashed(base: seq<byte>, es: seq<Entry>, lbs: nat, mode: CrashMode, keep: seq<seq<bool>>, fates: seq<Fate>,
                          img: seq<byte>)
    requires lbs > 0 && AllFit(es, |base|)
  {
    && Choices(es, lbs, keep) && img == SurvivingImage(base, es, lbs, keep) && |fates| == |es|
    && forall i :: 0 <= i < |fates| ==> Fated(fates[i], keep[i]) && (mode == Drop ==> fates[i] == Vanishes)
  }

  lemma NothingCrashed(base: seq<byte>, lbs: nat)
    requires lbs > 0
    ensures forall mode :: Crashed(base, [], lbs, mode, [], [], base) && Reports(CrashReport(0, 0, 0), [])
  {}

  lemma {:induction false} CrashedSnoc(base: seq<byte>, es: seq<Entry>, lbs: nat, mode: CrashMode, keep: seq<seq<bool>>, fates: seq<Fate>,
                    img: seq<byte>, e: Entry, fate: Fate, k: seq<bool>)
    requires lbs > 0 && AllFit(es, |base|) && Crashed(base, es, lbs, mode, keep, fates, img) && Fits(e, |base|)
    requires |k| == Blocks(|e.data|, lbs) && Fated(fate, k) && (mode == Drop ==> fate == Vanishes)
    ensures AllFit(es + [e], |base|) && |img| == |base|
    ensures Crashed(base, es + [e], lbs, mode, keep + [k], fates + [fate], PutBlocks(img, e, lbs, k, |k|))
  {
    SurvivingImageSnoc(base, es, lbs, keep, e, k);
  }

  lemma CrashedAll(base: seq<byte>, es: seq<Entry>, lbs: nat, mode: CrashMode, keep: seq<seq<bool>>, fates: seq<Fate>,
                   img: seq<byte>, report: CrashReport)
    requires lbs > 0 && AllFit(es, |base|) && Crashed(base, es, lbs, mode, keep, fates, img) && Reports(report, fates)
    ensures Choices(es, lbs, keep) && img == SurvivingImage(base, es, lbs, keep) && |fates| == |es|
    ensures forall i :: 0 <= i < |fates| ==> Fated(fates[i], keep[i])
    ensures report.committed + report.dropped + report.torn == |es|
    ensures mode == Drop ==> report.dropped == |es| && img == base
  {
    TallySum(fates);
    if mode == Drop {
      NothingSurvives(base, es, lbs, keep, fates);
    }
  }

  /** When every entry vanishes the image stays what it was. */
  lemma {:induction false} NothingSurvives(img: seq<byte>, es: seq<Entry>, lbs: nat, keep: seq<seq<bool>>, fates: seq<Fate>)
    requires lbs > 0 && AllFit(es, |img|) && Choices(es, lbs, keep) && |fates| == |es|
    requires forall i :: 0 <= i < |fates| ==> fates[i] == Vanishes && Fated(fates[i], keep[i])
    ensures SurvivingImage(img, es, lbs, keep) == img && Tally(fates, Vanishes) == |fates|
    decreases |es|
  {
    if es != [] {
      PutBlocksUniform(img, es[0], lbs, false);
      NothingSurvives(img, es[1..], lbs, keep[1..], fates[1..]);
      AllVanish(fates);
    }
  }

  lemma {:induction false} AllVanish(fates: seq<Fate>)
    requires forall i :: 0 <= i < |fates| ==> fates[i] == Vanishes
    ensures Tally(fates, Vanishes) == |fates|
    decreases |fates|
  {
    if fates != [] {
      AllVanish(fates[..|fates| - 1]);
    }
  }

  /** Overlaying a window of an image shows that window of the image with the entry stored. */
  lemma OverlayIsPut(img: seq<byte>, e: Entry, woff: nat, before: seq<byte>, after: seq<byte>)
    requires Fits(e, |img|) && |before| == |after| && woff + |before| <= |img|
    requires before == img[woff..woff + |before|]
    requires forall k :: 0 <= k < |after| ==>
      after[k] == if e.off <= woff + k < e.off + |e.data| then e.data[woff + k - e.off] else before[k]
    ensures after == Put(img, e)[woff..woff + |after|]
  {
    forall k | 0 <= k < |after| ensures after[k] == Put(img, e)[woff..woff + |after|][k] {
      assert before[k] == img[woff + k];
    }
  }

  lemma CacheBytesNone()
    ensures CacheBytes([]) == 0
  {}

  lemma {:induction false} CacheBytesSnoc(es: seq<Entry>, e: Entry)
    ensures CacheBytes(es + [e]) == CacheBytes(es) + |e.data|
    decreases |es|
  {
    if es != [] {
      assert (es + [e])[1..] == es[1..] + [e];
      CacheBytesSnoc(es[1..], e);
    } else {
      assert ([] + [e])[1..] == [];
    }
  }

  /** `chunks(lbs)` has an `i`-th chunk exactly when one starts inside the data. */
  lemma BlockCount(len: nat, lbs: nat, i: nat)
    requires lbs > 0
    ensures i * lbs < len <==> i < Blocks(len, lbs)
  {
    if i < Blocks(len, lbs) {
      ChunkStartsInside(len, lbs, i);
    } else if i * lbs < len {
      MulMonotone(0, i, lbs);
      ChunkOfByte(len, lbs, i * lbs);
      ChunkEdges(i * lbs, i, lbs);
    }
  }
}
