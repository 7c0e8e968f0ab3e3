/**
 The seeded chaos harness as an object: what the device must contain, the backup image that only dumps
 update, and the consumer's cursor. Its operations, with any arguments and with metadata saves that fail
 or not, keep the two invariants it checks after every backup. A kill needs the cursor to be vouched for
 by the metadata file, which it is exactly when its checkpoint was saved or the device has been attached
 since; what a kill does otherwise is in `Exact`.
 */
module Harness {
  import opened Bytes
  import opened Options
  import opened Geometry
  import opened Ranges
  import opened EraHistory
  import E = EraState
  import M = MetaCodec
  import S = System
  import R = Race
  import G = Manager
  import C = CachedDisk
  import DM = DiskModel

  /** The history misses no difference between the image and the device since the cursor. */
  ghost predicate Covered(h: M.History, cursor: Option<S.Cursor>, device: seq<byte>, shadow: seq<byte>)
    requires h.granularity > 0
  {
    cursor.Some? && cursor.value.gen == h.generation ==>
      && cursor.value.era < h.era
      && forall b: nat :: b < |device| && b < |shadow| && shadow[b] != device[b] ==>
           R.Newer(R.Shape(h.devSize, h.granularity), h.eras, cursor.value.era, b)
  }

  /** The metadata file is an unclean save of history `gen`, no newer than era `era`. */
  ghost predicate Marker(main: Option<seq<byte>>, size: nat, gran: nat, gen: nat, era: nat) {
    && main.Some?
    && var l := M.Load(main.value, size, gran);
       l.Accepted? && !l.clean && l.history.generation == gen && l.history.era <= era
  }

  /** The era in the file is beyond the cursor, if that is of its history. */
  ghost predicate Beyond(main: Option<seq<byte>>, size: nat, gran: nat, cursor: Option<S.Cursor>) {
    main.Some? &&
      var l := M.Load(main.value, size, gran);
      l.Accepted? && (cursor.Some? && cursor.value.gen == l.history.generation ==> cursor.value.era < l.history.era)
  }

  class Harness {
    const size: nat
    const gran: nat
    const device: array<byte>    // the backing file
    const expected: array<byte>  // what the device must contain
    const shadow: array<byte>    // the consumer's backup image
    const meta: E.MetaFile
    const manager: G.DeviceManager
    var cursor: Option<S.Cursor>
    ghost var used: set<nat>     // generations ever drawn

    /** The objects are the harness's own, sized alike. */
    ghost predicate Wired()
      reads this
    {
      && device != expected && device != shadow && expected != shadow
      && device.Length == expected.Length == shadow.Length == size
      && ValidGranularity(gran) && 0 < size < U64_SPAN && size % 512 == 0 && gran < U64_SPAN
      && manager.devSize == size && manager.granularity == gran && manager.meta == meta
      && (forall g :: g in used ==> g < U64_SPAN)
      && (cursor.Some? ==> cursor.value.gen in used)
    }

    /** Between operations: attached, the device holds what was written, and no difference is missed. */
    ghost predicate Valid()
      reads this, device, expected, shadow, meta, manager, manager.state,
            if manager.state == null then {} else {manager.state.eras}
    {
      && Wired() && manager.Valid() && manager.state != null
      && manager.state.generation in used
      && device[..] == expected[..]
      && Marker(meta.main, size, gran, manager.state.generation, manager.state.currentEra)
      && Covered(manager.state.Abs(), cursor, device[..], shadow[..])
    }

    /** A crash now would be recovered from with an era beyond the cursor. */
    ghost predicate Vouched()
      reads this, meta
    {
      Beyond(meta.main, size, gran, cursor)
    }

    /** A new device of zeros, attached with a fresh history; the consumer has no cursor. */
    constructor (size: nat, gran: nat, gen: nat)
      requires ValidGranularity(gran) && gran < U64_SPAN && 0 < size < U64_SPAN && size % 512 == 0 && gen < U64_SPAN
      ensures Valid() && Vouched() && manager.state.currentEra == 1
    {
      hide M.Load, M.Encode;
      this.size, this.gran := size, gran;
      device := new byte[size](i => 0);
      expected := new byte[size](i => 0);
      shadow := new byte[size](i => 0);
      var m := new E.MetaFile();
      meta := m;
      manager := new G.DeviceManager(size, gran, m);
      cursor := None;
      used := {gen};
      new;
      assert device[..] == expected[..];
      var r := manager.Add(gen, G.SMOOTH);
      MarkerLoads(manager.state.Abs(), cursor);
    }

    /** One write through the device: the backing store has it before its chunks are stamped. */
    method WriteAt(off: nat, data: seq<byte>)
      requires Valid() && off + |data| <= size
      modifies device, expected, manager.state.eras
      ensures Valid() && manager.state.Abs().(eras := []) == old(manager.state.Abs()).(eras := [])
      ensures shadow[..] == old(shadow[..])
      ensures device[..] == C.Put(old(device[..]), C.Entry(off, data))
    {
      var state := manager.state;
      ghost var h, was := state.Abs(), device[..];
      DM.CopyInto(device, off, data);
      state.MarkWrite(off, |data|);
      DM.CopyInto(expected, off, data);
      WriteCovered(h, cursor, was, shadow[..], C.Entry(off, data));
    }

    /** A burst of writes. */
    method OpWriteBurst(writes: seq<C.Entry>)
      requires Valid() && C.AllFit(writes, size)
      modifies device, expected, manager.state.eras
      ensures Valid() && manager.state.Abs().(eras := []) == old(manager.state.Abs()).(eras := [])
      ensures device[..] == C.PutAll(old(device[..]), writes)
    {
      ghost var was := device[..];
      var i := 0;
      assert writes[..0] == [];
      while i < |writes|
        invariant 0 <= i <= |writes| && Valid() && C.AllFit(writes[..i], size)
        invariant manager.state.Abs().(eras := []) == old(manager.state.Abs()).(eras := [])
        invariant device[..] == C.PutAll(was, writes[..i])
      {
        C.PutAllConcat(was, writes[..i], [writes[i]]);
        assert writes[..i] + [writes[i]] == writes[..i + 1];
        WriteAt(writes[i].off, writes[i].data);
        i := i + 1;
      }
      assert writes[..i] == writes;
    }

    /** Checkpoint without a backup; its save may fail. */
    method OpCheckpoint(outcome: E.IoOutcome) returns (closed: nat)
      requires Valid() && manager.state.currentEra + 1 < U32_SPAN
      modifies manager.state, meta
      ensures Valid() && closed == old(manager.state.currentEra)
      ensures manager.state.Abs() == old(manager.state.Abs()).(era := closed + 1)
      ensures old(Vouched()) || outcome == E.Succeeds ==> Vouched()
      ensures Beyond(meta.main, size, gran, Some(S.Cursor(manager.state.generation, closed))) <==> outcome == E.Succeeds
    {
      hide M.Load, M.Encode;
      var r := manager.Checkpoint(outcome);
      closed := r.closedEra;
      MarkerLoads(manager.state.Abs(), cursor);
      MarkerLoads(manager.state.Abs(), Some(S.Cursor(manager.state.generation, closed)));
    }

    /** Copy one reported range into the image, a megabyte at a time. */
    method CopyRange(r: DirtyRange)
      requires Wired() && r.offset + r.len <= size
      modifies shadow
      ensures forall b :: 0 <= b < size ==> shadow[b] == if InRange(r, b) then device[b] else old(shadow[b])
    {
      var pos := 0;
      while pos < r.len
        invariant 0 <= pos <= r.len
        invariant forall b :: 0 <= b < size ==>
          shadow[b] == if r.offset <= b < r.offset + pos then device[b] else old(shadow[b])
      {
        var n := Min(r.len - pos, 1048576);
        DM.CopyInto(shadow, r.offset + pos, device[r.offset + pos..r.offset + pos + n]);
        pos := pos + n;
      }
    }

    /** Copy every reported range: the image then agrees with the device on all of them. */
    method CopyRanges(ranges: seq<DirtyRange>)
      requires Wired() && forall i :: 0 <= i < |ranges| ==> ranges[i].offset + ranges[i].len <= size
      modifies shadow
      ensures forall b :: 0 <= b < size ==> shadow[b] == if Denotes(ranges, b) then device[b] else old(shadow[b])
    {
      var i := 0;
      ghost var was := shadow[..];
      while i < |ranges|
        invariant 0 <= i <= |ranges|
        invariant forall b :: 0 <= b < size ==> shadow[b] == if Denotes(ranges[..i], b) then device[b] else was[b]
      {
        ghost var before := shadow[..];
        CopyRange(ranges[i]);
        forall b: nat | b < size ensures Denotes(ranges[..i + 1], b) <==> Denotes(ranges[..i], b) || InRange(ranges[i], b) {
          DenotesSnoc(ranges, i, b);
        }
        i := i + 1;
      }
      assert ranges[..i] == ranges;
    }

    /** Dump since the cursor and copy what is reported; a refused cursor copies nothing. */
    method CopyIncrement() returns (copied: bool)
      requires Valid()
      modifies shadow
      ensures copied <==> cursor.Some? && cursor.value.gen == manager.state.generation
      ensures shadow[..] == if copied then device[..] else old(shadow[..])
    {
      hide M.Load, Marker, Beyond;
      if cursor == None {
        return false;
      }
      var d := manager.Dump(cursor.value.era, Some(cursor.value.gen));
      if !d.Dumped? {
        return false;
      }
      ghost var h, was := manager.state.Abs(), shadow[..];
      DumpInside(h, cursor.value.era);
      CopyRanges(d.ranges);
      IncrementalIsExact(h, cursor, device[..], was, shadow[..]);
      return true;
    }

    /**
     The consumer's backup: checkpoint, dump since its cursor, copy what is reported or everything if the
     cursor is refused, adopt the new cursor. Afterwards the image is the device, exactly, and the cursor
     is vouched for exactly when the checkpoint was saved, which this consumer does not look at.
     */
    method OpBackupVerify(outcome: E.IoOutcome) returns (incremental: bool, passthroughOk: bool, imageOk: bool)
      requires Valid() && manager.state.currentEra + 1 < U32_SPAN
      modifies this`cursor, shadow, manager.state, meta
      ensures Valid() && passthroughOk && imageOk && (Vouched() <==> outcome == E.Succeeds)
      ensures shadow[..] == device[..] == expected[..] && device[..] == old(device[..])
      ensures incremental <==> old(cursor.Some? && cursor.value.gen == manager.state.generation)
      ensures cursor == Some(S.Cursor(manager.state.generation, old(manager.state.currentEra)))
    {
      hide M.Load, M.Encode;
      var closed := OpCheckpoint(outcome);
      incremental := CopyIncrement();
      if !incremental {
        CopyRange(DirtyRange(0, size));
        assert shadow[..] == device[..];
      }
      cursor := Some(S.Cursor(manager.state.generation, closed));
      passthroughOk := Same(device, expected);
      imageOk := Same(device, shadow);
    }

    /** Graceful detach and attach: the file loads clean, and the history goes on. */
    method OpReattach() returns (unclean: bool)
      requires Valid()
      modifies manager, meta
      ensures Valid() && Vouched() && !unclean && manager.state.Abs() == old(manager.state.Abs())
    {
      hide M.Load, M.Encode;
      ghost var h := manager.state.Abs();
      M.LoadOfSave(h, true);
      var done := manager.Del(E.Succeeds);
      var r := manager.Add(0, G.SMOOTH);
      MarkerLoads(h, cursor);
      return r.recoveredUnclean;
    }

    /** Everything the daemon does after a crash: attach, with every chunk marked changed. */
    method Recover() returns (unclean: bool)
      requires Wired() && manager.Valid() && manager.state == null && device[..] == expected[..] && Vouched()
      requires M.Load(meta.main.value, size, gran).Accepted? && !M.Load(meta.main.value, size, gran).clean
      requires M.Load(meta.main.value, size, gran).history.generation in used
      modifies manager, meta
      ensures Valid() && Vouched() && unclean
      ensures manager.state.generation == M.Load(old(meta.main.value), size, gran).history.generation
    {
      hide M.Encode;
      ghost var l := M.Load(meta.main.value, size, gran);
      M.AcceptedIsWellFormed(meta.main.value, size, gran);
      hide M.Load;
      var r := manager.Add(0, G.SMOOTH);
      RecoveredCovered(l, cursor, device[..], shadow[..]);
      MarkerLoads(manager.state.Abs(), cursor);
      return r.recoveredUnclean;
    }

    /** SIGKILL, restart, attach: flagged unclean, same history. */
    method OpCrash() returns (unclean: bool)
      requires Valid() && Vouched()
      modifies manager, meta
      ensures Valid() && Vouched() && unclean && manager.state.generation == old(manager.state.generation)
    {
      manager.Kill();
      unclean := Recover();
    }

    /** What is on the device in the given ranges becomes what must be there. */
    method AdoptRanges(ranges: seq<DirtyRange>)
      requires Wired() && forall i :: 0 <= i < |ranges| ==> ranges[i].offset + ranges[i].len <= size
      modifies expected
      ensures forall b :: 0 <= b < size ==> expected[b] == if Denotes(ranges, b) then device[b] else old(expected[b])
    {
      var i := 0;
      ghost var was := expected[..];
      while i < |ranges|
        invariant 0 <= i <= |ranges|
        invariant forall b :: 0 <= b < size ==> expected[b] == if Denotes(ranges[..i], b) then device[b] else was[b]
      {
        DM.CopyInto(expected, ranges[i].offset, device[ranges[i].offset..ranges[i].offset + ranges[i].len]);
        forall b: nat | b < size
          ensures Denotes(ranges[..i + 1], b) <==> Denotes(ranges[..i], b) || InRange(ranges[i], b)
        {
          DenotesSnoc(ranges, i, b);
        }
        i := i + 1;
      }
      assert ranges[..i] == ranges;
    }

    /**
     SIGKILL with writes in flight. `done` are those that the application saw complete, `undefined` the
     ranges of those it did not, and `torn` whatever of these reached the backing file, never stamped.
     The ranges are taken as they are; everywhere else every completed write must have survived.
     */
    method OpCrashInflight(done: seq<C.Entry>, undefined: seq<DirtyRange>, torn: seq<C.Entry>)
      returns (unclean: bool, survived: bool)
      requires Valid() && Vouched() && C.AllFit(done, size) && C.AllFit(torn, size)
      requires forall i :: 0 <= i < |undefined| ==> undefined[i].offset + undefined[i].len <= size
      requires forall i, b: nat :: 0 <= i < |torn| && C.Covers(torn[i], b) ==> Denotes(undefined, b)
      modifies device, expected, manager.state.eras, manager, meta
      ensures Valid() && Vouched() && unclean && survived
      ensures manager.state.generation == old(manager.state.generation) && shadow[..] == old(shadow[..])
      ensures forall b: nat :: b < size && !Denotes(undefined, b) ==> device[b] == C.PutAll(old(device[..]), done)[b]
    {
      hide M.Load, M.Encode, Covered;
      OpWriteBurst(done);
      ghost var was := device[..];
      manager.Kill();
      DM.ApplyAll(device, torn);
      forall b: nat | b < size && !Denotes(undefined, b) ensures device[b] == was[b] {
        C.PutAllUntouched(was, torn, b);
      }
      AdoptRanges(undefined);
      assert device[..] == expected[..];
      unclean := Recover();
      survived := Same(device, expected);
    }

    /** The metadata file is deleted while detached: a fresh history, which refuses the old cursor. */
    method OpLoseMeta(newGen: nat) returns (unclean: bool, refused: bool)
      requires Valid() && newGen < U64_SPAN && newGen !in used
      modifies this`used, manager, meta
      ensures Valid() && Vouched() && !unclean && manager.state.generation == newGen
      ensures cursor.Some? ==> refused
    {
      hide M.Load, M.Encode;
      var done := manager.Del(E.Succeeds);
      meta.main := None;
      used := used + {newGen};
      var r := manager.Add(newGen, G.SMOOTH);
      MarkerLoads(manager.state.Abs(), cursor);
      unclean, refused := r.recoveredUnclean, false;
      if cursor.Some? {
        var d := manager.Dump(cursor.value.era, Some(cursor.value.gen));
        refused := !d.Dumped?;
      }
    }
  }

  /** Compare two images byte by byte. */
  method Same(a: array<byte>, b: array<byte>) returns (same: bool)
    ensures same <==> a[..] == b[..]
  {
    if a.Length != b.Length {
      return false;
    }
    var i := 0;
    while i < a.Length
      invariant 0 <= i <= a.Length && forall j :: 0 <= j < i ==> a[j] == b[j]
    {
      if a[i] != b[i] {
        assert a[..][i] != b[..][i];
        return false;
      }
      i := i + 1;
    }
    return true;
  }

  // ---------------------------------------------------------------- why it works

  /** A save of the history in memory is a marker of it, beyond every cursor that is below its era. */
  lemma MarkerLoads(h: M.History, cursor: Option<S.Cursor>)
    requires M.WellFormed(h)
    ensures Marker(Some(M.Encode(h, false)), h.devSize, h.granularity, h.generation, h.era)
    ensures (cursor.Some? && cursor.value.gen == h.generation ==> cursor.value.era < h.era)
       <==> Beyond(Some(M.Encode(h, false)), h.devSize, h.granularity, cursor)
  {
    M.LoadOfSave(h, false);
  }

  /** A written byte is in a stamped chunk, and stamping never lowers an era. */
  lemma WriteCovered(h: M.History, cursor: Option<S.Cursor>, device: seq<byte>, shadow: seq<byte>, e: C.Entry)
    requires M.WellFormed(h) && |device| == |shadow| == h.devSize && C.Fits(e, |device|)
    requires Covered(h, cursor, device, shadow)
    ensures var sh := R.Shape(h.devSize, h.granularity);
      Covered(h.(eras := Marked(sh, h.eras, h.era, e.off, |e.data|)), cursor, C.Put(device, e), shadow)
  {
    var sh := R.Shape(h.devSize, h.granularity);
    var eras := Marked(sh, h.eras, h.era, e.off, |e.data|);
    forall b: nat | b < |device| && C.Covers(e, b)
      ensures R.ChunkOf(sh, b) < |eras| && eras[R.ChunkOf(sh, b)] >= h.era
    {
      R.CoveredChunk(sh, R.Io(e.off, |e.data|, R.Issued, 0, 0), b);
      R.ChunkOfInside(sh, b);
    }
  }

  lemma DumpInside(h: M.History, since: nat)
    requires M.WellFormed(h)
    ensures var rs := RangesOf(h.eras, since, h.devSize, h.granularity);
      forall i :: 0 <= i < |rs| ==> rs[i].offset + rs[i].len <= h.devSize
  {
    RangesShape(h.eras, since, h.devSize, h.granularity);
  }

  lemma DenotesSnoc(rs: seq<DirtyRange>, i: nat, b: nat)
    requires i < |rs|
    ensures Denotes(rs[..i + 1], b) <==> Denotes(rs[..i], b) || InRange(rs[i], b)
  {
    if Denotes(rs[..i], b) {
      var j :| 0 <= j < i && InRange(rs[..i][j], b);
      assert InRange(rs[..i + 1][j], b);
    }
    if InRange(rs[i], b) {
      assert InRange(rs[..i + 1][i], b);
    }
    if Denotes(rs[..i + 1], b) {
      var j :| 0 <= j < i + 1 && InRange(rs[..i + 1][j], b);
      assert j < i ==> InRange(rs[..i][j], b);
    }
  }

  /** Copying what is reported repairs every difference. */
  lemma IncrementalIsExact(h: M.History, cursor: Option<S.Cursor>, device: seq<byte>, was: seq<byte>, now: seq<byte>)
    requires M.WellFormed(h) && |device| == |was| == |now| == h.devSize
    requires cursor.Some? && cursor.value.gen == h.generation && Covered(h, cursor, device, was)
    requires var rs := RangesOf(h.eras, cursor.value.era, h.devSize, h.granularity);
      forall b :: 0 <= b < |device| ==> now[b] == if Denotes(rs, b) then device[b] else was[b]
    ensures now == device
  {
    forall b: nat | b < |device| ensures now[b] == device[b] {
      RangesExact(h.eras, cursor.value.era, h.devSize, h.granularity, b);
    }
  }

  /** After an unclean recovery every chunk is newer than every cursor that a save vouched for. */
  lemma RecoveredCovered(l: M.Loaded, cursor: Option<S.Cursor>, device: seq<byte>, shadow: seq<byte>)
    requires l.Accepted? && !l.clean && M.WellFormed(l.history) && |device| == l.history.devSize
    requires cursor.Some? && cursor.value.gen == l.history.generation ==> cursor.value.era < l.history.era
    ensures Covered(l.history.(era := S.Recover(l).era, eras := S.Recover(l).eras), cursor, device, shadow)
  {
    var sh := R.Shape(l.history.devSize, l.history.granularity);
    forall b: nat | b < |device| ensures R.ChunkOf(sh, b) < |l.history.eras| {
      R.ChunkOfInside(sh, b);
    }
  }
}
