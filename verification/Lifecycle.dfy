/**
 The operations of the device manager, as their contracts state them, are runs of the whole system: an
 attach, a checkpoint, a detach and a write, one at a time, on a device of any size and with saves that
 succeed or fail.
 */
module Lifecycle {
  import opened Bytes
  import opened Options
  import opened Geometry
  import opened Contract
  import opened Ranges
  import H = EraHistory
  import opened Manager
  import opened Runs
  import opened System
  import E = EraState
  import M = MetaCodec
  import C = CachedDisk
  import R = Race

  /** Nothing but the daemon and its files has changed. */
  ghost predicate SameWorld(s: State, t: State) {
    t.disk == s.disk && t.image == s.image && t.cursor == s.cursor
  }

  /** The device is attached with history `h` and nothing is going on. */
  ghost predicate Serves(c: Config, s: State, h: M.History) {
    s.phase == Live && s.ctl == Free && s.mem.ios == map[] && HistoryOf(c, s) == h
  }

  // ---------------------------------------------------------------- attach

  /** An attach up to the beginning of its marker's save. */
  lemma BeginIsRun(c: Config, s0: State, s: State, newGen: nat) returns (t: State)
    requires ValidConfig(c) && Sized(c, s0) && Reaches(c, s0, s) && Sized(c, s) && s.phase == Offline
    requires newGen < U64_SPAN && newGen !in s.used && (!c.env.hasMeta ==> s.main == None)
    requires StartingHistory(s.main, c.shape.size, c.shape.g, newGen).Accepted?
    ensures Reaches(c, s0, t) && Sized(c, t) && SameWorld(s, t) && t.main == s.main && t.mem.ios == map[]
    ensures HistoryOf(c, t) == StartingHistory(s.main, c.shape.size, c.shape.g, newGen).history
    ensures t.phase == (if c.env.hasMeta then Attaching else Live)
    ensures t.ctl == (if c.env.hasMeta then Saving(Marker, Create) else Free)
  {
    hide Reaches, M.Load;
    if s.main == None {
      t := Next(c, s0, s, AttachFresh(newGen));
    } else {
      LoadedFits(s.main.value, c.shape.size, c.shape.g);
      t := Next(c, s0, s, AttachLoad);
    }
  }

  lemma LoadedFits(raw: seq<byte>, devSize: nat, granularity: nat)
    requires M.Load(raw, devSize, granularity).Accepted?
    ensures var h := M.Load(raw, devSize, granularity).history; h.granularity == granularity && h.devSize == devSize
  {}

  /** `DeviceManager.Add`, for every way in which it can go once there is a history to begin with. */
  lemma AddIsRun(c: Config, s0: State, s: State, newGen: nat, o: Conditions) returns (t: State)
    requires ValidConfig(c) && Sized(c, s0) && Reaches(c, s0, s) && Sized(c, s)
    requires s.phase == Offline
    requires newGen < U64_SPAN && newGen !in s.used && (!c.env.hasMeta ==> s.main == None)
    requires StartingHistory(s.main, c.shape.size, c.shape.g, newGen).Accepted?
    ensures Reaches(c, s0, t) && Sized(c, t) && SameWorld(s, t)
    ensures var h := StartingHistory(s.main, c.shape.size, c.shape.g, newGen).history;
      var marked := Saved(s.main, h, false, c.env.hasMeta);
      if c.env.hasMeta && o.marker != E.Succeeds then t.phase == Offline && t.main == s.main
      else match o.startup
        case Starts => Serves(c, t, h) && t.main == marked
        case NoControlDevice => t.phase == Offline && t.main == marked
        case RunFails(final) =>
          t.phase == Offline && t.main == Saved(marked, h, true, c.env.hasMeta && final == E.Succeeds)
  {
    hide Reaches, M.Encode, StartingHistory, M.Load;
    var h := StartingHistory(s.main, c.shape.size, c.shape.g, newGen).history;
    t := BeginIsRun(c, s0, s, newGen);
    if c.env.hasMeta && o.marker != E.Succeeds {
      t := Next(c, s0, t, SaveFail);
    } else {
      t := MarkerIsRun(c, s0, t, h);
      match o.startup
      case Starts =>
      case NoControlDevice => t := Next(c, s0, t, Crash(None));
      case RunFails(final) => t := DelIsRun(c, s0, t, h, final);
    }
  }

  /** The marker is written and the device comes up. */
  lemma MarkerIsRun(c: Config, s0: State, s: State, h: M.History) returns (t: State)
    requires ValidConfig(c) && Sized(c, s0) && Reaches(c, s0, s) && Sized(c, s) && HistoryOf(c, s) == h
    requires s.mem.ios == map[] && s.phase == (if c.env.hasMeta then Attaching else Live)
    requires s.ctl == if c.env.hasMeta then Saving(Marker, Create) else Free
    ensures Reaches(c, s0, t) && Sized(c, t) && SameWorld(s, t) && Serves(c, t, h)
    ensures t.main == Saved(s.main, h, false, c.env.hasMeta)
  {
    hide Reaches, M.Encode;
    t := s;
    if c.env.hasMeta {
      t := SaveSucceeds(c, s0, s);
    }
  }

  // ---------------------------------------------------------------- checkpoint and detach

  /** `DeviceManager.Checkpoint`. */
  lemma CheckpointIsRun(c: Config, s0: State, s: State, h: M.History, outcome: E.IoOutcome) returns (t: State)
    requires ValidConfig(c) && Sized(c, s0) && Reaches(c, s0, s) && Sized(c, s) && Serves(c, s, h)
    requires h.era + 1 < U32_SPAN
    ensures Reaches(c, s0, t) && Sized(c, t) && SameWorld(s, t) && Serves(c, t, h.(era := h.era + 1))
    ensures t.main == Saved(s.main, h.(era := h.era + 1), false, c.env.hasMeta && outcome == E.Succeeds)
  {
    hide Reaches, M.Encode;
    t := Next(c, s0, s, Action.Checkpoint(false));
    if c.env.hasMeta {
      if outcome == E.Succeeds {
        t := SaveSucceeds(c, s0, t);
      } else {
        t := Next(c, s0, t, SaveFail);
      }
    }
  }

  /** `DeviceManager.Del`. */
  lemma DelIsRun(c: Config, s0: State, s: State, h: M.History, outcome: E.IoOutcome) returns (t: State)
    requires ValidConfig(c) && Sized(c, s0) && Reaches(c, s0, s) && Sized(c, s) && Serves(c, s, h)
    ensures Reaches(c, s0, t) && Sized(c, t) && SameWorld(s, t) && t.phase == Offline
    ensures t.main == Saved(s.main, h, true, c.env.hasMeta && outcome == E.Succeeds)
  {
    hide Reaches, M.Encode;
    t := Next(c, s0, s, Detach);
    if c.env.hasMeta {
      if outcome == E.Succeeds {
        t := SaveSucceeds(c, s0, t);
      } else {
        t := Next(c, s0, t, SaveFail);
      }
    }
  }

  // ---------------------------------------------------------------- a write

  /** Steps of requests, lifted to the whole system. */
  lemma {:induction false} IoIsRun(c: Config, s0: State, s: State, run: seq<R.Step>) returns (t: State)
    requires ValidConfig(c) && Sized(c, s0) && Reaches(c, s0, s) && Sized(c, s) && s.phase == Live
    requires R.Inv(c.shape, s.mem) && R.ValidRun(c.shape, s.mem, run)
    requires H.NoClose(run)
    ensures t == s.(mem := R.Run(c.shape, s.mem, run)) && Reaches(c, s0, t) && Sized(c, t)
    decreases |run|
  {
    hide Reaches, R.Apply, R.Enabled;
    t := s;
    if run != [] {
      R.StepKeepsInv(c.shape, s.mem, run[0]);
      t := Next(c, s0, s, Io(run[0]));
      t := IoIsRun(c, s0, t, run[1..]);
    }
  }

  /** The steps that end a request whose backing IO is over: `mark_write` alone, then the acknowledgement. */
  lemma StampIsRun(c: Config, s0: State, s: State, id: nat, h: M.History) returns (t: State)
    requires ValidConfig(c) && Sized(c, s0) && Reaches(c, s0, s) && Sized(c, s) && s.phase == Live
    requires R.Inv(c.shape, s.mem) && s.mem.ios.Keys == {id} && s.mem.ios[id].pc.Issued? && HistoryOf(c, s) == h
    ensures var io := s.mem.ios[id];
      && |s.mem.eras| == Chunks(c.shape.size, c.shape.g)
      && t == s.(mem := R.Mem(s.mem.era, H.Marked(c.shape, s.mem.eras, s.mem.era, io.off, io.len), map[]))
      && Reaches(c, s0, t) && Sized(c, t)
  {
    hide Reaches, H.Marked, R.ValidRun, R.Run;
    var run := H.MarkIsRun(c.shape, s.mem, id);
    t := IoIsRun(c, s0, s, run);
    R.RunKeepsInv(c.shape, s.mem, run);
    assert t.mem.ios - {id} == map[];
    t := Next(c, s0, t, Io(R.Ack(id)));
  }

  /** A write, alone: the backing store has it, its chunks carry the current era, it is acknowledged. */
  lemma WriteIsRun(c: Config, s0: State, s: State, h: M.History, e: C.Entry) returns (t: State)
    requires ValidConfig(c) && Sized(c, s0) && Reaches(c, s0, s) && Sized(c, s) && Serves(c, s, h)
    requires R.Inv(c.shape, s.mem) && C.Fits(e, c.shape.size)
    ensures Reaches(c, s0, t) && Sized(c, t)
    ensures |h.eras| == Chunks(c.shape.size, c.shape.g)
    ensures Serves(c, t, h.(eras := H.Marked(c.shape, h.eras, h.era, e.off, |e.data|)))
    ensures C.View(t.disk) == C.Put(C.View(s.disk), e) && t.main == s.main && t.image == s.image && t.cursor == s.cursor
  {
    hide Reaches, H.Marked, C.Push;
    t := Next(c, s0, s, Io(R.Submit(0, e.off, |e.data|)));
    assert t.mem.ios == map[0 := R.Io(e.off, |e.data|, R.Issued, 0, 0)];
    t := Next(c, s0, t, Land(0, e.off, e.data));
    C.ViewOfPush(s.disk, e, c.cap);
    t := StampIsRun(c, s0, t, 0, h);
  }

  // ---------------------------------------------------------------- a backup

  lemma {:induction false} AllChunksScanned(c: Config, s0: State, s: State) returns (t: State)
    requires ValidConfig(c) && Sized(c, s0) && Reaches(c, s0, s) && Sized(c, s)
    requires s.ctl.Dumping? && |s.ctl.vals| <= |s.mem.eras| && s.ctl.vals == s.mem.eras[..|s.ctl.vals|]
    ensures t == s.(ctl := Dumping(s.ctl.since, s.mem.eras)) && Reaches(c, s0, t) && Sized(c, t)
    decreases |s.mem.eras| - |s.ctl.vals|
  {
    hide Reaches;
    if |s.ctl.vals| == |s.mem.eras| {
      t := s;
    } else {
      var n := |s.ctl.vals|;
      assert s.mem.eras[..n] + [s.mem.eras[n]] == s.mem.eras[..n + 1];
      t := Next(c, s0, s, ScanChunk);
      t := AllChunksScanned(c, s0, t);
    }
  }

  /** The consumer's dump accepts its cursor, and byte `b` is in a chunk that has not changed since. */
  ghost predicate Unchanged(c: Config, cursor: Option<Cursor>, h: M.History, b: nat)
    requires ValidConfig(c)
  {
    && cursor.Some? && (c.kind.namesHistory ==> cursor.value.gen == h.generation) && cursor.value.era < h.era
    && !R.Newer(c.shape, h.eras, cursor.value.era, b)
  }

  lemma DenotesNewer(sh: R.Shape, eras: seq<nat>, n: nat, b: nat)
    requires sh.g > 0 && |eras| == Chunks(sh.size, sh.g)
    ensures Denotes(RangesOf(eras, n, sh.size, sh.g), b) <==> b < sh.size && R.Newer(sh, eras, n, b)
  {
    RangesExact(eras, n, sh.size, sh.g, b);
  }

  /** An accepted dump: every chunk is loaded, and what is newer than the cursor is to be copied. */
  lemma IncrementIsRun(c: Config, s0: State, s: State) returns (t: State)
    requires ValidConfig(c) && Sized(c, s0) && Reaches(c, s0, s) && Sized(c, s)
    requires CanDump(c, s) && |s.mem.eras| == Chunks(c.shape.size, c.shape.g) && DumpAccepts(c, s)
    ensures Reaches(c, s0, t) && Sized(c, t) && t.backup.Copying?
    ensures t == s.(backup := Copying(s.backup.era, s.backup.saved, t.backup.pending))
    ensures forall b: nat :: b in t.backup.pending <==> b < c.shape.size && R.Newer(c.shape, s.mem.eras, s.cursor.value.era, b)
  {
    hide Reaches, RangesOf, Denotes, R.Newer, Chunks;
    t := Next(c, s0, s, StartDump);
    t := AllChunksScanned(c, s0, t);
    t := Next(c, s0, t, EndDump);
    forall b: nat ensures b in t.backup.pending <==> b < c.shape.size && R.Newer(c.shape, s.mem.eras, s.cursor.value.era, b) {
      DenotesNewer(c.shape, s.mem.eras, s.cursor.value.era, b);
    }
  }

  /** A refused cursor, or none: everything is to be copied. */
  lemma FullIsRun(c: Config, s0: State, s: State) returns (t: State)
    requires ValidConfig(c) && Sized(c, s0) && Reaches(c, s0, s) && Sized(c, s) && CanDump(c, s) && !DumpAccepts(c, s)
    ensures Reaches(c, s0, t) && Sized(c, t) && t.backup.Copying?
    ensures t == s.(backup := Copying(s.backup.era, s.backup.saved, t.backup.pending))
    ensures forall b: nat :: b in t.backup.pending <==> b < c.shape.size
  {
    hide Reaches, Denotes;
    t := Next(c, s0, s, StartDump);
    forall b: nat | b < c.shape.size ensures b in AllBytes(c.shape.size) {
      FullCopyCoversAll(c.shape.size, b);
    }
  }

  /** The consumer's checkpoint, saved, and its flush. */
  lemma ClosedIsRun(c: Config, s0: State, s: State, h: M.History) returns (t: State)
    requires ValidConfig(c) && Sized(c, s0) && Reaches(c, s0, s) && Sized(c, s) && Serves(c, s, h)
    requires c.kind.checkpointFirst && s.backup == NoBackup && h.era + 1 < U32_SPAN
    ensures Reaches(c, s0, t) && Sized(c, t) && Serves(c, t, h.(era := h.era + 1))
    ensures t.backup == Closed(h.era, true, true, false) && t.cursor == s.cursor && t.image == s.image
    ensures C.View(t.disk) == C.View(s.disk)
  {
    hide Reaches, M.Encode;
    t := Next(c, s0, s, Action.Checkpoint(true));
    if c.env.hasMeta {
      t := SaveSucceeds(c, s0, t);
    }
    t := Next(c, s0, t, Flush);
  }

  /** The copy, and the cursor that is adopted after it. */
  lemma CopiedIsRun(c: Config, s0: State, s: State) returns (t: State)
    requires ValidConfig(c) && Sized(c, s0) && Reaches(c, s0, s) && Sized(c, s)
    requires s.phase == Live && s.backup.Copying? && s.backup.saved
    ensures Reaches(c, s0, t) && Sized(c, t)
    ensures t == s.(image := t.image, backup := NoBackup, cursor := Some(Cursor(s.gen, s.backup.era)))
    ensures forall b: nat :: b < c.shape.size ==>
      t.image[b] == if b in s.backup.pending then C.View(s.disk)[b] else s.image[b]
  {
    hide Reaches;
    var pending := s.backup.pending;
    t := Next(c, s0, s, Copy(pending));
    assert pending - pending == {};
    t := Next(c, s0, t, FinishBackup);
  }

  /** A backup, alone: its image takes the device's bytes in the chunks that changed, or everywhere. */
  lemma BackupIsRun(c: Config, s0: State, s: State, h: M.History) returns (t: State)
    requires ValidConfig(c) && Sized(c, s0) && Reaches(c, s0, s) && Sized(c, s) && Serves(c, s, h)
    requires c.kind.checkpointFirst && s.backup == NoBackup
    requires h.era + 1 < U32_SPAN && |h.eras| == Chunks(c.shape.size, c.shape.g)
    ensures Reaches(c, s0, t) && Sized(c, t) && Serves(c, t, h.(era := h.era + 1)) && t.backup == NoBackup
    ensures t.cursor == Some(Cursor(h.generation, h.era)) && C.View(t.disk) == C.View(s.disk)
    ensures forall b: nat :: b < c.shape.size ==>
      t.image[b] == if Unchanged(c, s.cursor, h.(era := h.era + 1), b) then s.image[b] else C.View(s.disk)[b]
  {
    hide Reaches, R.Newer, Chunks;
    t := ClosedIsRun(c, s0, s, h);
    if DumpAccepts(c, t) {
      t := IncrementIsRun(c, s0, t);
    } else {
      t := FullIsRun(c, s0, t);
    }
    t := CopiedIsRun(c, s0, t);
  }
}
