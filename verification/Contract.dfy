/** The invariant of the whole system, kept by every step, and the contract it gives. */
module Contract {
  import opened Bytes
  import opened Options
  import opened Geometry
  import opened Ranges
  import opened EraHistory
  import opened System
  import M = MetaCodec
  import C = CachedDisk
  import R = Race

  /** What outlives the daemon besides its metadata file: the disk, and everything the consumer holds. */
  datatype World = World(disk: C.Disk, image: seq<byte>, cursor: Option<Cursor>, grants: seq<Grant>)

  function WorldOf(s: State): World { World(s.disk, s.image, s.cursor, s.grants) }

  ghost predicate SizedWorld(c: Config, w: World) {
    C.Valid(w.disk) && |w.disk.committed| == c.shape.size && |w.image| == c.shape.size
  }

  /** The consumers that the contract is kept for; see `Exact`. */
  predicate Sound(c: Config) {
    && c.kind.checkpointFirst
    && (c.env.hasMeta ==> c.kind.checksSaved)
    && (c.env.lossy ==> c.kind.flushes)
    && c.kind.namesHistory
  }

  /** The image is wrong at `b`, or a power loss of the disk below could make it wrong. */
  ghost predicate Risky(c: Config, w: World, b: nat)
    requires SizedWorld(c, w) && b < c.shape.size
  {
    w.image[b] != C.View(w.disk)[b] || (c.env.lossy && C.Cached(w.disk, b))
  }

  /** No cursor handed out in history `gen` reaches era `era`. */
  ghost predicate ErasBounded(grants: seq<Grant>, gen: nat, era: nat) {
    forall i :: 0 <= i < |grants| && grants[i].gen == gen ==> grants[i].era < era
  }

  ghost predicate AllAbove(c: Config, m: R.Mem, n: nat, bytes: set<nat>)
    requires ValidConfig(c)
  {
    forall b: nat :: b in bytes && b < c.shape.size ==> R.Above(c.shape, m, n, b)
  }

  ghost predicate GrantsGuarded(c: Config, grants: seq<Grant>, gen: nat, m: R.Mem)
    requires ValidConfig(c)
  {
    && ErasBounded(grants, gen, m.era)
    && forall i :: 0 <= i < |grants| && grants[i].gen == gen ==> AllAbove(c, m, grants[i].era, grants[i].touched)
  }

  ghost predicate RiskyAbove(c: Config, w: World, m: R.Mem, n: nat)
    requires ValidConfig(c) && SizedWorld(c, w)
  {
    forall b: nat :: b < c.shape.size && Risky(c, w, b) ==> R.Above(c.shape, m, n, b)
  }

  ghost predicate CursorGuarded(c: Config, w: World, gen: nat, m: R.Mem)
    requires ValidConfig(c) && SizedWorld(c, w)
  {
    Sound(c) && w.cursor.Some? && w.cursor.value.gen == gen ==> RiskyAbove(c, w, m, w.cursor.value.era)
  }

  /** Era map `m` of history `gen` answers rightly for every cursor of that history. */
  ghost predicate Guarded(c: Config, w: World, gen: nat, m: R.Mem)
    requires ValidConfig(c) && SizedWorld(c, w)
  {
    GrantsGuarded(c, w.grants, gen, m) && CursorGuarded(c, w, gen, m)
  }

  ghost predicate CachedAbove(c: Config, disk: C.Disk, m: R.Mem, n: nat)
    requires ValidConfig(c)
  {
    forall b: nat :: b < c.shape.size && C.Cached(disk, b) ==> R.Above(c.shape, m, n, b)
  }

  ghost predicate HasGrant(grants: seq<Grant>, gen: nat, era: nat) {
    exists i :: 0 <= i < |grants| && grants[i].gen == gen && grants[i].era == era
  }

  function Snapshot(h: M.History): R.Mem { R.Mem(h.era, h.eras, map[]) }

  // ---------------------------------------------------------------- the parts of the invariant

  ghost predicate ErasInside(h: M.History) {
    h.era >= 1 && forall i :: 0 <= i < |h.eras| ==> h.eras[i] <= h.era
  }

  /** A metadata file that loads never lets a handed-out cursor past its era; a clean one is complete. */
  ghost predicate FileInv(c: Config, w: World, l: M.Loaded, phase: Phase, gen: nat, used: set<nat>)
    requires ValidConfig(c) && SizedWorld(c, w) && l.Accepted?
  {
    && M.WellFormed(l.history) && ErasInside(l.history)
    && l.history.granularity == c.shape.g && l.history.devSize == c.shape.size
    && l.history.generation in used
    && ErasBounded(w.grants, l.history.generation, l.history.era)
    && (phase != Offline ==> l.history.generation == gen)
    && (phase == Live || phase == Detaching ==> !l.clean)
    && (l.clean ==> Guarded(c, w, l.history.generation, Snapshot(l.history)))
  }

  ghost predicate MainInv(c: Config, w: World, main: Option<seq<byte>>, phase: Phase, gen: nat, used: set<nat>)
    requires ValidConfig(c) && SizedWorld(c, w)
  {
    main.Some? ==>
      c.env.hasMeta && (LoadMain(c, main.value).Accepted? ==> FileInv(c, w, LoadMain(c, main.value), phase, gen, used))
  }

  ghost predicate GensInv(c: Config, w: World, used: set<nat>) {
    && (forall g :: g in used ==> g < U64_SPAN)
    && (forall i :: 0 <= i < |w.grants| ==> w.grants[i].gen in used)
    && (Sound(c) && w.cursor.Some? ==> HasGrant(w.grants, w.cursor.value.gen, w.cursor.value.era))
  }

  ghost predicate MemInv(c: Config, w: World, phase: Phase, gen: nat, m: R.Mem, used: set<nat>)
    requires ValidConfig(c) && SizedWorld(c, w)
  {
    phase != Offline ==>
      && R.Inv(c.shape, m) && m.era < U32_SPAN && gen in used
      && (phase != Live ==> m.ios == map[])
      && Guarded(c, w, gen, m)
  }

  /** The snapshot that is being saved, as far as it has got. */
  ghost predicate GotInv(job: Job, m: R.Mem, era: nat, got: seq<nat>) {
    && era == m.era && |got| <= |m.eras|
    && (forall i :: 0 <= i < |got| ==> got[i] <= m.eras[i])
    && (!job.Ckpt? ==> forall i :: 0 <= i < |got| ==> got[i] == m.eras[i])
  }

  ghost predicate HistoryInv(c: Config, job: Job, gen: nat, m: R.Mem, h: M.History) {
    && h == M.History(c.shape.g, c.shape.size, gen, h.era, h.eras)
    && |h.eras| == |m.eras| && GotInv(job, m, h.era, h.eras)
  }

  ghost predicate SaveInv(c: Config, s: State, job: Job, pc: SavePc) {
    match pc
    case Create => true
    case LoadEra => s.tmp == Some([])
    case LoadChunks(era, got) => s.tmp == Some([]) && GotInv(job, s.mem, era, got)
    case Writing(h, sent) =>
      && HistoryInv(c, job, s.gen, s.mem, h) && sent <= |SavedBytes(job, h)|
      && s.tmp == Some(SavedBytes(job, h)[..sent])
    case Synced(h) => HistoryInv(c, job, s.gen, s.mem, h) && s.tmp == Some(SavedBytes(job, h))
  }

  ghost predicate CtlInv(c: Config, s: State)
    requires ValidConfig(c)
  {
    && (s.phase == Attaching <==> s.ctl.Saving? && s.ctl.job.Marker?)
    && (s.phase == Detaching <==> s.ctl.Saving? && s.ctl.job.Final?)
    && (s.phase == Offline ==> s.ctl == Free)
    && (s.ctl.Saving? ==> c.env.hasMeta && SaveInv(c, s, s.ctl.job, s.ctl.pc))
    && (s.ctl.Saving? && s.ctl.job.Ckpt? ==>
          s.ctl.job.closed < s.mem.era && AllAbove(c, s.mem, s.ctl.job.closed, s.ctl.job.touched))
    && (s.backup.Waiting? <==> s.ctl.Saving? && s.ctl.job.Ckpt? && s.ctl.job.mine)
    && (s.backup.Scanning? <==> s.ctl.Dumping?)
  }

  /** During the scan: a byte of a chunk already loaded is above the new cursor or about to be copied. */
  ghost predicate ScanInv(c: Config, s: State, n: nat, since: nat, vals: seq<nat>)
    requires ValidConfig(c) && Sized(c, s)
  {
    && |vals| <= |s.mem.eras|
    && s.cursor == Some(Cursor(s.gen, since))
    && forall b: nat :: b < c.shape.size && R.ChunkOf(c.shape, b) < |vals| && Differs(c, s, b) ==>
         R.Above(c.shape, s.mem, n, b) || vals[R.ChunkOf(c.shape, b)] > since
  }

  ghost predicate CopyInv(c: Config, s: State, n: nat, pending: set<nat>)
    requires ValidConfig(c) && Sized(c, s)
  {
    forall b: nat :: b < c.shape.size && Differs(c, s, b) ==> R.Above(c.shape, s.mem, n, b) || b in pending
  }

  ghost predicate BackupInv(c: Config, s: State)
    requires ValidConfig(c) && Sized(c, s)
  {
    (s.backup != NoBackup ==> s.phase == Live) && (Sound(c) ==> BackupKept(c, s))
  }

  /** What a sound consumer's half-done backup still has to bring. */
  ghost predicate BackupKept(c: Config, s: State)
    requires ValidConfig(c) && Sized(c, s)
  {
    match s.backup
       case NoBackup => true
       case Early(_) => false
       case Waiting(pre) => !pre
       case Closed(n, saved, flushed, pre) =>
         && !pre && n < s.mem.era && (saved || !c.env.hasMeta ==> HasGrant(s.grants, s.gen, n))
         && (flushed && c.env.lossy ==> CachedAbove(c, s.disk, s.mem, n))
       case Scanning(n, saved) =>
         && n < s.mem.era && (saved || !c.env.hasMeta ==> HasGrant(s.grants, s.gen, n))
         && (c.env.lossy ==> CachedAbove(c, s.disk, s.mem, n))
         && s.ctl.Dumping? && ScanInv(c, s, n, s.ctl.since, s.ctl.vals)
       case Copying(n, saved, pending) =>
         && n < s.mem.era && (saved || !c.env.hasMeta ==> HasGrant(s.grants, s.gen, n))
         && (c.env.lossy ==> CachedAbove(c, s.disk, s.mem, n))
         && CopyInv(c, s, n, pending)
  }

  ghost predicate Inv(c: Config, s: State)
    requires ValidConfig(c)
  {
    && Sized(c, s)
    && GensInv(c, WorldOf(s), s.used)
    && MainInv(c, WorldOf(s), s.main, s.phase, s.gen, s.used)
    && MemInv(c, WorldOf(s), s.phase, s.gen, s.mem, s.used)
    && CtlInv(c, s)
    && BackupInv(c, s)
  }

  lemma InitKeepsInv(c: Config, s: State)
    requires ValidConfig(c) && Init(c, s)
    ensures Inv(c, s)
  {}

  // ---------------------------------------------------------------- attaching

  lemma AttachFreshKeepsInv(c: Config, s: State, gen: nat)
    requires ValidConfig(c) && Inv(c, s) && CanAttachFresh(c, s, gen)
    ensures Inv(c, DoAttachFresh(c, s, gen))
  {
    var s' := DoAttachFresh(c, s, gen);
    assert WorldOf(s') == WorldOf(s);
    assert forall i :: 0 <= i < |s.grants| ==> s.grants[i].gen != gen;
  }

  lemma ClearedAbove(c: Config, eras: seq<nat>, era: nat, n: nat, b: nat)
    requires ValidConfig(c) && b < c.shape.size && |eras| == Chunks(c.shape.size, c.shape.g) && n < era
    ensures R.Above(c.shape, R.Mem(era, StampRange(eras, 0, |eras|, era), map[]), n, b)
  {
    ChunkOfByte(c.shape.size, c.shape.g, b);
  }

  /** Recovery: a clean file answers for its cursors, and `mark_all_dirty` puts everything above all of them. */
  lemma RecoverGuards(c: Config, w: World, l: M.Loaded, phase: Phase, gen: nat, used: set<nat>)
    requires ValidConfig(c) && SizedWorld(c, w) && l.Accepted? && FileInv(c, w, l, phase, gen, used) && GensInv(c, w, used)
    ensures R.Inv(c.shape, Recover(l)) && Guarded(c, w, l.history.generation, Recover(l))
  {
    if !l.clean {
      var m := Recover(l);
      forall n: nat, b: nat | n < m.era && b < c.shape.size ensures R.Above(c.shape, m, n, b) {
        ClearedAbove(c, l.history.eras, m.era, n, b);
      }
    }
  }

  lemma AttachLoadKeepsInv(c: Config, s: State)
    requires ValidConfig(c) && Inv(c, s) && CanAttachLoad(c, s)
    ensures Inv(c, DoAttachLoad(c, s))
  {
    hide M.Load, M.Encode;
    var s' := DoAttachLoad(c, s);
    var l := LoadMain(c, s.main.value);
    RecoverGuards(c, WorldOf(s), l, s.phase, s.gen, s.used);
    assert WorldOf(s') == WorldOf(s);
    assert s'.used == s.used;
  }

  // ---------------------------------------------------------------- saving

  /** A finished snapshot is a history that loads back as itself. */
  lemma SavedFileLoads(c: Config, w: World, job: Job, phase: Phase, gen: nat, m: R.Mem, used: set<nat>, h: M.History)
    requires ValidConfig(c) && SizedWorld(c, w) && GensInv(c, w, used) && MemInv(c, w, phase, gen, m, used)
    requires phase != Offline && HistoryInv(c, job, gen, m, h)
    ensures M.WellFormed(h) && ErasInside(h)
    ensures LoadMain(c, SavedBytes(job, h)) == M.Accepted(h, job.Final?)
  {
    hide M.Load, M.Encode, Guarded;
    M.LoadOfSave(h, job.Final?);
  }

  lemma SaveStepKeepsInv(c: Config, s: State, a: Action)
    requires ValidConfig(c) && Inv(c, s) && CanSave(c, s, a) && !a.SaveRename? && !a.SaveFail?
    ensures Inv(c, DoSaveStep(c, s, a))
  {
    hide M.Encode;
    var s' := DoSaveStep(c, s, a);
    assert WorldOf(s') == WorldOf(s);
    SaveStepKeepsSaveInv(c, s, a);
  }

  lemma SaveStepKeepsSaveInv(c: Config, s: State, a: Action)
    requires ValidConfig(c) && s.ctl.Saving? && SaveInv(c, s, s.ctl.job, s.ctl.pc)
    requires CanSave(c, s, a) && !a.SaveRename? && !a.SaveFail?
    ensures var s' := DoSaveStep(c, s, a); s'.ctl.Saving? && s'.ctl.job == s.ctl.job && SaveInv(c, s', s.ctl.job, s'.ctl.pc)
  {
    hide M.Encode;
    var bytes := if s.ctl.pc.Writing? then SavedBytes(s.ctl.job, s.ctl.pc.h) else [];
    assert bytes[..|bytes|] == bytes;
  }

  lemma RenameMarker(c: Config, s: State)
    requires ValidConfig(c) && Inv(c, s) && s.ctl.Saving? && s.ctl.pc.Synced? && s.ctl.job.Marker?
    ensures Inv(c, DoRename(c, s))
  {
    hide M.Encode;
    var s' := DoRename(c, s);
    SavedFileLoads(c, WorldOf(s), s.ctl.job, s.phase, s.gen, s.mem, s.used, s.ctl.pc.h);
    assert WorldOf(s') == WorldOf(s);
  }

  lemma RenameFinal(c: Config, s: State)
    requires ValidConfig(c) && Inv(c, s) && s.ctl.Saving? && s.ctl.pc.Synced? && s.ctl.job.Final?
    ensures Inv(c, DoRename(c, s))
  {
    hide M.Encode;
    var s' := DoRename(c, s);
    var h := s.ctl.pc.h;
    SavedFileLoads(c, WorldOf(s), s.ctl.job, s.phase, s.gen, s.mem, s.used, h);
    assert WorldOf(s') == WorldOf(s);
    assert h.eras == s.mem.eras;
    assert Snapshot(h) == s.mem;
  }

  lemma GrantAdded(c: Config, w: World, gen: nat, m: R.Mem, used: set<nat>, g: Grant)
    requires ValidConfig(c) && SizedWorld(c, w) && Guarded(c, w, gen, m) && GensInv(c, w, used)
    requires g.gen == gen && gen in used && g.era < m.era && AllAbove(c, m, g.era, g.touched)
    ensures var w' := w.(grants := w.grants + [g]);
      && Guarded(c, w', gen, m) && GensInv(c, w', used) && HasGrant(w'.grants, gen, g.era)
      && (forall x, e :: HasGrant(w.grants, x, e) ==> HasGrant(w'.grants, x, e))
  {
    var w' := w.(grants := w.grants + [g]);
    assert w'.grants[|w.grants|] == g;
    forall x, e | HasGrant(w.grants, x, e) ensures HasGrant(w'.grants, x, e) {
      var i :| 0 <= i < |w.grants| && w.grants[i].gen == x && w.grants[i].era == e;
      assert w'.grants[i] == w.grants[i];
    }
    assert forall b: nat :: b < c.shape.size ==> (Risky(c, w', b) <==> Risky(c, w, b));
  }

  lemma RenameCheckpoint(c: Config, s: State)
    requires ValidConfig(c) && Inv(c, s) && s.ctl.Saving? && s.ctl.pc.Synced? && s.ctl.job.Ckpt?
    ensures Inv(c, DoRename(c, s))
  {
    hide M.Encode;
    var s' := DoRename(c, s);
    var g := Grant(s.gen, s.ctl.job.closed, s.ctl.job.touched);
    SavedFileLoads(c, WorldOf(s), s.ctl.job, s.phase, s.gen, s.mem, s.used, s.ctl.pc.h);
    GrantAdded(c, WorldOf(s), s.gen, s.mem, s.used, g);
    assert WorldOf(s') == WorldOf(s).(grants := s.grants + [g]);
  }

  lemma SaveFailKeepsInv(c: Config, s: State)
    requires ValidConfig(c) && Inv(c, s) && s.ctl.Saving?
    ensures Inv(c, DoSaveFail(c, s))
  {
    assert WorldOf(DoSaveFail(c, s)) == WorldOf(s);
  }

  // ---------------------------------------------------------------- requests and checkpoints

  /** `m'` forgets nothing that `m` knew about closed eras. */
  ghost predicate AboveKept(c: Config, m: R.Mem, m': R.Mem)
    requires ValidConfig(c)
  {
    && m.era <= m'.era
    && forall n: nat, b: nat :: n < m.era && b < c.shape.size && R.Above(c.shape, m, n, b) ==> R.Above(c.shape, m', n, b)
  }

  lemma GuardedLater(c: Config, w: World, gen: nat, m: R.Mem, m': R.Mem)
    requires ValidConfig(c) && SizedWorld(c, w) && AboveKept(c, m, m') && Guarded(c, w, gen, m)
    requires Sound(c) && w.cursor.Some? ==> HasGrant(w.grants, w.cursor.value.gen, w.cursor.value.era)
    ensures Guarded(c, w, gen, m')
  {
    if Sound(c) && w.cursor.Some? && w.cursor.value.gen == gen {
      var i :| 0 <= i < |w.grants| && w.grants[i].gen == gen && w.grants[i].era == w.cursor.value.era;
      assert w.cursor.value.era < m.era;
    }
  }

  lemma MemStepKeepsAbove(c: Config, m: R.Mem, step: R.Step)
    requires ValidConfig(c) && R.Inv(c.shape, m) && R.Enabled(c.shape, m, step)
    ensures R.Inv(c.shape, R.Apply(c.shape, m, step)) && AboveKept(c, m, R.Apply(c.shape, m, step))
    ensures R.Later(m, R.Apply(c.shape, m, step))
  {
    R.StepKeepsInv(c.shape, m, step);
    forall n: nat, b: nat | n < m.era && b < c.shape.size && R.Above(c.shape, m, n, b)
      ensures R.Above(c.shape, R.Apply(c.shape, m, step), n, b)
    {
      R.AboveIsStable(c.shape, m, step, n, b);
    }
  }

  /** The consumer's half-done backup survives whatever the era map learns. */
  lemma BackupLater(c: Config, s: State, m': R.Mem)
    requires ValidConfig(c) && Sized(c, s) && BackupInv(c, s) && AboveKept(c, s.mem, m') && |m'.eras| == |s.mem.eras|
    ensures BackupInv(c, s.(mem := m'))
  {
    var s' := s.(mem := m');
    assert forall b: nat :: b < c.shape.size ==> (Differs(c, s', b) <==> Differs(c, s, b));
  }

  lemma SaveLater(c: Config, s: State, m': R.Mem)
    requires ValidConfig(c) && s.ctl.Saving? && s.ctl.job.Ckpt? && SaveInv(c, s, s.ctl.job, s.ctl.pc)
    requires R.Later(s.mem, m') && m'.era == s.mem.era
    ensures SaveInv(c, s.(mem := m'), s.ctl.job, s.ctl.pc)
  {
    hide M.Encode;
  }

  lemma IoKeepsInv(c: Config, s: State, step: R.Step)
    requires ValidConfig(c) && Inv(c, s) && CanIo(c, s, step)
    ensures Inv(c, DoIo(c, s, step))
  {
    hide M.Encode;
    var s' := DoIo(c, s, step);
    MemStepKeepsAbove(c, s.mem, step);
    assert WorldOf(s') == WorldOf(s) && s'.mem.era == s.mem.era;
    GuardedLater(c, WorldOf(s), s.gen, s.mem, s'.mem);
    BackupLater(c, s, s'.mem);
    assert s' == s.(mem := s'.mem);
    if s.ctl.Saving? {
      SaveLater(c, s, s'.mem);
    }
  }

  lemma CheckpointKeepsInv(c: Config, s: State, mine: bool)
    requires ValidConfig(c) && Inv(c, s) && CanCheckpoint(c, s, mine)
    ensures Inv(c, DoCheckpoint(c, s, mine))
  {
    var s' := DoCheckpoint(c, s, mine);
    MemStepKeepsAbove(c, s.mem, R.Close);
    assert s'.mem == R.Apply(c.shape, s.mem, R.Close);
    GuardedLater(c, WorldOf(s), s.gen, s.mem, s'.mem);
    BackupLater(c, s, s'.mem);
    if c.env.hasMeta {
      assert WorldOf(s') == WorldOf(s);
    } else {
      var g := Grant(s.gen, s.mem.era, {});
      GrantAdded(c, WorldOf(s), s.gen, s'.mem, s.used, g);
      assert WorldOf(s') == WorldOf(s).(grants := s.grants + [g]);
    }
  }

  // ---------------------------------------------------------------- the disk

  /** Same cursors, and nothing became risky. */
  ghost predicate RiskShrinks(c: Config, w: World, w': World)
    requires SizedWorld(c, w) && SizedWorld(c, w')
  {
    && w'.cursor == w.cursor && w'.grants == w.grants
    && forall b: nat :: b < c.shape.size && Risky(c, w', b) ==> Risky(c, w, b)
  }

  lemma GuardedShrinks(c: Config, w: World, w': World, gen: nat, m: R.Mem)
    requires ValidConfig(c) && SizedWorld(c, w) && SizedWorld(c, w') && RiskShrinks(c, w, w') && Guarded(c, w, gen, m)
    ensures Guarded(c, w', gen, m)
  {}

  /** Whatever shrinks the risk keeps everything that is said about files and memory. */
  lemma ShrinkKeepsRest(c: Config, s: State, s': State)
    requires ValidConfig(c) && Inv(c, s) && Sized(c, s') && RiskShrinks(c, WorldOf(s), WorldOf(s'))
    requires s' == s.(disk := s'.disk, image := s'.image, backup := s'.backup)
    ensures GensInv(c, WorldOf(s'), s'.used)
    ensures MainInv(c, WorldOf(s'), s'.main, s'.phase, s'.gen, s'.used)
    ensures MemInv(c, WorldOf(s'), s'.phase, s'.gen, s'.mem, s'.used)
  {
    var w, w' := WorldOf(s), WorldOf(s');
    if s.phase != Offline {
      GuardedShrinks(c, w, w', s.gen, s.mem);
    }
    if s.main.Some? {
      var l := LoadMain(c, s.main.value);
      if l.Accepted? && l.clean {
        GuardedShrinks(c, w, w', l.history.generation, Snapshot(l.history));
      }
    }
  }

  lemma FlushKeepsInv(c: Config, s: State)
    requires ValidConfig(c) && Inv(c, s) && s.phase == Live
    ensures Inv(c, DoFlush(c, s))
  {
    hide M.Encode;
    var s' := DoFlush(c, s);
    assert C.View(s'.disk) == C.View(s.disk);
    assert forall b: nat :: !C.Cached(s'.disk, b);
    ShrinkKeepsRest(c, s, s');
  }

  lemma DiskWriteBackKeepsInv(c: Config, s: State)
    requires ValidConfig(c) && Inv(c, s) && s.disk.cache != []
    ensures Inv(c, s.(disk := C.WriteBack(s.disk)))
  {
    hide M.Encode;
    var s' := s.(disk := C.WriteBack(s.disk));
    assert C.View(s'.disk) == C.View(s.disk);
    forall b: nat | C.Cached(s'.disk, b) ensures C.Cached(s.disk, b) {
      var i :| 0 <= i < |s'.disk.cache| && C.Covers(s'.disk.cache[i], b);
      assert C.Covers(s.disk.cache[i + 1], b);
    }
    ShrinkKeepsRest(c, s, s');
  }

  lemma PowerLossKeepsInv(c: Config, s: State, keep: seq<seq<bool>>)
    requires ValidConfig(c) && Inv(c, s) && c.env.lossy && C.Choices(s.disk.cache, c.lbs, keep)
    ensures Inv(c, s.(disk := C.PowerLoss(s.disk, c.lbs, keep)))
  {
    hide M.Encode;
    hide C.SurvivingImage;
    var s' := s.(disk := C.PowerLoss(s.disk, c.lbs, keep));
    forall b: nat | b < c.shape.size
      ensures C.View(s'.disk)[b] == C.View(s.disk)[b] || C.Cached(s.disk, b)
    {
      if !C.Cached(s.disk, b) {
        C.PowerLossLocal(s.disk, c.lbs, keep, b);
      }
    }
    assert forall b: nat :: !C.Cached(s'.disk, b);
    ShrinkKeepsRest(c, s, s');
  }

  /** A byte that just landed lies under the request that is still running. */
  lemma LandedIsOpen(c: Config, s: State, id: nat, e: C.Entry, n: nat, b: nat)
    requires ValidConfig(c) && CanLand(c, s, id, e) && C.Covers(e, b)
    ensures R.Above(c.shape, s.mem, n, b)
  {
    assert R.Covers(s.mem.ios[id], b);
  }

  lemma LandSpreads(c: Config, s: State, id: nat, e: C.Entry, b: nat)
    requires ValidConfig(c) && Sized(c, s) && CanLand(c, s, id, e) && b < c.shape.size && !C.Covers(e, b)
    ensures var disk' := C.Push(s.disk, e, c.cap);
      C.View(disk')[b] == C.View(s.disk)[b] && (C.Cached(disk', b) ==> C.Cached(s.disk, b))
  {
    C.ViewOfPush(s.disk, e, c.cap);
    if C.Cached(C.Push(s.disk, e, c.cap), b) {
      C.CachedAfterPush(s.disk, e, c.cap, b);
    }
  }

  lemma LandKeepsGuarded(c: Config, s: State, id: nat, e: C.Entry)
    requires ValidConfig(c) && Inv(c, s) && CanLand(c, s, id, e)
    ensures Guarded(c, WorldOf(DoLand(c, s, e)), s.gen, s.mem)
  {
    var s' := DoLand(c, s, e);
    forall b: nat | b < c.shape.size && Risky(c, WorldOf(s'), b) && !C.Covers(e, b)
      ensures Risky(c, WorldOf(s), b)
    {
      LandSpreads(c, s, id, e, b);
    }
    forall n: nat, b: nat | C.Covers(e, b) ensures R.Above(c.shape, s.mem, n, b) {
      LandedIsOpen(c, s, id, e, n, b);
    }
  }

  lemma LandKeepsBackup(c: Config, s: State, id: nat, e: C.Entry)
    requires ValidConfig(c) && Inv(c, s) && CanLand(c, s, id, e)
    ensures BackupInv(c, DoLand(c, s, e))
  {
    var s' := DoLand(c, s, e);
    forall b: nat | b < c.shape.size && !C.Covers(e, b)
      ensures C.View(s'.disk)[b] == C.View(s.disk)[b] && (C.Cached(s'.disk, b) ==> C.Cached(s.disk, b))
    {
      LandSpreads(c, s, id, e, b);
    }
    forall n: nat, b: nat | C.Covers(e, b) ensures R.Above(c.shape, s.mem, n, b) {
      LandedIsOpen(c, s, id, e, n, b);
    }
    TouchKeepsGrants(s.grants, EntryBytes(e));
  }

  lemma TouchKeepsGrants(gs: seq<Grant>, bytes: set<nat>)
    ensures forall x, n :: HasGrant(gs, x, n) ==> HasGrant(Touch(gs, bytes), x, n)
    ensures forall x, n :: ErasBounded(gs, x, n) ==> ErasBounded(Touch(gs, bytes), x, n)
  {
    var r := Touch(gs, bytes);
    forall x, n | HasGrant(gs, x, n) ensures HasGrant(r, x, n) {
      var i :| 0 <= i < |gs| && gs[i].gen == x && gs[i].era == n;
      assert r[i].gen == x && r[i].era == n;
    }
  }

  lemma LandKeepsInv(c: Config, s: State, id: nat, e: C.Entry)
    requires ValidConfig(c) && Inv(c, s) && CanLand(c, s, id, e)
    ensures Inv(c, DoLand(c, s, e))
  {
    hide M.Encode;
    hide C.Push;
    var s' := DoLand(c, s, e);
    LandKeepsGuarded(c, s, id, e);
    LandKeepsBackup(c, s, id, e);
    TouchKeepsGrants(s.grants, EntryBytes(e));
    forall n: nat, b: nat | b in EntryBytes(e) ensures R.Above(c.shape, s.mem, n, b) {
      LandedIsOpen(c, s, id, e, n, b);
    }
  }

  // ---------------------------------------------------------------- the consumer

  lemma FullCopyCoversAll(n: nat, b: nat)
    requires b < n
    ensures b in AllBytes(n)
  {
    assert InRange([DirtyRange(0, n)][0], b);
  }

  lemma DumpKeepsInv(c: Config, s: State)
    requires ValidConfig(c) && Inv(c, s) && CanDump(c, s)
    ensures Inv(c, DoDump(c, s))
  {
    hide M.Encode;
    assert WorldOf(DoDump(c, s)) == WorldOf(s);
    forall b: nat | b < c.shape.size ensures b in AllBytes(c.shape.size) {
      FullCopyCoversAll(c.shape.size, b);
    }
  }

  /** The chunk just loaded is reported, or nothing in it needs to be. */
  lemma ScanChunkKeepsBackup(c: Config, s: State)
    requires ValidConfig(c) && Sound(c) && Inv(c, s) && CanScanChunk(c, s)
    ensures BackupKept(c, DoScanChunk(c, s))
  {
    hide MainInv, GensInv, SaveInv, C.Cached;
    var s' := DoScanChunk(c, s);
    var n, k, since := s.backup.era, |s.ctl.vals|, s.ctl.since;
    assert WorldOf(s') == WorldOf(s);
    forall b: nat | b < c.shape.size && R.ChunkOf(c.shape, b) < k + 1 && Differs(c, s', b)
      ensures R.Above(c.shape, s.mem, n, b) || s'.ctl.vals[R.ChunkOf(c.shape, b)] > since
    {
      assert Differs(c, s, b);
      assert Risky(c, WorldOf(s), b);
      assert R.Above(c.shape, s.mem, since, b);
    }
  }

  lemma ScanChunkKeepsInv(c: Config, s: State)
    requires ValidConfig(c) && Inv(c, s) && CanScanChunk(c, s)
    ensures Inv(c, DoScanChunk(c, s))
  {
    hide MainInv, GensInv, MemInv, BackupKept, SaveInv;
    assert WorldOf(DoScanChunk(c, s)) == WorldOf(s);
    if Sound(c) {
      ScanChunkKeepsBackup(c, s);
    }
  }

  /** The finished scan covers every difference that the new cursor does not. */
  lemma EndDumpKeepsBackup(c: Config, s: State)
    requires ValidConfig(c) && Sound(c) && Inv(c, s) && CanEndDump(c, s)
    ensures BackupKept(c, DoEndDump(c, s))
  {
    hide MainInv, GensInv, SaveInv, C.Cached, RangesOf, Denotes;
    var s' := DoEndDump(c, s);
    forall b: nat | b < c.shape.size && Differs(c, s', b)
      ensures R.Above(c.shape, s.mem, s.backup.era, b) || b in s'.backup.pending
    {
      assert Differs(c, s, b);
      ChunkOfByte(c.shape.size, c.shape.g, b);
      RangesExact(s.ctl.vals, s.ctl.since, c.shape.size, c.shape.g, b);
    }
  }

  lemma EndDumpKeepsInv(c: Config, s: State)
    requires ValidConfig(c) && Inv(c, s) && CanEndDump(c, s)
    ensures Inv(c, DoEndDump(c, s))
  {
    hide MainInv, GensInv, MemInv, BackupKept, SaveInv;
    assert WorldOf(DoEndDump(c, s)) == WorldOf(s);
    if Sound(c) {
      EndDumpKeepsBackup(c, s);
    }
  }

  lemma CopyKeepsInv(c: Config, s: State, bytes: set<nat>)
    requires ValidConfig(c) && Inv(c, s) && CanCopy(c, s, bytes)
    ensures Inv(c, DoCopy(c, s, bytes))
  {
    hide M.Encode;
    var s' := DoCopy(c, s, bytes);
    forall b: nat | b < c.shape.size ensures Differs(c, s', b) <==> Differs(c, s, b) && b !in bytes {}
    ShrinkKeepsRest(c, s, s');
  }

  lemma FinishKeepsInv(c: Config, s: State)
    requires ValidConfig(c) && Inv(c, s) && CanFinish(c, s)
    ensures Inv(c, DoFinish(c, s))
  {
    hide M.Encode;
    var s' := DoFinish(c, s);
    assert forall b: nat :: b < c.shape.size ==> (Risky(c, WorldOf(s'), b) <==> Risky(c, WorldOf(s), b));
    assert forall b: nat :: b < c.shape.size && Risky(c, WorldOf(s), b) ==> Differs(c, s, b) || (c.env.lossy && C.Cached(s.disk, b));
  }

  // ---------------------------------------------------------------- detach and disasters

  lemma DetachKeepsInv(c: Config, s: State)
    requires ValidConfig(c) && Inv(c, s) && CanDetach(c, s)
    ensures Inv(c, DoDetach(c, s))
  {
    var s' := DoDetach(c, s);
    assert WorldOf(s') == WorldOf(s);
    forall n: nat, b: nat | b < c.shape.size && R.Above(c.shape, s.mem, n, b)
      ensures R.Above(c.shape, s'.mem, n, b)
    {}
    GuardedLater(c, WorldOf(s), s.gen, s.mem, s'.mem);
  }

  lemma CrashKeepsInv(c: Config, s: State, junk: Option<seq<byte>>)
    requires ValidConfig(c) && Inv(c, s)
    ensures Inv(c, DoCrash(c, s, junk))
  {
    assert WorldOf(DoCrash(c, s, junk)) == WorldOf(s);
  }

  lemma RotKeepsInv(c: Config, s: State, raw: seq<byte>, p: nat, k: nat)
    requires ValidConfig(c) && Inv(c, s) && Enabled(c, s, Rot(raw, p, k))
    ensures Inv(c, s.(main := Some(raw)))
  {
    hide M.Encode, M.Parse, M.ChecksumOk, Guarded;
    M.BurstRefused(s.main.value, raw, p, k, c.shape.size, c.shape.g, c.shape.size, c.shape.g);
    assert WorldOf(s.(main := Some(raw))) == WorldOf(s);
  }

  lemma StartEarlyKeepsInv(c: Config, s: State)
    requires ValidConfig(c) && Inv(c, s) && s.phase == Live && !c.kind.checkpointFirst && s.backup == NoBackup
    ensures Inv(c, s.(backup := Early(AllBytes(c.shape.size))))
  {
    hide M.Encode;
    assert WorldOf(s.(backup := Early(AllBytes(c.shape.size)))) == WorldOf(s);
  }

  /** Steps of requests, of the disk below and of the consumer. */
  predicate TrafficStep(a: Action) {
    a.Io? || a.Land? || a.Flush? || a.DiskWriteBack? || a.DiskPowerLoss? || a.Checkpoint? || a.StartDump? || a.ScanChunk?
    || a.EndDump? || a.StartEarly? || a.Copy? || a.FinishBackup? || a.Abandon?
  }

  lemma TrafficKeepsInv(c: Config, s: State, a: Action)
    requires ValidConfig(c) && Inv(c, s) && Enabled(c, s, a) && TrafficStep(a)
    ensures Inv(c, Apply(c, s, a))
  {
    hide Inv, C.WriteBack, C.PowerLoss;
    hide DoIo, DoLand, DoFlush, DoCheckpoint, DoDump, DoScanChunk, DoEndDump, DoCopy, DoFinish;
    match a {
      case Io(step) => IoKeepsInv(c, s, step);
      case Land(id, off, data) => LandKeepsInv(c, s, id, C.Entry(off, data));
      case Flush => FlushKeepsInv(c, s);
      case DiskWriteBack => DiskWriteBackKeepsInv(c, s);
      case DiskPowerLoss(keep) => PowerLossKeepsInv(c, s, keep);
      case Checkpoint(mine) => CheckpointKeepsInv(c, s, mine);
      case StartDump => DumpKeepsInv(c, s);
      case ScanChunk => ScanChunkKeepsInv(c, s);
      case EndDump => EndDumpKeepsInv(c, s);
      case StartEarly => StartEarlyKeepsInv(c, s);
      case Copy(bytes) => CopyKeepsInv(c, s, bytes);
      case FinishBackup => FinishKeepsInv(c, s);
      case Abandon => AbandonKeepsInv(c, s);
    }
  }

  /** Every step of anybody keeps the invariant, which speaks of the consumer's backup only if that is sound. */
  lemma StepKeepsInv(c: Config, s: State, a: Action)
    requires ValidConfig(c) && Inv(c, s) && Enabled(c, s, a)
    ensures Inv(c, Apply(c, s, a))
  {
    hide Inv, DoAttachFresh, DoAttachLoad, DoRename, DoSaveFail, DoDetach, DoCrash, DoSaveStep;
    if TrafficStep(a) {
      TrafficKeepsInv(c, s, a);
    } else {
      match a {
        case AttachFresh(gen) => AttachFreshKeepsInv(c, s, gen);
        case AttachLoad => AttachLoadKeepsInv(c, s);
        case SaveRename => RenameKeepsInv(c, s);
        case SaveFail => SaveFailKeepsInv(c, s);
        case Detach => DetachKeepsInv(c, s);
        case Crash(junk) => CrashKeepsInv(c, s, junk);
        case LoseMeta => LoseMetaKeepsInv(c, s);
        case Rot(raw, p, k) => RotKeepsInv(c, s, raw, p, k);
        case _ => SaveStepKeepsInv(c, s, a);
      }
    }
  }

  lemma RenameKeepsInv(c: Config, s: State)
    requires ValidConfig(c) && Inv(c, s) && s.ctl.Saving? && s.ctl.pc.Synced?
    ensures Inv(c, DoRename(c, s))
  {
    hide Inv;
    match s.ctl.job {
      case Marker => RenameMarker(c, s);
      case Final => RenameFinal(c, s);
      case Ckpt(_, _, _) => RenameCheckpoint(c, s);
    }
  }

  lemma AbandonKeepsInv(c: Config, s: State)
    requires ValidConfig(c) && Inv(c, s) && (s.backup.Early? || s.backup.Closed? || s.backup.Copying?)
    ensures Inv(c, s.(backup := NoBackup))
  {
    assert WorldOf(s.(backup := NoBackup)) == WorldOf(s);
  }

  lemma LoseMetaKeepsInv(c: Config, s: State)
    requires ValidConfig(c) && Inv(c, s)
    ensures Inv(c, s.(main := None))
  {
    assert WorldOf(s.(main := None)) == WorldOf(s);
  }

  lemma InvIsSized(c: Config, s: State)
    requires ValidConfig(c) && Inv(c, s)
    ensures Sized(c, s)
  {}

  lemma {:induction false} RunKeepsInv(c: Config, s: State, run: seq<Action>)
    requires ValidConfig(c) && Inv(c, s) && ValidRun(c, s, run)
    ensures Inv(c, Run(c, s, run))
    decreases |run|
  {
    hide Inv;
    if run != [] {
      InvIsSized(c, s);
      StepKeepsSize(c, s, run[0]);
      StepKeepsInv(c, s, run[0]);
      RunKeepsInv(c, Apply(c, s, run[0]), run[1..]);
    }
  }

  // ---------------------------------------------------------------- the contract

  lemma AboveIsReported(c: Config, s: State, n: nat, b: nat)
    requires ValidConfig(c) && R.Inv(c.shape, s.mem) && b < c.shape.size && R.Above(c.shape, s.mem, n, b)
    ensures Reported(c, s, n, b) || R.Open(s.mem, b)
  {
    RangesExact(s.mem.eras, n, c.shape.size, c.shape.g, b);
  }

  lemma InvGivesCursors(c: Config, s: State)
    requires ValidConfig(c) && Inv(c, s)
    ensures CursorsSafe(c, s)
  {
    if s.phase == Live {
      forall n: nat, b: nat | b < c.shape.size && R.Above(c.shape, s.mem, n, b)
        ensures Reported(c, s, n, b) || R.Open(s.mem, b)
      {
        AboveIsReported(c, s, n, b);
      }
    }
  }

  lemma InvGivesBackups(c: Config, s: State)
    requires ValidConfig(c) && Sound(c) && Inv(c, s)
    ensures NoFalseNegative(c, s)
  {
    if s.phase == Live {
      forall n: nat, b: nat | b < c.shape.size && R.Above(c.shape, s.mem, n, b)
        ensures Reported(c, s, n, b) || R.Open(s.mem, b)
      {
        AboveIsReported(c, s, n, b);
      }
      assert forall b: nat :: b < c.shape.size && Differs(c, s, b) ==> Risky(c, WorldOf(s), b);
    }
  }

  /**
   Cursor safety over whole runs, whatever the consumer does. Requests, checkpoints, scans without a
   snapshot, attaches, detaches, daemon deaths in the middle of anything (saves included), lost or
   rotten metadata and power losses of the disk below: in every state that any interleaving of them
   reaches, a cursor of this history that a saved checkpoint handed out is of a closed era, and every
   byte that landed since its checkpoint is reported for it or lies under an unfinished request.
   */
  lemma CursorsAreSafe(c: Config, s: State, run: seq<Action>)
    requires ValidConfig(c) && Init(c, s) && ValidRun(c, s, run)
    ensures CursorsSafe(c, Run(c, s, run))
  {
    hide Inv;
    InitKeepsInv(c, s);
    RunKeepsInv(c, s, run);
    InvGivesCursors(c, Run(c, s, run));
  }

  /**
   The backup contract over whole runs: for a sound consumer, in every state that any interleaving
   reaches, the next accepted dump misses no byte at which its image differs from the device, save
   under unfinished requests.
   */
  lemma NoFalseNegatives(c: Config, s: State, run: seq<Action>)
    requires ValidConfig(c) && Sound(c) && Init(c, s) && ValidRun(c, s, run)
    ensures NoFalseNegative(c, Run(c, s, run))
  {
    hide Inv;
    InitKeepsInv(c, s);
    RunKeepsInv(c, s, run);
    InvGivesBackups(c, Run(c, s, run));
  }
}
