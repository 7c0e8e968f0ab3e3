/**
 The whole system as a step machine: a tracked device on a disk with a volatile cache, the daemon
 that attaches and detaches it, its metadata file, requests and checkpoints racing each other, the
 backup consumer, and an environment that kills the daemon, cuts the power of the disk below,
 deletes the metadata file and lets it rot.
 */
module System {
  import opened Bytes
  import opened Options
  import opened Geometry
  import opened Ranges
  import opened EraHistory
  import M = MetaCodec
  import C = CachedDisk
  import R = Race

  /** How a backup consumer behaves. */
  datatype Kind = Kind(
    checkpointFirst: bool,  // takes the checkpoint before it copies anything
    checksSaved: bool,      // adopts a cursor only when the checkpoint's save succeeded
    flushes: bool,          // flushes between the checkpoint and the dump
    namesHistory: bool)     // passes the generation along with its era cursor

  /** `hasMeta`: the device has a metadata file. `lossy`: the disk below may lose power. */
  datatype Env = Env(hasMeta: bool, lossy: bool)

  datatype Config = Config(shape: R.Shape, lbs: nat, cap: nat, env: Env, kind: Kind)

  predicate ValidConfig(c: Config) {
    && ValidGranularity(c.shape.g) && c.shape.g < U64_SPAN && 0 < c.shape.size < U64_SPAN
    && c.lbs > 0
  }

  datatype Cursor = Cursor(gen: nat, era: nat)

  /** A checkpoint that was answered and saved: its cursor, and every byte that landed since it ran. */
  datatype Grant = Grant(gen: nat, era: nat, touched: set<nat>)

  /** Why metadata is being saved. */
  datatype Job = Marker | Ckpt(closed: nat, mine: bool, touched: set<nat>) | Final

  datatype SavePc =
    | Create                               // make the temporary file
    | LoadEra                              // load `current_era`
    | LoadChunks(era: nat, got: seq<nat>)  // load the chunk eras one by one
    | Writing(h: M.History, sent: nat)     // `sent` bytes of the buffer are in the temporary file
    | Synced(h: M.History)                 // about to rename

  /** What the single control thread is doing. */
  datatype Ctl = Free | Saving(job: Job, pc: SavePc) | Dumping(since: nat, vals: seq<nat>)

  datatype Phase = Offline | Attaching | Live | Detaching

  /** Where the consumer is in its backup. `pre` marks one that copied before its checkpoint. */
  datatype Backup =
    | NoBackup
    | Early(pending: set<nat>)
    | Waiting(pre: bool)
    | Closed(era: nat, saved: bool, flushed: bool, pre: bool)
    | Scanning(era: nat, saved: bool)
    | Copying(era: nat, saved: bool, pending: set<nat>)

  datatype State = State(
    phase: Phase, gen: nat, mem: R.Mem,
    disk: C.Disk,
    main: Option<seq<byte>>, tmp: Option<seq<byte>>,
    ctl: Ctl, used: set<nat>,
    image: seq<byte>, cursor: Option<Cursor>, backup: Backup,
    grants: seq<Grant>)

  datatype Action =
    | AttachFresh(gen: nat)
    | AttachLoad
    | SaveCreate | SaveLoadEra | SaveLoadChunk | SaveEncode | SaveWrite(k: nat) | SaveSync | SaveRename | SaveFail
    | Io(step: R.Step)
    | Land(id: nat, off: nat, data: seq<byte>)
    | Flush
    | DiskWriteBack
    | DiskPowerLoss(keep: seq<seq<bool>>)
    | Checkpoint(mine: bool)
    | StartDump
    | ScanChunk
    | EndDump
    | StartEarly
    | Copy(bytes: set<nat>)
    | FinishBackup
    | Abandon
    | Detach
    | Crash(junk: Option<seq<byte>>)
    | LoseMeta
    | Rot(raw: seq<byte>, p: nat, k: nat)

  function NoMem(): R.Mem { R.Mem(1, [], map[]) }

  ghost predicate Init(c: Config, s: State)
    requires ValidConfig(c)
  {
    && s.phase == Offline && s.main == None && s.ctl == Free && s.backup == NoBackup
    && s.used == {} && s.cursor == None && s.grants == []
    && C.Valid(s.disk) && |s.disk.committed| == c.shape.size && |s.image| == c.shape.size
  }

  /** Image and disk have the size of the device; every step keeps it. */
  ghost predicate Sized(c: Config, s: State) {
    C.Valid(s.disk) && |s.disk.committed| == c.shape.size && |s.image| == c.shape.size
  }

  ghost function AllBytes(n: nat): set<nat> { BytesBelow(n, [DirtyRange(0, n)]) }

  function EntryBytes(e: C.Entry): set<nat> { set b: nat | b < e.off + |e.data| && C.Covers(e, b) }

  // ---------------------------------------------------------------- attach

  function LoadMain(c: Config, raw: seq<byte>): M.Loaded { M.Load(raw, c.shape.size, c.shape.g) }

  ghost predicate CanAttachFresh(c: Config, s: State, gen: nat) {
    s.phase == Offline && s.main == None && gen < U64_SPAN && gen !in s.used
  }

  function StartAttached(c: Config, s: State, gen: nat, mem: R.Mem): State {
    s.(phase := if c.env.hasMeta then Attaching else Live, gen := gen, mem := mem, used := s.used + {gen},
       ctl := if c.env.hasMeta then Saving(Marker, Create) else Free)
  }

  /** No file to load: a fresh history at era 1, nothing written. */
  function DoAttachFresh(c: Config, s: State, gen: nat): State
    requires c.shape.g > 0
  {
    StartAttached(c, s, gen, R.Fresh(c.shape))
  }

  ghost predicate CanAttachLoad(c: Config, s: State) {
    c.env.hasMeta && s.phase == Offline && s.main.Some? && LoadMain(c, s.main.value).Accepted?
  }

  /** A clean file is continued; an unclean one is continued with every chunk marked changed. */
  function Recover(l: M.Loaded): R.Mem
    requires l.Accepted?
  {
    R.Mem(l.history.era, if l.clean then l.history.eras else StampRange(l.history.eras, 0, |l.history.eras|, l.history.era), map[])
  }

  function DoAttachLoad(c: Config, s: State): State
    requires s.main.Some? && LoadMain(c, s.main.value).Accepted?
  {
    var l := LoadMain(c, s.main.value);
    StartAttached(c, s, l.history.generation, Recover(l))
  }

  // ---------------------------------------------------------------- saving metadata

  /** The history in memory. */
  function HistoryOf(c: Config, s: State): M.History {
    M.History(c.shape.g, c.shape.size, s.gen, s.mem.era, s.mem.eras)
  }

  function SavedBytes(job: Job, h: M.History): seq<byte> { M.Encode(h, job.Final?) }

  ghost predicate CanSave(c: Config, s: State, a: Action) {
    && s.ctl.Saving?
    && match a
       case SaveCreate => s.ctl.pc.Create?
       case SaveLoadEra => s.ctl.pc.LoadEra?
       case SaveLoadChunk => s.ctl.pc.LoadChunks? && |s.ctl.pc.got| < |s.mem.eras|
       case SaveEncode => s.ctl.pc.LoadChunks? && |s.ctl.pc.got| == |s.mem.eras|
       case SaveWrite(k) => s.ctl.pc.Writing? && s.ctl.pc.sent + k <= |SavedBytes(s.ctl.job, s.ctl.pc.h)|
       case SaveSync => s.ctl.pc.Writing? && s.ctl.pc.sent == |SavedBytes(s.ctl.job, s.ctl.pc.h)|
       case SaveRename => s.ctl.pc.Synced?
       case SaveFail => true
       case _ => false
  }

  /** The snapshot and the temporary file; nothing outside them moves. */
  function DoSaveStep(c: Config, s: State, a: Action): State
    requires s.ctl.Saving?
    requires a.SaveLoadChunk? ==> s.ctl.pc.LoadChunks? && |s.ctl.pc.got| < |s.mem.eras|
    requires a.SaveEncode? ==> s.ctl.pc.LoadChunks?
    requires a.SaveWrite? ==> s.ctl.pc.Writing? && s.ctl.pc.sent + a.k <= |SavedBytes(s.ctl.job, s.ctl.pc.h)|
    requires a.SaveSync? ==> s.ctl.pc.Writing?
  {
    var job, pc := s.ctl.job, s.ctl.pc;
    match a
    case SaveCreate => s.(tmp := Some([]), ctl := Saving(job, LoadEra))
    case SaveLoadEra => s.(ctl := Saving(job, LoadChunks(s.mem.era, [])))
    case SaveLoadChunk => s.(ctl := Saving(job, LoadChunks(pc.era, pc.got + [s.mem.eras[|pc.got|]])))
    case SaveEncode =>
      s.(ctl := Saving(job, Writing(M.History(c.shape.g, c.shape.size, s.gen, pc.era, pc.got), 0)))
    case SaveWrite(k) =>
      s.(tmp := Some(SavedBytes(job, pc.h)[..pc.sent + k]), ctl := Saving(job, Writing(pc.h, pc.sent + k)))
    case SaveSync => s.(ctl := Saving(job, Synced(pc.h)))
    case _ => s
  }

  /** The rename: the temporary file becomes the metadata file, and whoever asked for the save goes on. */
  function DoRename(c: Config, s: State): State
    requires s.ctl.Saving?
  {
    var s' := s.(main := s.tmp, tmp := None, ctl := Free);
    match s.ctl.job
    case Marker => s'.(phase := Live)
    case Final => s'.(phase := Offline)
    case Ckpt(closed, mine, touched) =>
      s'.(grants := s.grants + [Grant(s.gen, closed, touched)],
          backup := if mine && s.backup.Waiting? then Closed(closed, true, false, s.backup.pre) else s.backup)
  }

  /** A save that fails leaves the metadata file alone. The checkpoint still answers, saying so. */
  function DoSaveFail(c: Config, s: State): State
    requires s.ctl.Saving?
  {
    var s' := s.(ctl := Free);
    match s.ctl.job
    case Marker => s'.(phase := Offline)
    case Final => s'.(phase := Offline)
    case Ckpt(closed, mine, touched) =>
      s'.(backup := if mine && s.backup.Waiting? then Closed(closed, false, false, s.backup.pre) else s.backup)
  }

  // ---------------------------------------------------------------- requests and the disk

  ghost predicate CanIo(c: Config, s: State, step: R.Step)
    requires c.shape.g > 0
  {
    s.phase == Live && step != R.Close && R.Enabled(c.shape, s.mem, step)
    && |s.mem.eras| == Chunks(c.shape.size, c.shape.g)
  }

  function DoIo(c: Config, s: State, step: R.Step): State
    requires c.shape.g > 0 && R.Enabled(c.shape, s.mem, step) && |s.mem.eras| == Chunks(c.shape.size, c.shape.g)
  {
    s.(mem := R.Apply(c.shape, s.mem, step))
  }

  /** While its backing IO runs, a request may change any of its bytes, any number of times. */
  ghost predicate CanLand(c: Config, s: State, id: nat, e: C.Entry) {
    && s.phase == Live && id in s.mem.ios && s.mem.ios[id].pc.Issued?
    && s.mem.ios[id].off <= e.off && e.off + |e.data| <= s.mem.ios[id].off + s.mem.ios[id].len
    && C.Fits(e, c.shape.size)
  }

  function Touch(gs: seq<Grant>, bytes: set<nat>): (r: seq<Grant>)
    ensures |r| == |gs|
    ensures forall i :: 0 <= i < |gs| ==> r[i] == gs[i].(touched := gs[i].touched + bytes)
  {
    seq(|gs|, i requires 0 <= i < |gs| => gs[i].(touched := gs[i].touched + bytes))
  }

  function TouchCtl(ctl: Ctl, bytes: set<nat>): Ctl {
    if ctl.Saving? && ctl.job.Ckpt? then ctl.(job := ctl.job.(touched := ctl.job.touched + bytes)) else ctl
  }

  function DoLand(c: Config, s: State, e: C.Entry): State
    requires C.Valid(s.disk) && C.Fits(e, |s.disk.committed|)
  {
    s.(disk := C.Push(s.disk, e, c.cap), grants := Touch(s.grants, EntryBytes(e)), ctl := TouchCtl(s.ctl, EntryBytes(e)))
  }

  /** An honest flush; the consumer that is waiting for one takes note. */
  function DoFlush(c: Config, s: State): State
    requires C.Valid(s.disk)
  {
    s.(disk := C.Flush(s.disk), backup := if s.backup.Closed? then s.backup.(flushed := true) else s.backup)
  }

  // ---------------------------------------------------------------- checkpoint, dump, copy

  ghost predicate CanCheckpoint(c: Config, s: State, mine: bool) {
    && s.phase == Live && s.ctl == Free && s.mem.era + 1 < U32_SPAN
    && (mine ==> (c.kind.checkpointFirst && s.backup == NoBackup) || (s.backup.Early? && s.backup.pending == {}))
  }

  /** Close the era; with a metadata file the answer waits for the save. */
  function DoCheckpoint(c: Config, s: State, mine: bool): State {
    var closed, pre := s.mem.era, s.backup.Early?;
    var s' := s.(mem := s.mem.(era := s.mem.era + 1));
    if c.env.hasMeta then
      s'.(ctl := Saving(Ckpt(closed, mine, {}), Create), backup := if mine then Waiting(pre) else s.backup)
    else
      s'.(grants := s.grants + [Grant(s.gen, closed, {})],
          backup := if mine then Closed(closed, true, false, pre) else s.backup)
  }

  ghost predicate CanDump(c: Config, s: State) {
    && s.phase == Live && s.ctl == Free && s.backup.Closed? && !s.backup.pre
    && (c.kind.flushes ==> s.backup.flushed)
  }

  /** The guards of `dump`: the cursor, if it names its history, is of this one, and of a closed era of it. */
  predicate DumpAccepts(c: Config, s: State) {
    && s.cursor.Some? && (c.kind.namesHistory ==> s.cursor.value.gen == s.gen)
    && s.cursor.value.era < s.mem.era
  }

  /** An accepted cursor starts a scan; a rejected one (or none) makes the backup a full copy. */
  ghost function DoDump(c: Config, s: State): State
    requires s.backup.Closed?
  {
    if DumpAccepts(c, s) then
      s.(ctl := Dumping(s.cursor.value.era, []), backup := Scanning(s.backup.era, s.backup.saved))
    else
      s.(backup := Copying(s.backup.era, s.backup.saved, AllBytes(c.shape.size)))
  }

  ghost predicate CanScanChunk(c: Config, s: State) {
    s.ctl.Dumping? && |s.ctl.vals| < |s.mem.eras|
  }

  function DoScanChunk(c: Config, s: State): State
    requires s.ctl.Dumping? && |s.ctl.vals| < |s.mem.eras|
  {
    s.(ctl := Dumping(s.ctl.since, s.ctl.vals + [s.mem.eras[|s.ctl.vals|]]))
  }

  ghost predicate CanEndDump(c: Config, s: State)
    requires c.shape.g > 0
  {
    s.ctl.Dumping? && s.backup.Scanning? && |s.ctl.vals| == |s.mem.eras| == Chunks(c.shape.size, c.shape.g)
  }

  ghost function DoEndDump(c: Config, s: State): State
    requires c.shape.g > 0 && CanEndDump(c, s)
  {
    var rs := RangesOf(s.ctl.vals, s.ctl.since, c.shape.size, c.shape.g);
    s.(ctl := Free, backup := Copying(s.backup.era, s.backup.saved, BytesBelow(c.shape.size, rs)))
  }

  ghost predicate CanCopy(c: Config, s: State, bytes: set<nat>) {
    && s.phase == Live
    && (s.backup.Copying? || s.backup.Early?) && bytes <= s.backup.pending
  }

  /** Some pending bytes are read from the device into the image, however many at a time. */
  ghost function DoCopy(c: Config, s: State, bytes: set<nat>): State
    requires C.Valid(s.disk) && |s.image| == |s.disk.committed| && (s.backup.Copying? || s.backup.Early?)
  {
    var view := C.View(s.disk);
    s.(image := seq(|s.image|, b requires 0 <= b < |s.image| => if b in bytes then view[b] else s.image[b]),
       backup := if s.backup.Copying? then s.backup.(pending := s.backup.pending - bytes)
                 else Early(s.backup.pending - bytes))
  }

  ghost predicate CanFinish(c: Config, s: State) {
    s.phase == Live && ((s.backup.Copying? && s.backup.pending == {}) || (s.backup.Closed? && s.backup.pre))
  }

  /** The backup is complete; its cursor is adopted unless the consumer minds that it was not saved. */
  function DoFinish(c: Config, s: State): State
    requires s.backup.Copying? || s.backup.Closed?
  {
    s.(backup := NoBackup,
       cursor := if s.backup.saved || !c.kind.checksSaved then Some(Cursor(s.gen, s.backup.era)) else s.cursor)
  }

  // ---------------------------------------------------------------- detach and disasters

  /** Detaching waits for every backing IO and its stamp. */
  ghost predicate CanDetach(c: Config, s: State) {
    s.phase == Live && s.ctl == Free && forall id :: id in s.mem.ios ==> s.mem.ios[id].pc.Stamped?
  }

  function DoDetach(c: Config, s: State): State {
    s.(phase := if c.env.hasMeta then Detaching else Offline, mem := s.mem.(ios := map[]),
       ctl := if c.env.hasMeta then Saving(Final, Create) else Free, backup := NoBackup)
  }

  /** The daemon dies anywhere: everything in memory is gone, the temporary file may hold anything. */
  function DoCrash(c: Config, s: State, junk: Option<seq<byte>>): State {
    s.(phase := Offline, mem := s.mem.(ios := map[]), ctl := Free, tmp := junk, backup := NoBackup)
  }

  // ---------------------------------------------------------------- one step of anybody

  ghost predicate Enabled(c: Config, s: State, a: Action)
    requires ValidConfig(c) && Sized(c, s)
  {
    match a
    case AttachFresh(gen) => CanAttachFresh(c, s, gen)
    case AttachLoad => CanAttachLoad(c, s)
    case Io(step) => CanIo(c, s, step)
    case Land(id, off, data) => CanLand(c, s, id, C.Entry(off, data))
    case Flush => s.phase == Live
    case DiskWriteBack => s.disk.cache != []
    case DiskPowerLoss(keep) => c.env.lossy && C.Choices(s.disk.cache, c.lbs, keep)
    case Checkpoint(mine) => CanCheckpoint(c, s, mine)
    case StartDump => CanDump(c, s)
    case ScanChunk => CanScanChunk(c, s)
    case EndDump => CanEndDump(c, s)
    case StartEarly => s.phase == Live && !c.kind.checkpointFirst && s.backup == NoBackup
    case Copy(bytes) => CanCopy(c, s, bytes)
    case FinishBackup => CanFinish(c, s)
    case Abandon => s.backup.Early? || s.backup.Closed? || s.backup.Copying?
    case Detach => CanDetach(c, s)
    case Crash(junk) => true
    case LoseMeta => true
    case Rot(raw, p, k) =>
      && s.main.Some? && LoadMain(c, s.main.value).Accepted?
      && M.SameOutside(s.main.value, raw, p, k) && raw != s.main.value && k <= 4 && M.NoStraddle(p, k)
    case _ => CanSave(c, s, a)
  }

  ghost function Apply(c: Config, s: State, a: Action): State
    requires ValidConfig(c) && Sized(c, s) && Enabled(c, s, a)
  {
    match a
    case AttachFresh(gen) => DoAttachFresh(c, s, gen)
    case AttachLoad => DoAttachLoad(c, s)
    case SaveRename => DoRename(c, s)
    case SaveFail => DoSaveFail(c, s)
    case Io(step) => DoIo(c, s, step)
    case Land(id, off, data) => DoLand(c, s, C.Entry(off, data))
    case Flush => DoFlush(c, s)
    case DiskWriteBack => s.(disk := C.WriteBack(s.disk))
    case DiskPowerLoss(keep) => s.(disk := C.PowerLoss(s.disk, c.lbs, keep))
    case Checkpoint(mine) => DoCheckpoint(c, s, mine)
    case StartDump => DoDump(c, s)
    case ScanChunk => DoScanChunk(c, s)
    case EndDump => DoEndDump(c, s)
    case StartEarly => s.(backup := Early(AllBytes(c.shape.size)))
    case Copy(bytes) => DoCopy(c, s, bytes)
    case FinishBackup => DoFinish(c, s)
    case Abandon => s.(backup := NoBackup)
    case Detach => DoDetach(c, s)
    case Crash(junk) => DoCrash(c, s, junk)
    case LoseMeta => s.(main := None)
    case Rot(raw, p, k) => s.(main := Some(raw))
    case _ => DoSaveStep(c, s, a)
  }

  /** The steps that reach the disk or the backup image. */
  predicate TouchesBytes(a: Action) {
    a.Land? || a.Flush? || a.DiskWriteBack? || a.DiskPowerLoss? || a.Copy?
  }

  lemma OthersLeaveBytes(c: Config, s: State, a: Action)
    requires ValidConfig(c) && Sized(c, s) && Enabled(c, s, a) && !TouchesBytes(a)
    ensures Apply(c, s, a).disk == s.disk && Apply(c, s, a).image == s.image
  {
    hide C.Valid;
  }

  lemma StepKeepsSize(c: Config, s: State, a: Action)
    requires ValidConfig(c) && Sized(c, s) && Enabled(c, s, a)
    ensures Sized(c, Apply(c, s, a))
  {
    if !TouchesBytes(a) {
      OthersLeaveBytes(c, s, a);
    }
  }

  // ---------------------------------------------------------------- runs

  ghost predicate ValidRun(c: Config, s: State, run: seq<Action>)
    requires ValidConfig(c) && Sized(c, s)
    decreases |run|
  {
    run == [] || (Enabled(c, s, run[0]) && (StepKeepsSize(c, s, run[0]); ValidRun(c, Apply(c, s, run[0]), run[1..])))
  }

  ghost function Run(c: Config, s: State, run: seq<Action>): (r: State)
    requires ValidConfig(c) && Sized(c, s) && ValidRun(c, s, run)
    ensures Sized(c, r)
    decreases |run|
  {
    if run == [] then s
    else
      StepKeepsSize(c, s, run[0]);
      Run(c, Apply(c, s, run[0]), run[1..])
  }

  // ---------------------------------------------------------------- the contract

  ghost predicate Differs(c: Config, s: State, b: nat)
    requires Sized(c, s) && b < c.shape.size
  {
    s.image[b] != C.View(s.disk)[b]
  }

  /** What `dump` would report for `since` if it ran without interference. */
  ghost predicate Reported(c: Config, s: State, since: nat, b: nat)
    requires ValidConfig(c)
  {
    |s.mem.eras| == Chunks(c.shape.size, c.shape.g)
    && Denotes(RangesOf(s.mem.eras, since, c.shape.size, c.shape.g), b)
  }

  /**
   No false negatives: whenever `dump` would accept the consumer's cursor, every byte at which the
   backup image and the device differ is reported, or lies under a request that is not finished.
   */
  ghost predicate NoFalseNegative(c: Config, s: State)
    requires ValidConfig(c) && Sized(c, s)
  {
    s.phase == Live && DumpAccepts(c, s) ==>
      forall b: nat :: b < c.shape.size && Differs(c, s, b) ==>
        Reported(c, s, s.cursor.value.era, b) || R.Open(s.mem, b)
  }

  /** The same for every cursor ever handed out by a saved checkpoint, about every byte that landed since. */
  ghost predicate CursorsSafe(c: Config, s: State)
    requires ValidConfig(c)
  {
    s.phase == Live ==>
      forall i :: 0 <= i < |s.grants| && s.grants[i].gen == s.gen ==>
        && s.grants[i].era < s.mem.era
        && forall b: nat :: b in s.grants[i].touched && b < c.shape.size ==>
             Reported(c, s, s.grants[i].era, b) || R.Open(s.mem, b)
  }
}
