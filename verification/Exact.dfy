/**
 Which consumers the contract is kept for, exactly. Four ways of running a backup lose writes, each
 shown by a run: copying before the checkpoint (the order in which docs/dump-format.md and README.md
 list the steps), adopting a cursor whose checkpoint answered `meta_saved: false`, not flushing above
 a disk that can lose power, and asking for a dump by era alone. A consumer that avoids those that
 matter for its device never does.
 */
module Exact {
  import opened Bytes
  import opened Options
  import opened Geometry
  import opened Ranges
  import opened System
  import opened Contract
  import opened Runs
  import M = MetaCodec
  import C = CachedDisk
  import R = Race
  import D = Durability

  // ---------------------------------------------------------------- one small device

  /** One chunk of 4096 bytes, of which the device has 512. */
  function Small(env: Env, kind: Kind): Config { Config(R.Shape(512, 4096), 512, 1024, env, kind) }

  lemma SmallIsValid(env: Env, kind: Kind)
    ensures ValidConfig(Small(env, kind)) && Chunks(512, 4096) == 1
  {
    assert IsPowerOfTwo(4);
    assert IsPowerOfTwo(16);
    assert IsPowerOfTwo(64);
    assert IsPowerOfTwo(256);
    assert IsPowerOfTwo(1024);
    assert IsPowerOfTwo(4096);
  }

  function Zero(): seq<byte> { D.Zeros(512) }

  function Ones(): (d: seq<byte>)
    ensures |d| == 512
  {
    seq(512, i => 1)
  }

  function Start(): State {
    State(Offline, 0, NoMem(), C.Disk(Zero(), []), None, None, Free, {}, Zero(), None, NoBackup, [])
  }

  function Live0(c: Config, s: State, gen: nat, mem: R.Mem): State {
    s.(phase := Live, gen := gen, mem := mem, used := s.used + {gen}, ctl := Free)
  }

  /** Attach the fresh device; with a metadata file its unclean marker is written first. */
  lemma GoLive(c: Config) returns (t: State)
    requires ValidConfig(c) && c == Small(c.env, c.kind) && Chunks(512, 4096) == 1
    ensures Reaches(c, Start(), t) && Sized(c, Start()) && Sized(c, t)
    ensures var live := Live0(c, Start(), 0, R.Mem(1, [0], map[]));
      t == if c.env.hasMeta
           then live.(main := Some(M.Encode(M.History(4096, 512, 0, 1, [0]), false)), tmp := None)
           else live
  {
    hide M.Encode, Reaches;
    var s0 := Start();
    NoSteps(c, s0);
    assert seq(1, i => 0) == [0];
    t := Next(c, s0, s0, AttachFresh(0));
    assert t.mem.eras == [0];
    if c.env.hasMeta {
      t := SaveSucceeds(c, s0, t);
    }
  }

  function Entry1(): C.Entry { C.Entry(0, Ones()) }

  function OneIo(pc: R.Pc, passes: nat, born: nat): map<nat, R.Io> { map[0 := R.Io(0, 512, pc, passes, born)] }

  lemma OneIoChunks(c: Config, pc: R.Pc, passes: nat, born: nat)
    requires ValidConfig(c) && c == Small(c.env, c.kind) && Chunks(512, 4096) == 1
    ensures var io := R.Io(0, 512, pc, passes, born);
      R.Marks(c.shape, io) && R.FirstChunk(c.shape, io) == 0 && R.LastChunk(c.shape, io) == 0
  {}

  lemma WriteLands(c: Config, s0: State, s: State) returns (t: State)
    requires ValidConfig(c) && c == Small(c.env, c.kind) && Sized(c, s0) && Reaches(c, s0, s) && Sized(c, s)
    requires Chunks(512, 4096) == 1 && s.phase == Live && |s.mem.eras| == 1 && s.mem.ios == map[]
    ensures t == DoLand(c, s, Entry1()).(mem := s.mem.(ios := OneIo(R.Issued, 0, 0))) && Reaches(c, s0, t) && Sized(c, t)
  {
    hide Reaches, C.Push;
    t := Next(c, s0, s, Io(R.Submit(0, 0, 512)));
    assert t.mem.ios == OneIo(R.Issued, 0, 0);
    t := Next(c, s0, t, Land(0, 0, Ones()));
  }

  lemma WriteStamps(c: Config, s0: State, s: State) returns (t: State)
    requires ValidConfig(c) && c == Small(c.env, c.kind) && Sized(c, s0) && Reaches(c, s0, s) && Sized(c, s)
    requires Chunks(512, 4096) == 1 && s.phase == Live && |s.mem.eras| == 1 && s.mem.eras[0] <= 1
    requires s.mem.era == 1 && s.mem.ios == OneIo(R.Issued, 0, 0)
    ensures t == s.(mem := R.Mem(1, [1], map[])) && Reaches(c, s0, t) && Sized(c, t)
  {
    hide Reaches;
    OneIoChunks(c, R.Issued, 0, 0);
    t := Next(c, s0, s, Io(R.Complete(0)));
    assert t.mem.ios == OneIo(R.Entering, 0, 1);
    OneIoChunks(c, R.Entering, 0, 1);
    t := Next(c, s0, t, Io(R.Load(0)));
    assert t.mem.ios == OneIo(R.Stamping(1, 0), 1, 1);
    t := WriteEnds(c, s0, t);
  }

  lemma WriteEnds(c: Config, s0: State, s: State) returns (t: State)
    requires ValidConfig(c) && c == Small(c.env, c.kind) && Sized(c, s0) && Reaches(c, s0, s) && Sized(c, s)
    requires Chunks(512, 4096) == 1 && s.phase == Live && |s.mem.eras| == 1 && s.mem.eras[0] <= 1
    requires s.mem.era == 1 && s.mem.ios == OneIo(R.Stamping(1, 0), 1, 1)
    ensures t == s.(mem := R.Mem(1, [1], map[])) && Reaches(c, s0, t) && Sized(c, t)
  {
    hide Reaches;
    OneIoChunks(c, R.Stamping(1, 0), 1, 1);
    t := Next(c, s0, s, Io(R.StampNext(0)));
    assert t.mem.ios == OneIo(R.Stamping(1, 1), 1, 1);
    assert t.mem.eras == [1];
    OneIoChunks(c, R.Stamping(1, 1), 1, 1);
    t := Next(c, s0, t, Io(R.Reload(0)));
    assert t.mem.ios == OneIo(R.Stamped, 1, 1);
    t := Next(c, s0, t, Io(R.Ack(0)));
    assert t.mem.ios == map[];
  }

  /** A whole request: submitted, landed, stamped with the current era, acknowledged. */
  lemma WriteOnes(c: Config, s0: State, s: State) returns (t: State)
    requires ValidConfig(c) && c == Small(c.env, c.kind) && Sized(c, s0) && Reaches(c, s0, s) && Sized(c, s)
    requires Chunks(512, 4096) == 1
    requires s.phase == Live && |s.mem.eras| == 1 && s.mem.era == 1 && s.mem.eras[0] <= 1 && s.mem.ios == map[]
    ensures t == DoLand(c, s, Entry1()).(mem := R.Mem(1, [1], map[])) && Reaches(c, s0, t) && Sized(c, t)
  {
    hide Reaches, C.Push;
    t := WriteLands(c, s0, s);
    t := WriteStamps(c, s0, t);
  }

  /** The state that loses data: the dump accepts the cursor and has nothing to report for byte 0. */
  lemma Lost(c: Config, t: State)
    requires ValidConfig(c) && c == Small(c.env, c.kind) && Sized(c, t) && Chunks(512, 4096) == 1
    requires t.phase == Live && t.mem == R.Mem(2, [1], map[])
    requires t.cursor.Some? && t.cursor.value.era == 1 && (t.cursor.value.gen == t.gen || !c.kind.namesHistory)
    requires t.image[0] != C.View(t.disk)[0]
    ensures !NoFalseNegative(c, t)
  {
    RangesExact([1], 1, 512, 4096, 0);
    assert Differs(c, t, 0);
  }

  lemma FullCopy(c: Config, s0: State, s: State) returns (t: State)
    requires ValidConfig(c) && c == Small(c.env, c.kind) && Sized(c, s0) && Reaches(c, s0, s) && Sized(c, s)
    requires s.phase == Live && (s.backup.Copying? || s.backup.Early?) && s.backup.pending == AllBytes(512)
    ensures t == s.(image := C.View(s.disk),
                    backup := if s.backup.Copying? then s.backup.(pending := {}) else Early({}))
    ensures Reaches(c, s0, t) && Sized(c, t)
  {
    hide Reaches, AllBytes;
    t := Next(c, s0, s, Copy(AllBytes(512)));
    forall b: nat | b < 512 ensures t.image[b] == C.View(s.disk)[b] {
      FullCopyCoversAll(512, b);
    }
    assert t.image == C.View(s.disk);
    assert AllBytes(512) - AllBytes(512) == {};
  }

  /** A first backup from its answered checkpoint on: no cursor yet, so a full copy. */
  lemma FirstBackup(c: Config, s0: State, s: State) returns (t: State)
    requires ValidConfig(c) && c == Small(c.env, c.kind) && Sized(c, s0) && Reaches(c, s0, s) && Sized(c, s)
    requires CanDump(c, s) && s.cursor == None && (s.backup.saved || !c.kind.checksSaved)
    ensures t == s.(image := C.View(s.disk), backup := NoBackup, cursor := Some(Cursor(s.gen, s.backup.era)))
    ensures Reaches(c, s0, t) && Sized(c, t)
  {
    hide Reaches, AllBytes;
    t := Next(c, s0, s, StartDump);
    t := FullCopy(c, s0, t);
    t := Next(c, s0, t, FinishBackup);
  }

  lemma LandedView(d: C.Disk)
    requires C.Valid(d) && |d.committed| == 512
    ensures C.View(C.Push(d, Entry1(), 1024))[0] == 1
  {
    C.ViewOfPush(d, Entry1(), 1024);
    assert C.Covers(Entry1(), 0);
  }

  lemma CheckpointSucceeds(c: Config, s0: State, s: State, mine: bool) returns (t: State)
    requires ValidConfig(c) && c == Small(c.env, c.kind) && Sized(c, s0) && Reaches(c, s0, s) && Sized(c, s)
    requires CanCheckpoint(c, s, mine) && |s.mem.eras| == 1
    ensures Reaches(c, s0, t) && Sized(c, t)
    ensures t.phase == Live && t.ctl == Free && t.gen == s.gen && t.mem == s.mem.(era := s.mem.era + 1)
    ensures t.disk == s.disk && t.image == s.image && t.cursor == s.cursor && t.used == s.used
    ensures mine ==> t.backup == Closed(s.mem.era, true, false, s.backup.Early?)
  {
    hide Reaches, M.Encode;
    t := Next(c, s0, s, Checkpoint(mine));
    if c.env.hasMeta {
      t := SaveSucceeds(c, s0, t);
    }
  }

  lemma EarlyCopy(c: Config, s0: State, s: State) returns (t: State)
    requires ValidConfig(c) && c == Small(c.env, c.kind) && Sized(c, s0) && Reaches(c, s0, s) && Sized(c, s)
    requires s.phase == Live && !c.kind.checkpointFirst && s.backup == NoBackup
    ensures t == s.(image := C.View(s.disk), backup := Early({})) && Reaches(c, s0, t) && Sized(c, t)
  {
    hide Reaches, AllBytes;
    t := Next(c, s0, s, StartEarly);
    t := FullCopy(c, s0, t);
  }

  /** A backup that copied before its checkpoint ends with it. */
  lemma EarlyFinish(c: Config, s0: State, s: State) returns (t: State)
    requires ValidConfig(c) && Sized(c, s0) && Reaches(c, s0, s) && Sized(c, s)
    requires s.phase == Live && s.backup == Closed(1, true, false, true)
    ensures t == s.(backup := NoBackup, cursor := Some(Cursor(s.gen, 1))) && Reaches(c, s0, t) && Sized(c, t)
  {
    hide Reaches;
    t := Next(c, s0, s, FinishBackup);
  }

  /** Copy everything, then checkpoint: a write between the two is in neither. */
  lemma CopyFirstLoses(env: Env, kind: Kind) returns (t: State)
    requires !kind.checkpointFirst
    ensures ValidConfig(Small(env, kind)) && Sized(Small(env, kind), Start())
    ensures Reaches(Small(env, kind), Start(), t) && Sized(Small(env, kind), t) && !NoFalseNegative(Small(env, kind), t)
  {
    hide Reaches, M.Encode, AllBytes, C.Push, Enabled, Apply, NoFalseNegative;
    var c, s0 := Small(env, kind), Start();
    SmallIsValid(env, kind);
    t := GoLive(c);
    t := EarlyCopy(c, s0, t);
    var d := t.disk;
    t := WriteOnes(c, s0, t);
    LandedView(d);
    t := CheckpointSucceeds(c, s0, t, true);
    t := EarlyFinish(c, s0, t);
    Lost(c, t);
  }

  /** Trust a checkpoint that could not be saved: after a crash its era number is handed out again. */
  lemma TrustingLoses(env: Env, kind: Kind) returns (t: State)
    requires kind.checkpointFirst && env.hasMeta && !kind.checksSaved
    ensures ValidConfig(Small(env, kind)) && Sized(Small(env, kind), Start())
    ensures Reaches(Small(env, kind), Start(), t) && Sized(Small(env, kind), t) && !NoFalseNegative(Small(env, kind), t)
  {
    hide Reaches, M.Encode, AllBytes, C.Push;
    var c, s0 := Small(env, kind), Start();
    SmallIsValid(env, kind);
    t := GoLive(c);
    t := UnsavedBackup(c, s0, t);
    MarkerLoads();
    t := ComeBack(c, s0, t);
    var d := t.disk;
    t := WriteOnes(c, s0, t);
    LandedView(d);
    t := CheckpointSucceeds(c, s0, t, false);
    Lost(c, t);
  }

  /** A backup whose checkpoint closed era 1 but could not be saved. */
  lemma UnsavedBackup(c: Config, s0: State, s: State) returns (t: State)
    requires ValidConfig(c) && c == Small(c.env, c.kind) && Sized(c, s0) && Reaches(c, s0, s) && Sized(c, s)
    requires c.env.hasMeta && !c.kind.checksSaved && CanCheckpoint(c, s, true) && s.backup == NoBackup
    requires s.cursor == None && s.mem.era == 1 && s.disk == C.Disk(Zero(), [])
    ensures t == s.(mem := s.mem.(era := 2), image := Zero(), cursor := Some(Cursor(s.gen, 1)))
    ensures Reaches(c, s0, t) && Sized(c, t)
  {
    hide Reaches;
    t := Next(c, s0, s, Checkpoint(true));
    t := Next(c, s0, t, SaveFail);
    t := Next(c, s0, t, Flush);
    t := FirstBackup(c, s0, t);
  }

  /** A crash and the recovery from the unclean attach marker. */
  lemma ComeBack(c: Config, s0: State, s: State) returns (t: State)
    requires ValidConfig(c) && c == Small(c.env, c.kind) && Sized(c, s0) && Reaches(c, s0, s) && Sized(c, s)
    requires c.env.hasMeta && Chunks(512, 4096) == 1
    requires s.main.Some? && LoadMain(c, s.main.value) == M.Accepted(M.History(4096, 512, 0, 1, [0]), false)
    ensures Reaches(c, s0, t) && Sized(c, t)
    ensures t.phase == Live && t.ctl == Free && t.gen == 0 && t.mem == R.Mem(1, [1], map[])
    ensures t.disk == s.disk && t.image == s.image && t.cursor == s.cursor && t.backup == NoBackup
  {
    hide Reaches, M.Encode, LoadMain;
    t := Next(c, s0, s, Crash(None));
    t := AttachAgain(c, s0, t);
    t := SaveSucceeds(c, s0, t);
  }

  lemma MarkerLoads()
    requires Chunks(512, 4096) == 1
    ensures var h := M.History(4096, 512, 0, 1, [0]); M.Load(M.Encode(h, false), 512, 4096) == M.Accepted(h, false)
  {
    var h := M.History(4096, 512, 0, 1, [0]);
    SmallIsValid(Env(true, true), Kind(true, true, true, true));
    M.LoadOfSave(h, false);
  }

  lemma AttachAgain(c: Config, s0: State, s: State) returns (t: State)
    requires ValidConfig(c) && c == Small(c.env, c.kind) && Sized(c, s0) && Reaches(c, s0, s) && Sized(c, s)
    requires c.env.hasMeta && s.phase == Offline && s.main.Some?
    requires LoadMain(c, s.main.value) == M.Accepted(M.History(4096, 512, 0, 1, [0]), false)
    ensures t == s.(phase := Attaching, gen := 0, mem := R.Mem(1, [1], map[]), used := s.used + {0}, ctl := Saving(Marker, Create))
    ensures Reaches(c, s0, t) && Sized(c, t)
  {
    hide Reaches, LoadMain;
    t := Next(c, s0, s, AttachLoad);
    assert t.mem.eras == [1];
  }

  lemma PushFits()
    ensures C.Push(C.Disk(Zero(), []), Entry1(), 1024) == C.Disk(Zero(), [Entry1()])
  {
    assert [] + [Entry1()] == [Entry1()];
    assert C.CacheBytes([Entry1()]) == 512 + C.CacheBytes([]);
  }

  lemma DropAll(c: Config)
    requires ValidConfig(c) && c == Small(c.env, c.kind)
    ensures var d := C.Disk(Zero(), [Entry1()]);
      var keep := [C.Constant(false, C.Blocks(512, 512))];
      C.Choices(d.cache, 512, keep) && C.PowerLoss(d, 512, keep) == C.Disk(Zero(), [])
  {
    var e, k := Entry1(), C.Constant(false, C.Blocks(512, 512));
    C.PutBlocksUniform(Zero(), e, 512, false);
    assert [e][1..] == [] && [k][1..] == [];
    assert C.SurvivingImage(Zero(), [e], 512, [k]) == C.SurvivingImage(C.PutBlocks(Zero(), e, 512, k, |k|), [], 512, []);
  }

  /** A power loss that takes the whole cache. */
  lemma CacheIsLost(c: Config, s0: State, s: State) returns (t: State)
    requires ValidConfig(c) && c == Small(c.env, c.kind) && Sized(c, s0) && Reaches(c, s0, s) && Sized(c, s)
    requires c.env.lossy && s.disk == C.Disk(Zero(), [Entry1()])
    ensures t == s.(disk := C.Disk(Zero(), [])) && Reaches(c, s0, t) && Sized(c, t)
  {
    hide Reaches, C.PowerLoss;
    DropAll(c);
    t := Next(c, s0, s, DiskPowerLoss([C.Constant(false, C.Blocks(512, 512))]));
  }

  /** Do not flush above a lossy disk: what was copied is gone from the device after a power loss. */
  lemma UnflushedLoses(env: Env, kind: Kind) returns (t: State)
    requires kind.checkpointFirst && env.lossy && !kind.flushes
    ensures ValidConfig(Small(env, kind)) && Sized(Small(env, kind), Start())
    ensures Reaches(Small(env, kind), Start(), t) && Sized(Small(env, kind), t) && !NoFalseNegative(Small(env, kind), t)
  {
    hide Reaches, M.Encode, AllBytes, C.Push, Enabled, Apply, NoFalseNegative;
    var c, s0 := Small(env, kind), Start();
    SmallIsValid(env, kind);
    t := GoLive(c);
    t := WriteOnes(c, s0, t);
    LandedView(s0.disk);
    PushFits();
    t := CheckpointSucceeds(c, s0, t, true);
    t := FirstBackup(c, s0, t);
    t := CacheIsLost(c, s0, t);
    Lost(c, t);
  }

  /** A backup of a device that nobody has written, its checkpoint saved if there is where to save it. */
  lemma IdleBackup(c: Config, s0: State, s: State) returns (t: State)
    requires ValidConfig(c) && c == Small(c.env, c.kind) && Sized(c, s0) && Reaches(c, s0, s) && Sized(c, s)
    requires c.kind.checkpointFirst && CanCheckpoint(c, s, true) && s.backup == NoBackup
    requires s.cursor == None && s.mem.era == 1 && |s.mem.eras| == 1 && s.disk == C.Disk(Zero(), [])
    ensures t.phase == Live && t.disk == s.disk && t.image == Zero() && t.cursor == Some(Cursor(s.gen, 1))
    ensures t.ctl == Free && t.gen == s.gen && t.mem == s.mem.(era := 2) && t.backup == NoBackup
    ensures t.used == s.used && Reaches(c, s0, t) && Sized(c, t)
  {
    hide Reaches, M.Encode;
    t := CheckpointSucceeds(c, s0, s, true);
    t := Next(c, s0, t, Flush);
    t := FirstBackup(c, s0, t);
  }

  /** The daemon dies and the metadata file is deleted: the next attach starts another history at era 1. */
  lemma StartOver(c: Config, s0: State, s: State, gen: nat) returns (t: State)
    requires ValidConfig(c) && c == Small(c.env, c.kind) && Sized(c, s0) && Reaches(c, s0, s) && Sized(c, s)
    requires Chunks(512, 4096) == 1 && gen < U64_SPAN && gen !in s.used
    ensures Reaches(c, s0, t) && Sized(c, t)
    ensures t.phase == Live && t.ctl == Free && t.gen == gen && t.mem == R.Mem(1, [0], map[])
    ensures t.disk == s.disk && t.image == s.image && t.cursor == s.cursor && t.backup == NoBackup
  {
    hide Reaches, M.Encode;
    t := Next(c, s0, s, Crash(None));
    t := Next(c, s0, t, LoseMeta);
    assert seq(1, i => 0) == [0];
    t := Next(c, s0, t, AttachFresh(gen));
    assert t.mem.eras == [0];
    if c.env.hasMeta {
      t := SaveSucceeds(c, s0, t);
    }
  }

  /** Ask by era alone: in another history the same number stands for another checkpoint. */
  lemma BareCursorLoses(env: Env, kind: Kind) returns (t: State)
    requires kind.checkpointFirst && !kind.namesHistory
    ensures ValidConfig(Small(env, kind)) && Sized(Small(env, kind), Start())
    ensures Reaches(Small(env, kind), Start(), t) && Sized(Small(env, kind), t) && !NoFalseNegative(Small(env, kind), t)
  {
    hide Reaches, M.Encode, AllBytes, C.Push;
    var c, s0 := Small(env, kind), Start();
    SmallIsValid(env, kind);
    t := GoLive(c);
    t := IdleBackup(c, s0, t);
    t := StartOver(c, s0, t, 1);
    var d := t.disk;
    t := WriteOnes(c, s0, t);
    LandedView(d);
    t := CheckpointSucceeds(c, s0, t, false);
    Lost(c, t);
  }

  /** The promise is about something: a sound consumer reaches states where its image is out of date. */
  lemma BackupFallsBehind(env: Env, kind: Kind) returns (t: State)
    requires kind.checkpointFirst
    ensures ValidConfig(Small(env, kind)) && Sized(Small(env, kind), Start())
    ensures Reaches(Small(env, kind), Start(), t) && Sized(Small(env, kind), t)
    ensures t.phase == Live && DumpAccepts(Small(env, kind), t) && Differs(Small(env, kind), t, 0)
  {
    hide Reaches, M.Encode, AllBytes, C.Push;
    var c, s0 := Small(env, kind), Start();
    SmallIsValid(env, kind);
    t := GoLive(c);
    t := IdleBackup(c, s0, t);
    var d := t.disk;
    t := WriteLands(c, s0, t);
    LandedView(d);
  }

  // ---------------------------------------------------------------- the exact condition

  /** Consumers of kind `kind` never lose a write on any device in environment `env`, in any run. */
  ghost predicate ContractHolds(env: Env, kind: Kind) {
    forall c: Config, s: State, run: seq<Action> ::
      ValidConfig(c) && c.env == env && c.kind == kind && Init(c, s) && ValidRun(c, s, run) ==>
        NoFalseNegative(c, Run(c, s, run))
  }

  lemma LosingRun(c: Config, t: State)
    requires ValidConfig(c) && Init(c, Start()) && Reaches(c, Start(), t) && Sized(c, t) && !NoFalseNegative(c, t)
    ensures !ContractHolds(c.env, c.kind)
  {
    var run :| ValidRun(c, Start(), run) && Run(c, Start(), run) == t;
  }

  /**
   The contract holds for a kind of consumer in an environment exactly when the consumer takes its
   checkpoint first, minds `meta_saved` where there is a metadata file, flushes where the disk below
   can lose power, and passes the generation with its cursor.
   */
  lemma ExactlyTheSoundConsumers(env: Env, kind: Kind)
    ensures ContractHolds(env, kind)
       <==> kind.checkpointFirst && (env.hasMeta ==> kind.checksSaved) && (env.lossy ==> kind.flushes) && kind.namesHistory
  {
    if kind.checkpointFirst && (env.hasMeta ==> kind.checksSaved) && (env.lossy ==> kind.flushes) && kind.namesHistory {
      forall c: Config, s: State, run: seq<Action> |
        ValidConfig(c) && c.env == env && c.kind == kind && Init(c, s) && ValidRun(c, s, run)
        ensures NoFalseNegative(c, Run(c, s, run))
      {
        NoFalseNegatives(c, s, run);
      }
    } else {
      var t;
      if !kind.checkpointFirst {
        t := CopyFirstLoses(env, kind);
      } else if env.hasMeta && !kind.checksSaved {
        t := TrustingLoses(env, kind);
      } else if !kind.namesHistory {
        t := BareCursorLoses(env, kind);
      } else {
        t := UnflushedLoses(env, kind);
      }
      LosingRun(Small(env, kind), t);
    }
  }
}
