/** A backup that no request races is an exact copy, whatever else goes on around it. */
module QuietBackup {
  import opened System
  import opened Contract
  import M = MetaCodec
  import C = CachedDisk
  import R = Race

  /** Any step but one of a request, the end of the daemon, or the end of the backup. */
  predicate Quiet(a: Action) {
    !a.Io? && !a.Land? && !a.Crash? && !a.Detach? && !a.Abandon? && !a.FinishBackup?
  }

  ghost predicate AllQuiet(run: seq<Action>) {
    forall i :: 0 <= i < |run| ==> Quiet(run[i])
  }

  /** Every request has been stamped, or there is none. */
  ghost predicate NothingOpen(m: R.Mem) {
    forall id :: id in m.ios ==> m.ios[id].pc.Stamped?
  }

  /** The backup whose checkpoint closed era `n` is under way. */
  predicate UnderWay(s: State, n: nat) {
    match s.backup
    case Waiting(_) => s.ctl.Saving? && s.ctl.job.Ckpt? && s.ctl.job.mine && s.ctl.job.closed == n
    case Closed(e, _, _, _) => e == n
    case Scanning(e, _) => e == n
    case Copying(e, _, _) => e == n
    case _ => false
  }

  /** No chunk has become newer than the era the backup closed. */
  ghost predicate Settled(s: State, n: nat) {
    && s.phase == Live && UnderWay(s, n) && NothingOpen(s.mem)
    && forall i :: 0 <= i < |s.mem.eras| ==> s.mem.eras[i] <= n
  }

  lemma QuietStep(c: Config, s: State, a: Action, n: nat)
    requires ValidConfig(c) && Inv(c, s) && Settled(s, n) && Enabled(c, s, a) && Quiet(a)
    ensures Settled(Apply(c, s, a), n)
  {
    hide M.Encode, M.Load, C.Push, C.PowerLoss, C.WriteBack, MainInv, MemInv, GensInv, SaveInv;
  }

  lemma {:induction false} QuietRun(c: Config, s: State, run: seq<Action>, n: nat)
    requires ValidConfig(c) && Sound(c) && Inv(c, s) && Settled(s, n) && ValidRun(c, s, run) && AllQuiet(run)
    ensures Inv(c, Run(c, s, run)) && Settled(Run(c, s, run), n)
    decreases |run|
  {
    hide Inv, Settled;
    if run != [] {
      InvIsSized(c, s);
      StepKeepsSize(c, s, run[0]);
      StepKeepsInv(c, s, run[0]);
      QuietStep(c, s, run[0], n);
      QuietRun(c, Apply(c, s, run[0]), run[1..], n);
    }
  }

  lemma CheckpointSettles(c: Config, s: State)
    requires ValidConfig(c) && Sound(c) && Inv(c, s) && Enabled(c, s, Checkpoint(true)) && NothingOpen(s.mem)
    ensures Settled(Apply(c, s, Checkpoint(true)), s.mem.era)
  {}

  /** With nothing newer than the closed era and nothing left to copy, no byte can differ. */
  lemma SettledIsExact(c: Config, s: State, n: nat)
    requires ValidConfig(c) && Sound(c) && Inv(c, s) && Settled(s, n) && Enabled(c, s, FinishBackup)
    ensures var e := Apply(c, s, FinishBackup); C.Valid(e.disk) && e.image == C.View(e.disk)
  {
    hide MainInv, MemInv, GensInv, CtlInv;
    forall b: nat | b < c.shape.size ensures s.image[b] == C.View(s.disk)[b] {
      assert !R.Above(c.shape, s.mem, n, b);
      assert !Differs(c, s, b);
    }
  }

  /**
   In every reachable state with no request open, let the consumer take its checkpoint and, with no
   request in between, bring the backup to its end: other checkpoints, flushes, writebacks, failing
   saves and power losses may happen meanwhile, the dump may be refused or reported, the cursor adopted
   or not. When the backup finishes, the image is the device, byte for byte.
   */
  lemma BackupIsExact(c: Config, s0: State, before: seq<Action>, during: seq<Action>)
    requires ValidConfig(c) && Sound(c) && Init(c, s0) && ValidRun(c, s0, before)
    requires var s := Run(c, s0, before);
      Enabled(c, s, Checkpoint(true)) && NothingOpen(s.mem)
    requires var t := Apply(c, Run(c, s0, before), Checkpoint(true));
      Sized(c, t) && ValidRun(c, t, during) && AllQuiet(during) && Enabled(c, Run(c, t, during), FinishBackup)
    ensures var e := Apply(c, Run(c, Apply(c, Run(c, s0, before), Checkpoint(true)), during), FinishBackup);
      C.Valid(e.disk) && e.image == C.View(e.disk)
  {
    hide Inv, Settled, Enabled, Apply, Run, ValidRun;
    InitKeepsInv(c, s0);
    RunKeepsInv(c, s0, before);
    var s := Run(c, s0, before);
    var t := Apply(c, s, Checkpoint(true));
    StepKeepsInv(c, s, Checkpoint(true));
    CheckpointSettles(c, s);
    QuietRun(c, t, during, s.mem.era);
    SettledIsExact(c, Run(c, t, during), s.mem.era);
  }
}
