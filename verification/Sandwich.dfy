/**
 The era layer stacked on the cached disk, for any consumer: from an honest flush on, whatever a power
 loss of the disk below takes back lies in chunks that the map reports, or under an open request.
 */
module Sandwich {
  import opened System
  import opened Contract
  import C = CachedDisk
  import M = MetaCodec
  import R = Race

  /** The daemon lives through the step. */
  predicate KeepsDaemon(a: Action) { !a.Crash? && !a.Detach? }

  /** Everything in the cache is above the closed era `n`. */
  ghost predicate StackInv(c: Config, s: State, n: nat)
    requires ValidConfig(c)
  {
    && Sized(c, s) && s.phase == Live
    && (s.ctl.Saving? ==> s.ctl.job.Ckpt?)
    && R.Inv(c.shape, s.mem) && n < s.mem.era
    && CachedAbove(c, s.disk, s.mem, n)
  }

  lemma StepKeepsStack(c: Config, s: State, n: nat, a: Action)
    requires ValidConfig(c) && StackInv(c, s, n) && Enabled(c, s, a) && KeepsDaemon(a)
    ensures StackInv(c, Apply(c, s, a), n)
  {
    hide M.Encode, C.Push, C.SurvivingImage;
    var s' := Apply(c, s, a);
    StepKeepsSize(c, s, a);
    match a {
      case Io(step) => MemStepKeepsAbove(c, s.mem, step);
      case Checkpoint(mine) =>
        assert s'.mem == R.Apply(c.shape, s.mem, R.Close);
        MemStepKeepsAbove(c, s.mem, R.Close);
      case Land(id, off, data) =>
        var e := C.Entry(off, data);
        forall b: nat | b < c.shape.size && C.Cached(s'.disk, b) ensures R.Above(c.shape, s.mem, n, b) {
          C.CachedAfterPush(s.disk, e, c.cap, b);
          if C.Covers(e, b) {
            LandedIsOpen(c, s, id, e, n, b);
          }
        }
      case DiskWriteBack =>
        forall b: nat | C.Cached(s'.disk, b) ensures C.Cached(s.disk, b) {
          var i :| 0 <= i < |s'.disk.cache| && C.Covers(s'.disk.cache[i], b);
          assert C.Covers(s.disk.cache[i + 1], b);
        }
      case _ =>
    }
  }

  ghost predicate DaemonLives(run: seq<Action>) {
    forall i :: 0 <= i < |run| ==> KeepsDaemon(run[i])
  }

  lemma {:induction false} RunKeepsStack(c: Config, s: State, n: nat, run: seq<Action>)
    requires ValidConfig(c) && StackInv(c, s, n) && ValidRun(c, s, run) && DaemonLives(run)
    ensures StackInv(c, Run(c, s, run), n)
    decreases |run|
  {
    if run != [] {
      StepKeepsSize(c, s, run[0]);
      StepKeepsStack(c, s, n, run[0]);
      RunKeepsStack(c, Apply(c, s, run[0]), n, run[1..]);
    }
  }

  /**
   In any reachable state of a live device an honest flush runs while era `n` is already closed. Then,
   after any further requests, checkpoints, dumps, backups, saves and power losses under the living
   daemon, every byte that one more power loss changes is reported by a dump since `n` or lies under an
   unfinished request.
   */
  lemma LostWritesAreReported(c: Config, s0: State, before: seq<Action>, n: nat, run: seq<Action>, keep: seq<seq<bool>>,
                              b: nat)
    requires ValidConfig(c) && Init(c, s0) && ValidRun(c, s0, before)
    requires var s := Run(c, s0, before);
      && s.phase == Live && n < s.mem.era && Sized(c, DoFlush(c, s))
      && ValidRun(c, DoFlush(c, s), run) && DaemonLives(run)
      && C.Choices(Run(c, DoFlush(c, s), run).disk.cache, c.lbs, keep) && b < c.shape.size
    ensures var e := Run(c, DoFlush(c, Run(c, s0, before)), run);
      C.View(C.PowerLoss(e.disk, c.lbs, keep))[b] != C.View(e.disk)[b] ==>
        Reported(c, e, n, b) || R.Open(e.mem, b)
  {
    hide C.SurvivingImage, Run, ValidRun;
    InitKeepsInv(c, s0);
    RunKeepsInv(c, s0, before);
    var f := DoFlush(c, Run(c, s0, before));
    assert forall x: nat :: !C.Cached(f.disk, x);
    RunKeepsStack(c, f, n, run);
    var e := Run(c, f, run);
    if !C.Cached(e.disk, b) {
      C.PowerLossLocal(e.disk, c.lbs, keep, b);
    } else {
      AboveIsReported(c, e, n, b);
    }
  }
}
