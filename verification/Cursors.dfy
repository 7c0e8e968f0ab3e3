/**
 The promise about cursors, in terms of what happens in a run alone: a checkpoint closes an era and is
 saved, bytes land after it, and whatever else goes on, a cursor of that checkpoint finds them.
 */
module Cursors {
  import opened System
  import opened Contract
  import opened Runs
  import M = MetaCodec
  import C = CachedDisk
  import R = Race

  /** The step ends a save under way. */
  predicate Settles(a: Action) { a.SaveRename? || a.SaveFail? || a.Crash? }

  predicate Unsettled(run: seq<Action>) {
    forall i :: 0 <= i < |run| ==> !Settles(run[i])
  }

  /** A byte lands at `b` in the run. */
  predicate Lands(run: seq<Action>, b: nat) {
    exists i :: 0 <= i < |run| && LandsAt(run[i], b)
  }

  predicate LandsAt(a: Action, b: nat) { a.Land? && a.off <= b < a.off + |a.data| }

  /**
   In `s` a checkpoint closes the current era; `during` runs until its save is renamed (a device without
   a metadata file has nothing to save), and `after` from there to `e`.
   */
  ghost predicate CheckpointSaved(c: Config, s: State, mine: bool, during: seq<Action>, after: seq<Action>, e: State)
    requires ValidConfig(c) && Sized(c, s)
  {
    Enabled(c, s, Checkpoint(mine)) && (StepKeepsSize(c, s, Checkpoint(mine));
      var t := Apply(c, s, Checkpoint(mine));
      ValidRun(c, t, during) && Unsettled(during) &&
        var u := Run(c, t, during);
        if c.env.hasMeta then
          Enabled(c, u, SaveRename) && (StepKeepsSize(c, u, SaveRename);
            ValidRun(c, Apply(c, u, SaveRename), after) && Run(c, Apply(c, u, SaveRename), after) == e)
        else ValidRun(c, u, after) && Run(c, u, after) == e)
  }

  // ---------------------------------------------------------------- what the state remembers of it

  /** The save of the checkpoint that closed era `n` is under way, and remembers `b`. */
  ghost predicate InFlight(s: State, g: nat, n: nat) {
    s.phase == Live && s.gen == g && s.ctl.Saving? && s.ctl.job.Ckpt? && s.ctl.job.closed == n
  }

  ghost predicate Remembers(s: State, g: nat, n: nat, b: nat) {
    exists i :: 0 <= i < |s.grants| && s.grants[i].gen == g && s.grants[i].era == n && b in s.grants[i].touched
  }

  lemma FlightStep(c: Config, s: State, a: Action, g: nat, n: nat)
    requires ValidConfig(c) && Sized(c, s) && Enabled(c, s, a) && !Settles(a) && InFlight(s, g, n)
    ensures InFlight(Apply(c, s, a), g, n)
    ensures forall b: nat :: b in s.ctl.job.touched || LandsAt(a, b) ==> b in Apply(c, s, a).ctl.job.touched
  {
    hide M.Encode, M.Load, C.Push, C.PowerLoss, C.WriteBack;
  }

  lemma {:induction false} FlightRun(c: Config, s: State, run: seq<Action>, g: nat, n: nat)
    requires ValidConfig(c) && Sized(c, s) && ValidRun(c, s, run) && Unsettled(run) && InFlight(s, g, n)
    ensures InFlight(Run(c, s, run), g, n)
    ensures forall b: nat :: b in s.ctl.job.touched || Lands(run, b) ==> b in Run(c, s, run).ctl.job.touched
    decreases |run|
  {
    hide Enabled, Apply, InFlight, LandsAt;
    if run != [] {
      StepKeepsSize(c, s, run[0]);
      FlightStep(c, s, run[0], g, n);
      FlightRun(c, Apply(c, s, run[0]), run[1..], g, n);
      forall b: nat | Lands(run, b) ensures LandsAt(run[0], b) || Lands(run[1..], b) {
        LandsSplit(run, b);
      }
    }
  }

  lemma LandsSplit(run: seq<Action>, b: nat)
    requires run != []
    ensures Lands(run, b) <==> LandsAt(run[0], b) || Lands(run[1..], b)
  {
    if Lands(run, b) {
      var i :| 0 <= i < |run| && LandsAt(run[i], b);
      assert i > 0 ==> LandsAt(run[1..][i - 1], b);
    }
    if Lands(run[1..], b) {
      var i :| 0 <= i < |run[1..]| && LandsAt(run[1..][i], b);
      assert LandsAt(run[i + 1], b);
    }
  }

  lemma GrantStep(c: Config, s: State, a: Action, i: nat)
    requires ValidConfig(c) && Sized(c, s) && Enabled(c, s, a) && i < |s.grants|
    ensures var s' := Apply(c, s, a);
      && i < |s'.grants| && s'.grants[i].gen == s.grants[i].gen && s'.grants[i].era == s.grants[i].era
      && forall b: nat :: b in s.grants[i].touched || LandsAt(a, b) ==> b in s'.grants[i].touched
  {
    hide M.Encode, M.Load, C.Push, C.PowerLoss, C.WriteBack;
  }

  lemma {:induction false} GrantRun(c: Config, s: State, run: seq<Action>, i: nat)
    requires ValidConfig(c) && Sized(c, s) && ValidRun(c, s, run) && i < |s.grants|
    ensures var e := Run(c, s, run);
      && i < |e.grants| && e.grants[i].gen == s.grants[i].gen && e.grants[i].era == s.grants[i].era
      && forall b: nat :: b in s.grants[i].touched || Lands(run, b) ==> b in e.grants[i].touched
    decreases |run|
  {
    hide Enabled, Apply, LandsAt;
    if run != [] {
      StepKeepsSize(c, s, run[0]);
      GrantStep(c, s, run[0], i);
      GrantRun(c, Apply(c, s, run[0]), run[1..], i);
      forall b: nat | Lands(run, b) ensures LandsAt(run[0], b) || Lands(run[1..], b) {
        LandsSplit(run, b);
      }
    }
  }

  lemma CheckpointBegins(c: Config, s: State, mine: bool)
    requires ValidConfig(c) && Sized(c, s) && Enabled(c, s, Checkpoint(mine))
    ensures var t := Apply(c, s, Checkpoint(mine));
      if c.env.hasMeta then InFlight(t, s.gen, s.mem.era)
      else |t.grants| > 0 && t.grants[|t.grants| - 1] == Grant(s.gen, s.mem.era, {})
  {}

  lemma RenameGrants(c: Config, s: State, g: nat, n: nat)
    requires ValidConfig(c) && Sized(c, s) && Enabled(c, s, SaveRename) && InFlight(s, g, n)
    ensures var v := Apply(c, s, SaveRename);
      |v.grants| > 0 && v.grants[|v.grants| - 1] == Grant(g, n, s.ctl.job.touched)
  {
    hide M.Encode;
  }

  /** A saved checkpoint is remembered with its era, and with every byte that landed after it closed that. */
  lemma SavedIsRemembered(c: Config, s: State, mine: bool, during: seq<Action>, after: seq<Action>, e: State) returns (i: nat)
    requires ValidConfig(c) && Sized(c, s) && CheckpointSaved(c, s, mine, during, after, e)
    ensures i < |e.grants| && e.grants[i].gen == s.gen && e.grants[i].era == s.mem.era
    ensures forall b: nat :: Lands(during, b) || Lands(after, b) ==> b in e.grants[i].touched
  {
    hide Enabled, Apply, InFlight, Lands, Run, ValidRun;
    StepKeepsSize(c, s, Checkpoint(mine));
    CheckpointBegins(c, s, mine);
    var t := Apply(c, s, Checkpoint(mine));
    var u := Run(c, t, during);
    if c.env.hasMeta {
      FlightRun(c, t, during, s.gen, s.mem.era);
      StepKeepsSize(c, u, SaveRename);
      RenameGrants(c, u, s.gen, s.mem.era);
      var v := Apply(c, u, SaveRename);
      i := |v.grants| - 1;
      GrantRun(c, v, after, i);
    } else {
      i := |t.grants| - 1;
      GrantRun(c, t, during, i);
      GrantRun(c, u, after, i);
    }
  }

  lemma EndKeepsInv(c: Config, s: State, mine: bool, during: seq<Action>, after: seq<Action>, e: State)
    requires ValidConfig(c) && Contract.Inv(c, s) && Sized(c, s) && CheckpointSaved(c, s, mine, during, after, e)
    ensures Contract.Inv(c, e)
  {
    hide Enabled, Apply, Contract.Inv;
    Contract.StepKeepsInv(c, s, Checkpoint(mine));
    StepKeepsSize(c, s, Checkpoint(mine));
    var t := Apply(c, s, Checkpoint(mine));
    Contract.RunKeepsInv(c, t, during);
    var u := Run(c, t, during);
    if c.env.hasMeta {
      Contract.StepKeepsInv(c, u, SaveRename);
      StepKeepsSize(c, u, SaveRename);
      Contract.RunKeepsInv(c, Apply(c, u, SaveRename), after);
    } else {
      Contract.RunKeepsInv(c, u, after);
    }
  }

  lemma ReachedKeepsInv(c: Config, s0: State, s: State)
    requires ValidConfig(c) && Init(c, s0) && Reaches(c, s0, s)
    ensures Contract.Inv(c, s) && Sized(c, s)
  {
    hide Contract.Inv;
    var run :| ValidRun(c, s0, run) && Run(c, s0, run) == s;
    InitKeepsInv(c, s0);
    Contract.RunKeepsInv(c, s0, run);
  }

  // ---------------------------------------------------------------- the promise

  /**
   No false negatives for cursors, whatever the consumer does. In a reachable state a checkpoint closes
   era n of the current history and is saved. Then, however the run goes on, in every live state of that
   history n is a closed era, and every byte that landed after the checkpoint closed it (while its save
   was still under way, or later) is reported since n or lies under an unfinished request.
   */
  lemma NothingLandedIsMissed(c: Config, s0: State, s: State, mine: bool, during: seq<Action>, after: seq<Action>, e: State,
                              b: nat)
    requires ValidConfig(c) && Init(c, s0) && Reaches(c, s0, s) && Sized(c, s)
    requires CheckpointSaved(c, s, mine, during, after, e) && e.phase == Live && e.gen == s.gen
    ensures s.mem.era < e.mem.era
    ensures (Lands(during, b) || Lands(after, b)) && b < c.shape.size ==>
      Reported(c, e, s.mem.era, b) || R.Open(e.mem, b)
  {
    hide Contract.Inv, Lands, CheckpointSaved, Reported;
    ReachedKeepsInv(c, s0, s);
    EndKeepsInv(c, s, mine, during, after, e);
    var i := SavedIsRemembered(c, s, mine, during, after, e);
    InvGivesCursors(c, e);
  }

  /** The same of a clean file, once the device is gone: its eras alone are above n wherever something landed. */
  lemma CleanFileMissesNothing(c: Config, s0: State, s: State, mine: bool, during: seq<Action>, after: seq<Action>, e: State,
                               b: nat)
    requires ValidConfig(c) && Init(c, s0) && Reaches(c, s0, s) && Sized(c, s)
    requires CheckpointSaved(c, s, mine, during, after, e)
    requires e.main.Some? && LoadMain(c, e.main.value).Accepted? && LoadMain(c, e.main.value).clean
    requires LoadMain(c, e.main.value).history.generation == s.gen
    ensures var h := LoadMain(c, e.main.value).history;
      s.mem.era < h.era &&
      ((Lands(during, b) || Lands(after, b)) && b < c.shape.size ==> R.Newer(c.shape, h.eras, s.mem.era, b))
  {
    hide Lands, CheckpointSaved, M.Load;
    ReachedKeepsInv(c, s0, s);
    EndKeepsInv(c, s, mine, during, after, e);
    var i := SavedIsRemembered(c, s, mine, during, after, e);
    assert FileInv(c, WorldOf(e), LoadMain(c, e.main.value), e.phase, e.gen, e.used);
  }

  /** And of an unclean one: recovery continues at an era above n with every chunk above n. */
  lemma RecoveryIsAbove(c: Config, s0: State, s: State, mine: bool, during: seq<Action>, after: seq<Action>, e: State,
                        chunk: nat)
    requires ValidConfig(c) && Init(c, s0) && Reaches(c, s0, s) && Sized(c, s)
    requires CheckpointSaved(c, s, mine, during, after, e) && CanAttachLoad(c, e)
    requires var l := LoadMain(c, e.main.value);
      !l.clean && l.history.generation == s.gen && chunk < |l.history.eras|
    ensures var m := DoAttachLoad(c, e).mem;
      s.mem.era < m.era && chunk < |m.eras| && m.eras[chunk] > s.mem.era
  {
    hide Lands, CheckpointSaved, M.Load;
    ReachedKeepsInv(c, s0, s);
    EndKeepsInv(c, s, mine, during, after, e);
    var i := SavedIsRemembered(c, s, mine, during, after, e);
    assert FileInv(c, WorldOf(e), LoadMain(c, e.main.value), e.phase, e.gen, e.used);
  }
}
