/** What every reachable state says about the metadata file. */
module Recovery {
  import opened System
  import opened Contract
  import M = MetaCodec
  import C = CachedDisk
  import R = Race

  /**
   Saves are atomic. Of all steps only the rename of a save, the loss of the file and its rotting touch
   the metadata file, and what the rename puts there is the complete snapshot that was being saved,
   which loads back as itself, marked clean exactly when it is the final save of a detach.
   */
  lemma OnlyCompleteFiles(c: Config, s: State, a: Action)
    requires ValidConfig(c) && Contract.Inv(c, s) && Enabled(c, s, a) && !a.LoseMeta? && !a.Rot?
    ensures var s' := Apply(c, s, a);
      || s'.main == s.main
      || (a == SaveRename && s'.main.Some? && s.ctl.Saving? && s.ctl.pc.Synced?
          && LoadMain(c, s'.main.value) == M.Accepted(s.ctl.pc.h, s.ctl.job.Final?)
          && s.ctl.pc.h.generation == s.gen && s.ctl.pc.h.era == s.mem.era)
  {
    hide Apply, Enabled, LoadMain, SavedBytes;
    if a == SaveRename {
      RenamePublishes(c, s);
    } else {
      MainUntouched(c, s, a);
    }
  }

  lemma MainUntouched(c: Config, s: State, a: Action)
    requires ValidConfig(c) && Sized(c, s) && Enabled(c, s, a) && !a.LoseMeta? && !a.Rot? && !a.SaveRename?
    ensures Apply(c, s, a).main == s.main
  {
    hide M.Encode, M.Load, C.Push, C.PowerLoss, R.Apply;
  }

  lemma RenamePublishes(c: Config, s: State)
    requires ValidConfig(c) && Contract.Inv(c, s) && Enabled(c, s, SaveRename)
    ensures var s' := Apply(c, s, SaveRename);
      && s'.main.Some? && s.ctl.Saving? && s.ctl.pc.Synced?
      && LoadMain(c, s'.main.value) == M.Accepted(s.ctl.pc.h, s.ctl.job.Final?)
      && s.ctl.pc.h.generation == s.gen && s.ctl.pc.h.era == s.mem.era
  {
    hide M.Encode, M.Load;
    SavedFileLoads(c, WorldOf(s), s.ctl.job, s.phase, s.gen, s.mem, s.used, s.ctl.pc.h);
  }

  // ---------------------------------------------------------------- the meaning of "clean"

  ghost predicate LoadsClean(c: Config, s: State, h: M.History) {
    s.main.Some? && LoadMain(c, s.main.value) == M.Accepted(h, true)
  }

  predicate NothingLands(run: seq<Action>) {
    forall i :: 0 <= i < |run| ==> !run[i].Land?
  }

  /** While a file that loads clean is there, no request can change a byte. */
  lemma NoLandOnClean(c: Config, s: State, a: Action, h: M.History)
    requires ValidConfig(c) && Contract.Inv(c, s) && LoadsClean(c, s, h) && Enabled(c, s, a)
    ensures !a.Land?
  {
    hide M.Load;
  }

  /** Somewhere in the run the device was detached with history `h` in memory, and nothing landed after that. */
  ghost predicate DetachedWith(c: Config, s: State, run: seq<Action>, h: M.History)
    requires ValidConfig(c) && Sized(c, s) && ValidRun(c, s, run)
    decreases |run|
  {
    run != [] && (StepKeepsSize(c, s, run[0]);
      || (run[0] == Detach && HistoryOf(c, Apply(c, s, Detach)) == h && NothingLands(run[1..]))
      || DetachedWith(c, Apply(c, s, run[0]), run[1..], h))
  }

  /** `h` is on its way into a clean file, or is in one. */
  ghost predicate Held(c: Config, s: State, h: M.History) {
    (s.phase == Detaching && HistoryOf(c, s) == h) || LoadsClean(c, s, h)
  }

  /** It gets there by a detach, stays while nothing lands, and is the snapshot that the final save takes. */
  lemma HeldSince(c: Config, s: State, a: Action, h: M.History)
    requires ValidConfig(c) && Contract.Inv(c, s) && Enabled(c, s, a) && Held(c, Apply(c, s, a), h)
    ensures (a == Detach && HistoryOf(c, Apply(c, s, a)) == h) || (Held(c, s, h) && !a.Land?)
  {
    hide Apply, M.Load;
    var s' := Apply(c, s, a);
    if s'.phase == Detaching && HistoryOf(c, s') == h {
      DetachingStands(c, s, a);
    } else if a.LoseMeta? || a.Rot? {
      SpoiledIsNotClean(c, s, a, h);
    } else if s'.main == s.main {
      NoLandOnClean(c, s, a, h);
    } else {
      RenamedIsHeld(c, s, a, h);
    }
  }

  /** A device is being detached since its detach, with the same history in memory. */
  lemma DetachingStands(c: Config, s: State, a: Action)
    requires ValidConfig(c) && Sized(c, s) && Enabled(c, s, a) && Apply(c, s, a).phase == Detaching
    ensures a == Detach || (s.phase == Detaching && HistoryOf(c, Apply(c, s, a)) == HistoryOf(c, s) && !a.Land?)
  {
    hide M.Load, M.Encode, C.Push, C.PowerLoss, C.WriteBack;
  }

  lemma SpoiledIsNotClean(c: Config, s: State, a: Action, h: M.History)
    requires ValidConfig(c) && Sized(c, s) && Enabled(c, s, a) && (a.LoseMeta? || a.Rot?)
    ensures !LoadsClean(c, Apply(c, s, a), h)
  {
    hide M.Load;
    if a.Rot? {
      M.BurstRefused(s.main.value, a.raw, a.p, a.k, c.shape.size, c.shape.g, c.shape.size, c.shape.g);
    }
  }

  lemma RenamedIsHeld(c: Config, s: State, a: Action, h: M.History)
    requires ValidConfig(c) && Contract.Inv(c, s) && Enabled(c, s, a) && !a.LoseMeta? && !a.Rot?
    requires Apply(c, s, a).main != s.main && LoadsClean(c, Apply(c, s, a), h)
    ensures Held(c, s, h) && !a.Land?
  {
    OnlyCompleteFiles(c, s, a);
    SnapshotIsMemory(c, s);
  }

  /** The snapshot of a final save is what is in memory: nothing is stamped while a device is being detached. */
  lemma SnapshotIsMemory(c: Config, s: State)
    requires ValidConfig(c) && Contract.Inv(c, s) && s.ctl.Saving? && s.ctl.pc.Synced? && s.ctl.job.Final?
    ensures s.phase == Detaching && s.ctl.pc.h == HistoryOf(c, s)
  {
    hide M.Load, M.Encode, MainInv, MemInv, GensInv;
    assert s.ctl.pc.h.eras == s.mem.eras;
  }

  lemma {:induction false} HeldOverRun(c: Config, s: State, run: seq<Action>, h: M.History)
    requires ValidConfig(c) && Contract.Inv(c, s) && Sized(c, s) && ValidRun(c, s, run) && Held(c, Run(c, s, run), h)
    ensures DetachedWith(c, s, run, h) || (Held(c, s, h) && NothingLands(run))
    decreases |run|
  {
    hide Contract.Inv, Held, Apply, Enabled;
    if run != [] {
      StepKeepsSize(c, s, run[0]);
      Contract.StepKeepsInv(c, s, run[0]);
      HeldOverRun(c, Apply(c, s, run[0]), run[1..], h);
      if !DetachedWith(c, Apply(c, s, run[0]), run[1..], h) {
        HeldSince(c, s, run[0], h);
      }
    }
  }

  /**
   A file marked clean is complete: over every run, when the metadata file loads clean with history `h`,
   the device was detached with exactly `h` in memory and nothing has landed on it since.
   */
  lemma CleanMeansUntouched(c: Config, s0: State, run: seq<Action>, h: M.History)
    requires ValidConfig(c) && Init(c, s0) && ValidRun(c, s0, run) && LoadsClean(c, Run(c, s0, run), h)
    ensures DetachedWith(c, s0, run, h)
  {
    hide M.Load;
    InitKeepsInv(c, s0);
    HeldOverRun(c, s0, run, h);
  }

  /**
   And it answers as it stands: a clean file belongs to a device that is not live; its eras are above the
   cursor of every saved checkpoint of its history in every chunk where something landed since, and, for
   a sound consumer, above its cursor wherever its image differs from the device.
   */
  lemma CleanMeansComplete(c: Config, s0: State, run: seq<Action>, h: M.History)
    requires ValidConfig(c) && Init(c, s0) && ValidRun(c, s0, run) && LoadsClean(c, Run(c, s0, run), h)
    ensures var s := Run(c, s0, run);
      && (s.phase == Offline || s.phase == Attaching)
      && (forall i :: 0 <= i < |s.grants| && s.grants[i].gen == h.generation ==>
            forall b: nat :: b in s.grants[i].touched && b < c.shape.size ==>
              R.Newer(c.shape, h.eras, s.grants[i].era, b))
      && (Sound(c) && s.cursor.Some? && s.cursor.value.gen == h.generation ==>
            forall b: nat :: b < c.shape.size && Differs(c, s, b) ==>
              R.Newer(c.shape, h.eras, s.cursor.value.era, b))
  {
    hide M.Load;
    InitKeepsInv(c, s0);
    Contract.RunKeepsInv(c, s0, run);
    var s := Run(c, s0, run);
    assert forall b: nat :: b < c.shape.size && Differs(c, s, b) ==> Risky(c, WorldOf(s), b);
  }

  // ---------------------------------------------------------------- unclean recovery

  /**
   After an unclean recovery every chunk is above every cursor of that history that a saved checkpoint
   ever handed out, whatever happened in between.
   */
  lemma RecoveryIsAboveEveryCursor(c: Config, s0: State, run: seq<Action>, i: nat, chunk: nat)
    requires ValidConfig(c) && Init(c, s0) && ValidRun(c, s0, run)
    requires CanAttachLoad(c, Run(c, s0, run)) && i < |Run(c, s0, run).grants|
    requires var l := LoadMain(c, Run(c, s0, run).main.value);
      !l.clean && l.history.generation == Run(c, s0, run).grants[i].gen && chunk < |l.history.eras|
    ensures var s := Run(c, s0, run);
      var m := DoAttachLoad(c, s).mem;
      s.grants[i].era < m.era && m.eras[chunk] > s.grants[i].era
  {
    hide M.Load;
    InitKeepsInv(c, s0);
    Contract.RunKeepsInv(c, s0, run);
  }
}
