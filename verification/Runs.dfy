/** Building runs of the system step by step, and the run of a whole save on a device of any size. */
module Runs {
  import opened Options
  import opened System
  import M = MetaCodec

  ghost predicate Reaches(c: Config, s: State, t: State)
    requires ValidConfig(c) && Sized(c, s)
  {
    exists run :: ValidRun(c, s, run) && Run(c, s, run) == t
  }

  lemma {:induction false} RunSnoc(c: Config, s: State, run: seq<Action>, a: Action)
    requires ValidConfig(c) && Sized(c, s) && ValidRun(c, s, run) && Enabled(c, Run(c, s, run), a)
    ensures ValidRun(c, s, run + [a]) && Run(c, s, run + [a]) == Apply(c, Run(c, s, run), a)
    decreases |run|
  {
    hide Enabled, Apply;
    if run == [] {
      StepKeepsSize(c, s, a);
      assert ([] + [a])[1..] == [];
      assert ValidRun(c, Apply(c, s, a), []);
    } else {
      StepKeepsSize(c, s, run[0]);
      assert (run + [a])[1..] == run[1..] + [a];
      RunSnoc(c, Apply(c, s, run[0]), run[1..], a);
    }
  }

  lemma Next(c: Config, s0: State, s: State, a: Action) returns (t: State)
    requires ValidConfig(c) && Sized(c, s0) && Reaches(c, s0, s) && Sized(c, s) && Enabled(c, s, a)
    ensures t == Apply(c, s, a) && Reaches(c, s0, t) && Sized(c, t)
  {
    hide Enabled, Apply;
    var run :| ValidRun(c, s0, run) && Run(c, s0, run) == s;
    RunSnoc(c, s0, run, a);
    StepKeepsSize(c, s, a);
    t := Apply(c, s, a);
    assert Run(c, s0, run + [a]) == t;
  }

  lemma NoSteps(c: Config, s: State)
    requires ValidConfig(c) && Sized(c, s)
    ensures Reaches(c, s, s)
  {
    assert ValidRun(c, s, []) && Run(c, s, []) == s;
  }

  // ---------------------------------------------------------------- a save that succeeds

  /** The temporary file has been written and synced, and is about to be renamed. */
  function ReadyToRename(c: Config, s: State): State
    requires s.ctl.Saving?
  {
    s.(tmp := Some(SavedBytes(s.ctl.job, HistoryOf(c, s))), ctl := Saving(s.ctl.job, Synced(HistoryOf(c, s))))
  }

  /** The chunk eras are loaded one by one, to the last. */
  lemma {:induction false} AllChunksLoaded(c: Config, s0: State, s: State) returns (t: State)
    requires ValidConfig(c) && Sized(c, s0) && Reaches(c, s0, s) && Sized(c, s)
    requires s.ctl.Saving? && s.ctl.pc.LoadChunks? && |s.ctl.pc.got| <= |s.mem.eras|
    requires s.ctl.pc.got == s.mem.eras[..|s.ctl.pc.got|]
    ensures t == s.(ctl := Saving(s.ctl.job, LoadChunks(s.ctl.pc.era, s.mem.eras))) && Reaches(c, s0, t) && Sized(c, t)
    decreases |s.mem.eras| - |s.ctl.pc.got|
  {
    hide M.Encode, Reaches;
    if |s.ctl.pc.got| == |s.mem.eras| {
      t := s;
    } else {
      var n := |s.ctl.pc.got|;
      assert s.mem.eras[..n] + [s.mem.eras[n]] == s.mem.eras[..n + 1];
      t := Next(c, s0, s, SaveLoadChunk);
      t := AllChunksLoaded(c, s0, t);
    }
  }

  lemma SnapshotTaken(c: Config, s0: State, s: State) returns (t: State)
    requires ValidConfig(c) && Sized(c, s0) && Reaches(c, s0, s) && Sized(c, s)
    requires s.ctl.Saving? && s.ctl.pc.Create?
    ensures t == s.(tmp := Some([]), ctl := Saving(s.ctl.job, Writing(HistoryOf(c, s), 0)))
    ensures Reaches(c, s0, t) && Sized(c, t)
  {
    hide M.Encode, Reaches;
    t := Next(c, s0, s, SaveCreate);
    t := Next(c, s0, t, SaveLoadEra);
    assert s.mem.eras[..0] == [];
    t := AllChunksLoaded(c, s0, t);
    t := Next(c, s0, t, SaveEncode);
  }

  lemma SaveSucceeds(c: Config, s0: State, s: State) returns (t: State)
    requires ValidConfig(c) && Sized(c, s0) && Reaches(c, s0, s) && Sized(c, s)
    requires s.ctl.Saving? && s.ctl.pc.Create?
    ensures t == DoRename(c, ReadyToRename(c, s)) && Reaches(c, s0, t) && Sized(c, t)
  {
    hide M.Encode, Reaches;
    t := SnapshotTaken(c, s0, s);
    var bytes := SavedBytes(s.ctl.job, HistoryOf(c, s));
    assert bytes[..|bytes|] == bytes;
    t := Next(c, s0, t, SaveWrite(|bytes|));
    t := Next(c, s0, t, SaveSync);
    assert t == ReadyToRename(c, s);
    t := Next(c, s0, t, SaveRename);
  }
}
