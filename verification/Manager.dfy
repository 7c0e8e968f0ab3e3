/**
 The history lifecycle of one managed device: load, recover and mark on attach, the guards of `dump`,
 checkpoints with their save, and the final clean save on detach.
 */
module Manager {
  import opened Bytes
  import opened Options
  import opened Geometry
  import opened Ranges
  import E = EraState
  import M = MetaCodec
  import R = Race
  import S = System

  /** How the device itself comes up once its marker is written. */
  datatype Startup = Starts | NoControlDevice | RunFails(final: E.IoOutcome)

  /** What the surroundings do to one attach. */
  datatype Conditions = Conditions(idInUse: bool, opens: bool, marker: E.IoOutcome, startup: Startup)

  const SMOOTH: Conditions := Conditions(false, true, E.Succeeds, Starts)

  datatype AddError =
    | IdInUse | CannotOpen | BadSize | AlreadyAttached | NoHistory(error: M.LoadError) | MarkerNotSaved | DidNotStart

  datatype AddResult = Added(generation: nat, currentEra: nat, recoveredUnclean: bool) | NotAdded(error: AddError)

  datatype DumpResult =
    | Dumped(generation: nat, currentEra: nat, since: nat, dirtyBytes: nat, ranges: seq<DirtyRange>)
    | GenerationMismatch | StaleCursor | NotDumped

  datatype CheckpointResult = Checkpointed(closedEra: nat, currentEra: nat, metaSaved: Option<bool>) | NotCheckpointed

  /** The history that an attach starts from, given what is in the metadata file. */
  function StartingHistory(main: Option<seq<byte>>, devSize: nat, granularity: nat, newGen: nat): (r: M.Loaded)
  {
    match main
    case None =>
      if !ValidGranularity(granularity) then M.Refused(M.BadGranularity)
      else
        var blank := R.Fresh(R.Shape(devSize, granularity));
        M.Accepted(M.History(granularity, devSize, newGen, blank.era, blank.eras), true)
    case Some(raw) =>
      var l := M.Load(raw, devSize, granularity);
      if l.Refused? then l
      else M.Accepted(l.history.(era := S.Recover(l).era, eras := S.Recover(l).eras), l.clean)
  }

  /**
   What an attach starts from: without a file a history of era 1 in which nothing was written, and else
   the file's own, as it stands if it is clean and with every chunk raised to its era if it is not.
   */
  ghost predicate StartsFrom(main: Option<seq<byte>>, devSize: nat, granularity: nat, newGen: nat, h: M.History,
                             unclean: bool)
  {
    match main
    case None =>
      && ValidGranularity(granularity) && !unclean && h == M.History(granularity, devSize, newGen, 1, h.eras)
      && |h.eras| == Chunks(devSize, granularity) && forall i :: 0 <= i < |h.eras| ==> h.eras[i] == 0
    case Some(raw) =>
      var l := M.Load(raw, devSize, granularity);
      && l.Accepted? && unclean == !l.clean && h == l.history.(eras := h.eras) && |h.eras| == |l.history.eras|
      && forall i :: 0 <= i < |h.eras| ==>
           h.eras[i] == if l.clean then l.history.eras[i] else Max(l.history.eras[i], l.history.era)
  }

  lemma StartingHistoryIs(main: Option<seq<byte>>, devSize: nat, granularity: nat, newGen: nat)
    requires StartingHistory(main, devSize, granularity, newGen).Accepted?
    ensures var l := StartingHistory(main, devSize, granularity, newGen);
      StartsFrom(main, devSize, granularity, newGen, l.history, !l.clean)
  {
    hide M.Load;
  }

  lemma NoStartingHistory(main: Option<seq<byte>>, devSize: nat, granularity: nat, newGen: nat)
    ensures var l := StartingHistory(main, devSize, granularity, newGen);
      && (main == None && !ValidGranularity(granularity) ==> l == M.Refused(M.BadGranularity))
      && (main.Some? && M.Load(main.value, devSize, granularity).Refused? ==> l == M.Load(main.value, devSize, granularity))
  {
    hide M.Load;
  }

  /** The metadata file after a save of `h` that went well or did not. */
  function Saved(main: Option<seq<byte>>, h: M.History, clean: bool, ok: bool): Option<seq<byte>> {
    if ok then Some(M.Encode(h, clean)) else main
  }

  class DeviceManager {
    const devSize: nat
    const granularity: nat
    const meta: E.MetaFile?
    var state: E.EraState?

    constructor (devSize: nat, granularity: nat, meta: E.MetaFile?)
      requires devSize < U64_SPAN && granularity < U64_SPAN
      ensures this.devSize == devSize && this.granularity == granularity && this.meta == meta && state == null
    {
      this.devSize, this.granularity, this.meta := devSize, granularity, meta;
      state := null;
    }

    ghost predicate Valid()
      reads this, state, if state == null then {} else {state.eras}
    {
      && devSize < U64_SPAN && granularity < U64_SPAN
      && (state != null ==> state.Valid() && state.devSize == devSize && state.granularity == granularity)
    }

    ghost function Main(): Option<seq<byte>>
      reads meta
    {
      if meta == null then None else meta.main
    }

    /** The tracking state to attach with: loaded and recovered, or fresh. */
    method Begin(newGen: nat) returns (s: E.EraState?, unclean: bool, error: Option<AddError>)
      requires Valid() && newGen < U64_SPAN
      ensures s == null <==> StartingHistory(Main(), devSize, granularity, newGen).Refused?
      ensures s == null ==> error == Some(NoHistory(StartingHistory(Main(), devSize, granularity, newGen).error))
      ensures s != null ==> fresh(s) && fresh(s.eras) && s.Valid() && s.devSize == devSize && s.granularity == granularity
      ensures s != null ==>
        StartingHistory(Main(), devSize, granularity, newGen) == M.Accepted(s.Abs(), !unclean)
    {
      s, unclean, error := null, false, None;
      if meta != null && meta.main.Some? {
        var clean, loadError;
        s, clean, loadError := E.EraState.Load(meta.main.value, devSize, granularity);
        if s == null {
          error := Some(NoHistory(loadError.value));
          return;
        }
        if !clean {
          s.MarkAllDirty();
          unclean := true;
        }
      } else {
        s := E.EraState.New(devSize, granularity, newGen);
        if s == null {
          error := Some(NoHistory(M.BadGranularity));
        }
      }
    }

    /** The surroundings let the attach go on to its history. */
    predicate Unhindered(o: Conditions) { !o.idInUse && o.opens && devSize != 0 && devSize % 512 == 0 }

    /** Why an attach gets no further than its marker, if it does not. */
    ghost function Obstacle(newGen: nat, o: Conditions): Option<AddError>
      reads this, meta
    {
      var l := StartingHistory(Main(), devSize, granularity, newGen);
      if o.idInUse then Some(IdInUse)
      else if !o.opens then Some(CannotOpen)
      else if devSize == 0 || devSize % 512 != 0 then Some(BadSize)
      else if state != null then Some(AlreadyAttached)
      else if l.Refused? then Some(NoHistory(l.error))
      else if meta != null && o.marker != E.Succeeds then Some(MarkerNotSaved)
      else None
    }

    /** Everything up to the marker: the history to attach with, on disk as unclean. */
    method Prepare(newGen: nat, o: Conditions) returns (s: E.EraState?, unclean: bool, error: Option<AddError>)
      requires Valid() && newGen < U64_SPAN
      modifies meta
      ensures s == null <==> old(Obstacle(newGen, o)).Some?
      ensures s == null ==> error == old(Obstacle(newGen, o)) && error != Some(DidNotStart) && Main() == old(Main())
      ensures s != null ==> fresh(s) && fresh(s.eras) && s.Valid() && s.devSize == devSize && s.granularity == granularity
      ensures s != null ==>
        && StartingHistory(old(Main()), devSize, granularity, newGen) == M.Accepted(s.Abs(), !unclean)
        && Main() == Saved(old(Main()), s.Abs(), false, meta != null) && state == null
      ensures o.idInUse ==> error == Some(IdInUse)
      ensures !o.idInUse && !o.opens ==> error == Some(CannotOpen)
      ensures !o.idInUse && o.opens && (devSize == 0 || devSize % 512 != 0) ==> error == Some(BadSize)
      ensures !o.idInUse && o.opens && devSize != 0 && devSize % 512 == 0 && state != null ==>
        error == Some(AlreadyAttached)
      ensures s != null ==>
        !o.idInUse && o.opens && devSize != 0 && devSize % 512 == 0 && (meta != null ==> o.marker == E.Succeeds)
      ensures s == null <==> error.Some?
      ensures Unhindered(o) && state == null && old(Main()) == None && !ValidGranularity(granularity) ==>
        error == Some(NoHistory(M.BadGranularity))
      ensures (Unhindered(o) && state == null && old(Main()).Some?
               && M.Load(old(Main()).value, devSize, granularity).Refused?) ==>
        error == Some(NoHistory(M.Load(old(Main()).value, devSize, granularity).error))
    {
      hide M.Load, M.Encode, StartingHistory;
      NoStartingHistory(Main(), devSize, granularity, newGen);
      s, unclean, error := null, false, None;
      if o.idInUse {
        error := Some(IdInUse);
      } else if !o.opens {
        error := Some(CannotOpen);
      } else if devSize == 0 || devSize % 512 != 0 {
        error := Some(BadSize);
      } else if state != null {
        error := Some(AlreadyAttached);
      } else {
        var noHistory;
        s, unclean, noHistory := Begin(newGen);
        if s == null {
          error := noHistory;
        } else if meta != null {
          var ok := s.Save(meta, false, o.marker);
          if !ok {
            s, error := null, Some(MarkerNotSaved);
          }
        }
      }
    }

    /**
     Attach: load or start a history, fall back to everything-changed, write the unclean marker, start
     the device. A device that comes up and dies leaves a clean file behind, since nothing landed on it.
     */
    method Add(newGen: nat, o: Conditions) returns (r: AddResult)
      requires Valid() && newGen < U64_SPAN
      modifies this`state, meta
      ensures Valid()
      ensures o.idInUse ==> r == NotAdded(IdInUse)
      ensures !o.idInUse && !o.opens ==> r == NotAdded(CannotOpen)
      ensures !o.idInUse && o.opens && (devSize == 0 || devSize % 512 != 0) ==> r == NotAdded(BadSize)
      ensures !o.idInUse && o.opens && devSize != 0 && devSize % 512 == 0 && old(state) != null ==>
        r == NotAdded(AlreadyAttached)
      ensures r.NotAdded? && r != NotAdded(DidNotStart) ==> state == old(state) && Main() == old(Main())
      ensures r.Added? ==>
        && !o.idInUse && o.opens && devSize != 0 && devSize % 512 == 0 && old(state) == null
        && (meta != null ==> o.marker == E.Succeeds) && o.startup == Starts
      ensures r.Added? ==>
        && state != null && StartsFrom(old(Main()), devSize, granularity, newGen, state.Abs(), r.recoveredUnclean)
        && (meta != null ==> Main() == Some(M.Encode(state.Abs(), false)))
      ensures Unhindered(o) && old(state) == null && old(Main()) == None && !ValidGranularity(granularity) ==>
        r == NotAdded(NoHistory(M.BadGranularity))
      ensures (Unhindered(o) && old(state) == null && old(Main()).Some?
               && M.Load(old(Main()).value, devSize, granularity).Refused?) ==>
        r == NotAdded(NoHistory(M.Load(old(Main()).value, devSize, granularity).error))
      ensures old(Obstacle(newGen, o)).Some? ==>
        r == NotAdded(old(Obstacle(newGen, o)).value) && state == old(state) && Main() == old(Main())
      ensures old(Obstacle(newGen, o)) == None ==>
        var l := StartingHistory(old(Main()), devSize, granularity, newGen);
        var marked := Saved(old(Main()), l.history, false, meta != null);
        match o.startup
        case Starts =>
          && r == Added(l.history.generation, l.history.era, !l.clean) && Main() == marked
          && state != null && fresh(state) && fresh(state.eras) && state.Abs() == l.history
        case NoControlDevice => r == NotAdded(DidNotStart) && state == null && Main() == marked
        case RunFails(final) =>
          && r == NotAdded(DidNotStart) && state == null
          && Main() == Saved(marked, l.history, true, meta != null && final == E.Succeeds)
    {
      hide M.Load, M.Encode, StartingHistory, Obstacle, StartsFrom;
      ghost var main := Main();
      var s, unclean, error := Prepare(newGen, o);
      if s == null {
        return NotAdded(error.value);
      }
      StartingHistoryIs(main, devSize, granularity, newGen);
      match o.startup {
        case Starts =>
          state := s;
          r := Added(s.generation, s.currentEra, unclean);
        case NoControlDevice =>
          r := NotAdded(DidNotStart);
        case RunFails(final) =>
          if meta != null {
            var ok := s.Save(meta, true, final);
          }
          r := NotAdded(DidNotStart);
      }
    }

    /**
     The dirty ranges since a cursor. A cursor of another history, or of an era that this history has
     not closed, is an error and never an empty answer.
     */
    method Dump(since: nat, generation: Option<nat>) returns (r: DumpResult)
      requires Valid()
      ensures state == null <==> r == NotDumped
      ensures state != null ==>
        (r == GenerationMismatch <==> generation.Some? && generation.value != state.generation)
      ensures state != null ==>
        (r.Dumped? <==> (generation.Some? ==> generation.value == state.generation) && since < state.currentEra)
      ensures r.Dumped? ==>
        var rs := RangesOf(state.eras[..], since, devSize, granularity);
        r == Dumped(state.generation, state.currentEra, since, TotalLen(rs), rs)
      ensures r.Dumped? ==>
        granularity > 0 && ReportsExactly(r.ranges, state.eras[..], since, devSize, granularity)
    {
      if state == null {
        return NotDumped;
      }
      if generation.Some? && generation.value != state.generation {
        return GenerationMismatch;
      }
      if since >= state.currentEra {
        return StaleCursor;
      }
      var ranges := state.RangesSince(since);
      hide ReportsExactly;
      RangesReport(state.eras[..], since, devSize, granularity);
      var dirtyBytes := 0;
      var i := 0;
      assert ranges[..0] == [];
      while i < |ranges|
        invariant 0 <= i <= |ranges| && dirtyBytes == TotalLen(ranges[..i])
      {
        assert ranges[..i + 1][..i] == ranges[..i];
        dirtyBytes := dirtyBytes + ranges[i].len;
        i := i + 1;
      }
      assert ranges[..i] == ranges;
      return Dumped(state.generation, state.currentEra, since, dirtyBytes, ranges);
    }

    /** Close the era; save while attached, so marked unclean; answer ok even when the save fails. */
    method Checkpoint(outcome: E.IoOutcome) returns (r: CheckpointResult)
      requires Valid() && (state != null ==> state.currentEra + 1 < U32_SPAN)
      modifies state, meta
      ensures Valid() && (state == null <==> r == NotCheckpointed)
      ensures state != null ==>
        && state.Abs() == old(state.Abs()).(era := old(state.currentEra) + 1)
        && r == Checkpointed(old(state.currentEra), state.currentEra,
                             if meta == null then None else Some(outcome == E.Succeeds))
      ensures state != null ==> Main() == Saved(old(Main()), state.Abs(), false, meta != null && outcome == E.Succeeds)
      ensures state == null ==> Main() == old(Main())
    {
      if state == null {
        return NotCheckpointed;
      }
      var closed, current := state.Checkpoint();
      var saved := None;
      if meta != null {
        var ok := state.Save(meta, false, outcome);
        saved := Some(ok);
      }
      return Checkpointed(closed, current, saved);
    }

    /** Detach: no more writes can land, so the final save is clean; when it fails the old file stays. */
    method Del(outcome: E.IoOutcome) returns (done: bool)
      requires Valid()
      modifies this`state, meta
      ensures Valid() && state == null && (done <==> old(state) != null)
      ensures Main() == if old(state) == null then old(Main())
                        else Saved(old(Main()), old(state.Abs()), true, meta != null && outcome == E.Succeeds)
    {
      if state == null {
        return false;
      }
      if meta != null {
        var ok := state.Save(meta, true, outcome);
      }
      state := null;
      return true;
    }

    /** kill -9: what was in memory is gone, the file is what it was. */
    method Kill()
      modifies this`state
      ensures state == null
    {
      state := null;
    }
  }
}
