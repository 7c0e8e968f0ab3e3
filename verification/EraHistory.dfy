/**
 What a sequence of calls does to the era map, as values, and what the map then answers: the chunks
 reported since era `n` are exactly those that some call touched in an era above `n`.
 */
module EraHistory {
  import opened Geometry
  import opened Ranges
  import R = Race

  /** `fetch_max(era)` on the chunks `first..=last`. */
  function StampRange(eras: seq<nat>, first: nat, last: nat, era: nat): (r: seq<nat>)
    ensures |r| == |eras|
    ensures forall i :: 0 <= i < |eras| ==> r[i] == if first <= i <= last then Max(eras[i], era) else eras[i]
  {
    seq(|eras|, i requires 0 <= i < |eras| => if first <= i <= last then Max(eras[i], era) else eras[i])
  }

  /** `mark_write` when nothing interferes. */
  function Marked(sh: R.Shape, eras: seq<nat>, era: nat, off: nat, len: nat): (r: seq<nat>)
    requires sh.g > 0 && |eras| == Chunks(sh.size, sh.g)
    ensures |r| == |eras|
  {
    if len == 0 || R.ChunkOf(sh, off) >= |eras| then eras
    else StampRange(eras, R.ChunkOf(sh, off), Min(R.ChunkOf(sh, off + len - 1), |eras| - 1), era)
  }

  datatype Call = Mark(off: nat, len: nat) | Checkpoint | MarkAll

  function EraAfter(calls: seq<Call>): nat {
    if calls == [] then 1
    else EraAfter(calls[..|calls| - 1]) + if calls[|calls| - 1].Checkpoint? then 1 else 0
  }

  /** The eras after the calls, on a map that starts fresh. */
  function ErasAfter(sh: R.Shape, calls: seq<Call>): (eras: seq<nat>)
    requires sh.g > 0
    ensures |eras| == Chunks(sh.size, sh.g)
  {
    if calls == [] then R.Fresh(sh).eras
    else
      var init, last := calls[..|calls| - 1], calls[|calls| - 1];
      var eras, era := ErasAfter(sh, init), EraAfter(init);
      match last
      case Mark(off, len) => Marked(sh, eras, era, off, len)
      case Checkpoint => eras
      case MarkAll => StampRange(eras, 0, |eras|, era)
  }

  /** The call changes (or is taken to change) something in the chunk. */
  ghost predicate Touches(sh: R.Shape, call: Call, chunk: nat)
    requires sh.g > 0
  {
    match call
    case Mark(off, len) => exists b: nat :: off <= b < off + len && R.ChunkOf(sh, b) == chunk
    case Checkpoint => false
    case MarkAll => true
  }

  /** The chunks between the two divisions are those that hold a byte of the range. */
  lemma TouchedChunks(sh: R.Shape, off: nat, len: nat, chunk: nat)
    requires sh.g > 0 && chunk < Chunks(sh.size, sh.g)
    ensures Touches(sh, Mark(off, len), chunk)
       <==> len > 0 && R.ChunkOf(sh, off) <= chunk <= R.ChunkOf(sh, off + len - 1)
  {
    hide Chunks;
    if Touches(sh, Mark(off, len), chunk) {
      hide R.ChunkOf;
      var b: nat :| off <= b < off + len && R.ChunkOf(sh, b) == chunk;
      R.ChunkOfMonotone(sh, off, b);
      R.ChunkOfMonotone(sh, b, off + len - 1);
    }
    if len > 0 && R.ChunkOf(sh, off) <= chunk <= R.ChunkOf(sh, off + len - 1) {
      var b := OffsetInChunk(off, off + len - 1, chunk, sh.g);
      assert R.ChunkOf(sh, b) == chunk;
    }
  }

  /** The chunks that hold a byte of the range are raised to the era, no others change, and no byte is left out. */
  ghost predicate RaisesTouched(sh: R.Shape, was: seq<nat>, now: seq<nat>, era: nat, off: nat, len: nat)
    requires sh.g > 0
  {
    && |now| == |was|
    && (forall c :: 0 <= c < |now| ==> now[c] == if Touches(sh, Mark(off, len), c) then Max(was[c], era) else was[c])
    && (forall b: nat :: off <= b < off + len && b < sh.size ==> R.ChunkOf(sh, b) < |now| && now[R.ChunkOf(sh, b)] >= era)
  }

  lemma MarkedIsTouched(sh: R.Shape, eras: seq<nat>, era: nat, off: nat, len: nat)
    requires sh.g > 0 && |eras| == Chunks(sh.size, sh.g)
    ensures RaisesTouched(sh, eras, Marked(sh, eras, era, off, len), era, off, len)
  {
    var now := Marked(sh, eras, era, off, len);
    forall c | 0 <= c < |eras| ensures now[c] == if Touches(sh, Mark(off, len), c) then Max(eras[c], era) else eras[c] {
      TouchedChunks(sh, off, len, c);
    }
    forall b: nat | off <= b < off + len && b < sh.size
      ensures R.ChunkOf(sh, b) < |eras| && Touches(sh, Mark(off, len), R.ChunkOf(sh, b))
    {
      R.ChunkOfInside(sh, b);
    }
  }

  /** Some call touched the chunk while an era above `n` was current. */
  ghost predicate TouchedAbove(sh: R.Shape, calls: seq<Call>, chunk: nat, n: nat)
    requires sh.g > 0
  {
    exists i :: 0 <= i < |calls| && Touches(sh, calls[i], chunk) && EraAfter(calls[..i]) > n
  }

  lemma TouchedAboveSplit(sh: R.Shape, calls: seq<Call>, chunk: nat, n: nat)
    requires sh.g > 0 && calls != []
    ensures var k := |calls| - 1;
      TouchedAbove(sh, calls, chunk, n)
      <==> TouchedAbove(sh, calls[..k], chunk, n) || (Touches(sh, calls[k], chunk) && EraAfter(calls[..k]) > n)
  {
    hide Touches, EraAfter;
    var k := |calls| - 1;
    var init := calls[..k];
    if TouchedAbove(sh, calls, chunk, n) {
      var i :| 0 <= i < |calls| && Touches(sh, calls[i], chunk) && EraAfter(calls[..i]) > n;
      assert i < k ==> init[i] == calls[i] && init[..i] == calls[..i];
    }
    if TouchedAbove(sh, init, chunk, n) {
      var i :| 0 <= i < |init| && Touches(sh, init[i], chunk) && EraAfter(init[..i]) > n;
      assert init[i] == calls[i] && init[..i] == calls[..i];
    }
  }

  /** A chunk's era is above `n` exactly when some call touched it while an era above `n` was current. */
  lemma {:induction false} EraIsLastTouch(sh: R.Shape, calls: seq<Call>, chunk: nat, n: nat)
    requires sh.g > 0 && chunk < Chunks(sh.size, sh.g)
    ensures ErasAfter(sh, calls)[chunk] > n <==> TouchedAbove(sh, calls, chunk, n)
    decreases |calls|
  {
    if calls != [] {
      var k := |calls| - 1;
      EraIsLastTouch(sh, calls[..k], chunk, n);
      TouchedAboveSplit(sh, calls, chunk, n);
      if calls[k].Mark? {
        TouchedChunks(sh, calls[k].off, calls[k].len, chunk);
      }
    }
  }

  /**
   Neither less nor more: `ranges_since(n)` reports a byte of the device exactly when its chunk was
   touched by a marked op, or by mark-all-dirty, in an era above `n`.
   */
  lemma ReportIsHistory(sh: R.Shape, calls: seq<Call>, n: nat, b: nat)
    requires sh.g > 0 && b < sh.size
    ensures Denotes(RangesOf(ErasAfter(sh, calls), n, sh.size, sh.g), b)
       <==> exists i :: 0 <= i < |calls| && Touches(sh, calls[i], R.ChunkOf(sh, b)) && EraAfter(calls[..i]) > n
  {
    ChunkOfByte(sh.size, sh.g, b);
    RangesExact(ErasAfter(sh, calls), n, sh.size, sh.g, b);
    EraIsLastTouch(sh, calls, R.ChunkOf(sh, b), n);
  }

  // ---------------------------------------------------------------- overlapping calls

  /** The step stamps `chunk` with an era above `n`, for a request that holds a byte of it. */
  ghost predicate StampsAbove(sh: R.Shape, m: R.Mem, step: R.Step, chunk: nat, n: nat)
    requires sh.g > 0 && R.Enabled(sh, m, step)
  {
    step.StampNext? &&
      var io := m.ios[step.id];
      io.pc.next == chunk && io.pc.era > n && Touches(sh, Mark(io.off, io.len), chunk)
  }

  /** Some step of the run does. */
  ghost predicate StampedAbove(sh: R.Shape, m: R.Mem, run: seq<R.Step>, chunk: nat, n: nat)
    requires sh.g > 0 && R.Inv(sh, m) && R.ValidRun(sh, m, run)
    decreases |run|
  {
    run != [] && (R.StepKeepsInv(sh, m, run[0]);
      || StampsAbove(sh, m, run[0], chunk, n)
      || StampedAbove(sh, R.Apply(sh, m, run[0]), run[1..], chunk, n))
  }

  /** A stamp never goes beyond the chunks of its request. */
  lemma StampsWhatItHolds(sh: R.Shape, m: R.Mem, id: nat)
    requires sh.g > 0 && R.Inv(sh, m) && R.Enabled(sh, m, R.StampNext(id))
    ensures var io := m.ios[id]; io.pc.next < |m.eras| && Touches(sh, Mark(io.off, io.len), io.pc.next)
  {
    var io := m.ios[id];
    assert R.IoInv(sh, m, io);
    R.FirstBeforeLast(sh, io);
    TouchedChunks(sh, io.off, io.len, io.pc.next);
  }

  lemma StepIsHistory(sh: R.Shape, m: R.Mem, step: R.Step, chunk: nat, n: nat)
    requires sh.g > 0 && R.Inv(sh, m) && R.Enabled(sh, m, step) && chunk < |m.eras|
    ensures |R.Apply(sh, m, step).eras| == |m.eras|
    ensures R.Apply(sh, m, step).eras[chunk] > n <==> m.eras[chunk] > n || StampsAbove(sh, m, step, chunk, n)
  {
    hide Touches;
    if step.StampNext? {
      StampsWhatItHolds(sh, m, step.id);
    }
  }

  /**
   Over every run of overlapping calls and checkpoints a chunk's era is above `n` exactly when it was
   before, or when some request that holds a byte of the chunk stamped it with an era above `n`.
   */
  lemma {:induction false} RunIsHistory(sh: R.Shape, m: R.Mem, run: seq<R.Step>, chunk: nat, n: nat)
    requires sh.g > 0 && R.Inv(sh, m) && R.ValidRun(sh, m, run) && chunk < |m.eras|
    ensures |R.Run(sh, m, run).eras| == |m.eras|
    ensures R.Run(sh, m, run).eras[chunk] > n <==> m.eras[chunk] > n || StampedAbove(sh, m, run, chunk, n)
    decreases |run|
  {
    hide R.Apply, R.Enabled, StampsAbove;
    if run != [] {
      R.StepKeepsInv(sh, m, run[0]);
      StepIsHistory(sh, m, run[0], chunk, n);
      RunIsHistory(sh, R.Apply(sh, m, run[0]), run[1..], chunk, n);
    }
  }

  /**
   Neither less nor more, under any interleaving: from a fresh map on, `ranges_since(n)` reports a byte
   of the device exactly when its chunk was stamped with an era above `n` by a request that holds a
   byte of that chunk.
   */
  lemma OverlappingReport(sh: R.Shape, run: seq<R.Step>, n: nat, b: nat)
    requires sh.g > 0 && b < sh.size && R.Inv(sh, R.Fresh(sh)) && R.ValidRun(sh, R.Fresh(sh), run)
    ensures var m := R.Run(sh, R.Fresh(sh), run);
      |m.eras| == Chunks(sh.size, sh.g) &&
      (Denotes(RangesOf(m.eras, n, sh.size, sh.g), b) <==> StampedAbove(sh, R.Fresh(sh), run, R.ChunkOf(sh, b), n))
  {
    ChunkOfByte(sh.size, sh.g, b);
    RunIsHistory(sh, R.Fresh(sh), run, R.ChunkOf(sh, b), n);
    RangesExact(R.Run(sh, R.Fresh(sh), run).eras, n, sh.size, sh.g, b);
  }

  // ---------------------------------------------------------------- the step machine agrees

  /** The steps of one call on its own: entry, one load, the stamps from chunk `k` on, the second load. */
  function StampSteps(id: nat, k: nat, last: nat): seq<R.Step>
    decreases last + 1 - k
  {
    if k > last then [R.Reload(id)] else [R.StampNext(id)] + StampSteps(id, k + 1, last)
  }

  ghost predicate NoClose(run: seq<R.Step>) {
    forall i :: 0 <= i < |run| ==> run[i] != R.Close
  }

  ghost predicate InCall(sh: R.Shape, m: R.Mem, id: nat, k: nat)
    requires sh.g > 0
  {
    && R.Inv(sh, m) && id in m.ios && R.Marks(sh, m.ios[id]) && m.ios[id].pc == R.Stamping(m.era, k)
    && k <= R.LastChunk(sh, m.ios[id]) + 1
  }

  lemma {:induction false} StampsAlone(sh: R.Shape, m: R.Mem, id: nat, k: nat)
    requires sh.g > 0 && InCall(sh, m, id, k)
    ensures var io := m.ios[id];
      var run := StampSteps(id, k, R.LastChunk(sh, io));
      R.ValidRun(sh, m, run) &&
      R.Run(sh, m, run) == R.Mem(m.era, StampRange(m.eras, k, R.LastChunk(sh, io), m.era), m.ios[id := io.(pc := R.Stamped)])
    ensures NoClose(StampSteps(id, k, R.LastChunk(sh, m.ios[id])))
    decreases R.LastChunk(sh, m.ios[id]) + 1 - k
  {
    var io := m.ios[id];
    var last := R.LastChunk(sh, io);
    R.FirstBeforeLast(sh, io);
    if k > last {
      var m1 := R.Apply(sh, m, R.Reload(id));
      R.StepKeepsInv(sh, m, R.Reload(id));
      assert [R.Reload(id)][1..] == [];
      assert R.ValidRun(sh, m1, []) && R.Run(sh, m1, []) == m1;
      assert StampRange(m.eras, k, last, m.era) == m.eras;
    } else {
      var run := StampSteps(id, k, last);
      var m1 := R.Apply(sh, m, R.StampNext(id));
      R.StepKeepsInv(sh, m, R.StampNext(id));
      assert run[1..] == StampSteps(id, k + 1, last);
      StampsAlone(sh, m1, id, k + 1);
      assert StampRange(m1.eras, k + 1, last, m.era) == StampRange(m.eras, k, last, m.era);
      assert m1.ios[id := m1.ios[id].(pc := R.Stamped)] == m.ios[id := io.(pc := R.Stamped)];
    }
  }

  lemma EnteredIsRun(sh: R.Shape, m: R.Mem, id: nat) returns (run: seq<R.Step>)
    requires sh.g > 0 && R.Inv(sh, m) && R.Enabled(sh, m, R.Load(id))
    ensures R.ValidRun(sh, m, run) && NoClose(run)
    ensures var io := m.ios[id];
      R.Run(sh, m, run) == R.Mem(m.era, Marked(sh, m.eras, m.era, io.off, io.len),
                                 m.ios[id := io.(pc := R.Stamped, passes := io.passes + 1)])
  {
    hide R.ChunkOf;
    var io := m.ios[id];
    var m1 := R.Apply(sh, m, R.Load(id));
    R.StepKeepsInv(sh, m, R.Load(id));
    R.FirstBeforeLast(sh, io);
    var rest := StampSteps(id, R.FirstChunk(sh, io), R.LastChunk(sh, io));
    StampsAlone(sh, m1, id, R.FirstChunk(sh, io));
    run := [R.Load(id)] + rest;
    assert run[1..] == rest;
    assert m1.ios[id := m1.ios[id].(pc := R.Stamped)] == m.ios[id := io.(pc := R.Stamped, passes := io.passes + 1)];
  }

  lemma RunCons(sh: R.Shape, m: R.Mem, a: R.Step, rest: seq<R.Step>)
    requires sh.g > 0 && R.Inv(sh, m) && R.Enabled(sh, m, a) && R.Inv(sh, R.Apply(sh, m, a))
    requires R.ValidRun(sh, R.Apply(sh, m, a), rest)
    ensures R.ValidRun(sh, m, [a] + rest) && R.Run(sh, m, [a] + rest) == R.Run(sh, R.Apply(sh, m, a), rest)
  {
    hide R.Enabled, R.Apply, R.Inv;
    assert ([a] + rest)[1..] == rest;
  }

  /**
   `mark_write` without interference is a run of the step machine: it ends stamped after one pass, with
   exactly the eras that `Marked` gives.
   */
  lemma MarkIsRun(sh: R.Shape, m: R.Mem, id: nat) returns (run: seq<R.Step>)
    requires sh.g > 0 && R.Inv(sh, m) && id in m.ios && m.ios[id].pc.Issued?
    ensures R.ValidRun(sh, m, run) && NoClose(run)
    ensures var io := m.ios[id];
      var m' := R.Run(sh, m, run);
      && m'.era == m.era && m'.eras == Marked(sh, m.eras, m.era, io.off, io.len)
      && m'.ios.Keys == m.ios.Keys && m'.ios[id].pc.Stamped? && m'.ios[id].passes <= 1
      && forall x :: x in m.ios && x != id ==> m'.ios[x] == m.ios[x]
  {
    hide R.ValidRun, R.Run, Marked;
    var io := m.ios[id];
    var m1 := R.Apply(sh, m, R.Complete(id));
    R.StepKeepsInv(sh, m, R.Complete(id));
    assert R.IoInv(sh, m, io);
    var rest := [];
    if R.Marks(sh, io) {
      rest := EnteredIsRun(sh, m1, id);
    } else {
      EmptyRun(sh, m1);
      UnmarkedStays(sh, m, io);
    }
    RunCons(sh, m, R.Complete(id), rest);
    run := [R.Complete(id)] + rest;
  }

  lemma EmptyRun(sh: R.Shape, m: R.Mem)
    requires sh.g > 0 && R.Inv(sh, m)
    ensures R.ValidRun(sh, m, []) && R.Run(sh, m, []) == m
  {}

  lemma UnmarkedStays(sh: R.Shape, m: R.Mem, io: R.Io)
    requires sh.g > 0 && R.Inv(sh, m) && !R.Marks(sh, io)
    ensures Marked(sh, m.eras, m.era, io.off, io.len) == m.eras
  {}

  lemma {:induction false} RunConcat(sh: R.Shape, m: R.Mem, a: seq<R.Step>, b: seq<R.Step>)
    requires sh.g > 0 && R.Inv(sh, m) && R.ValidRun(sh, m, a) && R.Inv(sh, R.Run(sh, m, a))
    requires R.ValidRun(sh, R.Run(sh, m, a), b)
    ensures R.ValidRun(sh, m, a + b) && R.Run(sh, m, a + b) == R.Run(sh, R.Run(sh, m, a), b)
    decreases |a|
  {
    hide R.Enabled, R.Apply;
    if a == [] {
      assert a + b == b;
    } else {
      R.StepKeepsInv(sh, m, a[0]);
      assert (a + b)[1..] == a[1..] + b;
      RunConcat(sh, R.Apply(sh, m, a[0]), a[1..], b);
    }
  }

  /** A whole request, alone: submitted, over, stamped, acknowledged. */
  lemma RequestIsRun(sh: R.Shape, m: R.Mem, off: nat, len: nat) returns (run: seq<R.Step>)
    requires sh.g > 0 && R.Inv(sh, m) && m.ios == map[]
    ensures R.ValidRun(sh, m, run) && R.Run(sh, m, run) == R.Mem(m.era, Marked(sh, m.eras, m.era, off, len), map[])
  {
    hide Marked, R.Run, R.ValidRun;
    var m1 := R.Apply(sh, m, R.Submit(0, off, len));
    R.StepKeepsInv(sh, m, R.Submit(0, off, len));
    var mark := MarkIsRun(sh, m1, 0);
    R.RunKeepsInv(sh, m1, mark);
    var m2 := R.Run(sh, m1, mark);
    R.StepKeepsInv(sh, m2, R.Ack(0));
    var m3 := R.Apply(sh, m2, R.Ack(0));
    assert m3.ios == map[];
    EmptyRun(sh, m3);
    RunCons(sh, m2, R.Ack(0), []);
    RunConcat(sh, m1, mark, [R.Ack(0)] + []);
    RunCons(sh, m, R.Submit(0, off, len), mark + ([R.Ack(0)] + []));
    run := [R.Submit(0, off, len)] + (mark + ([R.Ack(0)] + []));
  }

  lemma LastByteInLastChunk(size: nat, g: nat)
    requires g > 0 && size > 0
    ensures 0 / g == 0 && 0 < Chunks(size, g) <= (size - 1) / g + 1
  {
    ChunkOfByte(size, g, 0);
    var last: nat := Chunks(size, g) - 1;
    ChunkStartsInside(size, g, last);
    MulMonotone(0, last, g);
    var start: nat := last * g;
    DivMonotone(start, size - 1, g);
    ChunkEdges(start, last, g);
  }

  /** `mark_all_dirty` is a write of the whole device. */
  lemma AllIsOneRange(sh: R.Shape, eras: seq<nat>, era: nat)
    requires sh.g > 0 && |eras| == Chunks(sh.size, sh.g)
    ensures StampRange(eras, 0, |eras|, era) == Marked(sh, eras, era, 0, sh.size)
  {
    if sh.size == 0 {
      ChunksBound(0, sh.g);
    } else {
      LastByteInLastChunk(sh.size, sh.g);
      assert R.ChunkOf(sh, 0) == 0 && R.ChunkOf(sh, sh.size - 1) >= |eras| - 1;
      hide R.ChunkOf, Chunks;
    }
  }

  /** The eras that a history of calls makes are those of a run of the step machine from a fresh map. */
  lemma {:induction false} CallsAreRun(sh: R.Shape, calls: seq<Call>) returns (run: seq<R.Step>)
    requires sh.g > 0
    ensures R.Inv(sh, R.Fresh(sh)) && R.ValidRun(sh, R.Fresh(sh), run)
    ensures R.Run(sh, R.Fresh(sh), run) == R.Mem(EraAfter(calls), ErasAfter(sh, calls), map[])
    decreases |calls|
  {
    hide Marked, R.Run, R.ValidRun;
    if calls == [] {
      EmptyRun(sh, R.Fresh(sh));
      run := [];
    } else {
      var n := |calls| - 1;
      var init := CallsAreRun(sh, calls[..n]);
      R.RunKeepsInv(sh, R.Fresh(sh), init);
      var m := R.Run(sh, R.Fresh(sh), init);
      var more;
      match calls[n] {
        case Mark(off, len) => more := RequestIsRun(sh, m, off, len);
        case MarkAll =>
          AllIsOneRange(sh, m.eras, m.era);
          more := RequestIsRun(sh, m, 0, sh.size);
        case Checkpoint =>
          R.StepKeepsInv(sh, m, R.Close);
          EmptyRun(sh, R.Apply(sh, m, R.Close));
          RunCons(sh, m, R.Close, []);
          more := [R.Close] + [];
      }
      RunConcat(sh, R.Fresh(sh), init, more);
      run := init + more;
    }
  }
}
