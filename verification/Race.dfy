/**
 The era map under interleaving: any number of data-changing requests, each with its own program
 counter inside `mark_write`, racing checkpoints and scans that take no lock. Every atomic load,
 `fetch_max` and `fetch_add` is one step.
 */
module Race {
  import opened Geometry
  import opened Ranges

  /** Size and granularity of the tracked device. */
  datatype Shape = Shape(size: nat, g: nat)

  /** Where a request is: its backing IO runs, its call is about to load the era, it stamps, it is stamped. */
  datatype Pc = Issued | Entering | Stamping(era: nat, next: nat) | Stamped

  /** `born` is the era when the call began, `passes` the number of stamping passes it has started. */
  datatype Io = Io(off: nat, len: nat, pc: Pc, passes: nat, born: nat)

  datatype Mem = Mem(era: nat, eras: seq<nat>, ios: map<nat, Io>)

  /** A fresh history: era 1, nothing written, nobody writing. */
  function Fresh(sh: Shape): Mem
    requires sh.g > 0
  {
    Mem(1, seq(Chunks(sh.size, sh.g), i => 0), map[])
  }

  datatype Step =
    | Submit(id: nat, off: nat, len: nat)
    | Complete(id: nat)   // the backing IO is over, `mark_write` is entered
    | Load(id: nat)       // first load of the current era
    | StampNext(id: nat)  // one `fetch_max`
    | Reload(id: nat)     // second load: done, or once more
    | Ack(id: nat)        // completion reported to the driver
    | Close               // checkpoint: `fetch_add(1)`

  /** The chunk that holds byte `b`. */
  function ChunkOf(sh: Shape, b: nat): nat
    requires sh.g > 0
  {
    b / sh.g
  }

  lemma ChunkOfMonotone(sh: Shape, x: nat, y: nat)
    requires sh.g > 0 && x <= y
    ensures ChunkOf(sh, x) <= ChunkOf(sh, y)
  {
    DivMonotone(x, y, sh.g);
  }

  lemma ChunkOfInside(sh: Shape, b: nat)
    requires sh.g > 0 && b < sh.size
    ensures ChunkOf(sh, b) < Chunks(sh.size, sh.g)
  {
    ChunkOfByte(sh.size, sh.g, b);
  }

  predicate Covers(io: Io, b: nat) { io.off <= b < io.off + io.len }

  /** The call does not return early: the range is not empty and starts on the device. */
  predicate Marks(sh: Shape, io: Io)
    requires sh.g > 0
  {
    io.len > 0 && ChunkOf(sh, io.off) < Chunks(sh.size, sh.g)
  }

  function FirstChunk(sh: Shape, io: Io): nat
    requires sh.g > 0
  {
    ChunkOf(sh, io.off)
  }

  /** The last covered chunk, clamped to the array. */
  function LastChunk(sh: Shape, io: Io): nat
    requires sh.g > 0 && Marks(sh, io)
  {
    Min(ChunkOf(sh, io.off + io.len - 1), Chunks(sh.size, sh.g) - 1)
  }

  predicate Enabled(sh: Shape, m: Mem, s: Step)
    requires sh.g > 0
  {
    match s
    case Submit(id, off, len) => id !in m.ios
    case Complete(id) => id in m.ios && m.ios[id].pc.Issued?
    case Load(id) => id in m.ios && m.ios[id].pc.Entering? && Marks(sh, m.ios[id])
    case StampNext(id) =>
      && id in m.ios && m.ios[id].pc.Stamping? && Marks(sh, m.ios[id])
      && m.ios[id].pc.next <= LastChunk(sh, m.ios[id])
    case Reload(id) =>
      && id in m.ios && m.ios[id].pc.Stamping? && Marks(sh, m.ios[id])
      && m.ios[id].pc.next > LastChunk(sh, m.ios[id])
    case Ack(id) => id in m.ios && m.ios[id].pc.Stamped?
    case Close => true
  }

  function Apply(sh: Shape, m: Mem, s: Step): Mem
    requires sh.g > 0 && Enabled(sh, m, s) && |m.eras| == Chunks(sh.size, sh.g)
  {
    match s
    case Submit(id, off, len) => m.(ios := m.ios[id := Io(off, len, Issued, 0, 0)])
    case Complete(id) =>
      var io := m.ios[id];
      m.(ios := m.ios[id := io.(pc := if Marks(sh, io) then Entering else Stamped, born := m.era)])
    case Load(id) =>
      var io := m.ios[id];
      m.(ios := m.ios[id := io.(pc := Stamping(m.era, FirstChunk(sh, io)), passes := io.passes + 1)])
    case StampNext(id) =>
      var io := m.ios[id];
      var k := io.pc.next;
      m.(eras := m.eras[k := Max(m.eras[k], io.pc.era)],
         ios := m.ios[id := io.(pc := Stamping(io.pc.era, k + 1))])
    case Reload(id) =>
      var io := m.ios[id];
      m.(ios := m.ios[id := io.(pc := if m.era == io.pc.era then Stamped else Entering)])
    case Ack(id) => m.(ios := m.ios - {id})
    case Close => m.(era := m.era + 1)
  }

  // ---------------------------------------------------------------- the invariant

  /** What a request's program counter promises. */
  ghost predicate IoInv(sh: Shape, m: Mem, io: Io)
    requires sh.g > 0
  {
    match io.pc
    case Issued => io.passes == 0
    case Entering => Marks(sh, io) && io.born <= m.era && io.passes <= m.era - io.born
    case Stamping(e, k) =>
      && Marks(sh, io) && io.born <= e <= m.era && 1 <= io.passes <= 1 + (e - io.born)
      && FirstChunk(sh, io) <= k <= LastChunk(sh, io) + 1
      && forall j :: FirstChunk(sh, io) <= j < k && j < |m.eras| ==> m.eras[j] >= e
    case Stamped => io.born <= m.era && io.passes <= 1 + (m.era - io.born)
  }

  ghost predicate Inv(sh: Shape, m: Mem)
    requires sh.g > 0
  {
    && |m.eras| == Chunks(sh.size, sh.g)
    && m.era >= 1
    && (forall i :: 0 <= i < |m.eras| ==> m.eras[i] <= m.era)
    && forall id :: id in m.ios ==> IoInv(sh, m, m.ios[id])
  }

  /** No chunk's era and not the current era ever goes down. */
  ghost predicate Later(m: Mem, m': Mem) {
    && m.era <= m'.era && |m.eras| == |m'.eras|
    && forall i :: 0 <= i < |m.eras| ==> m.eras[i] <= m'.eras[i]
  }

  lemma FirstBeforeLast(sh: Shape, io: Io)
    requires sh.g > 0 && Marks(sh, io)
    ensures FirstChunk(sh, io) <= LastChunk(sh, io) < Chunks(sh.size, sh.g)
  {
    hide ChunkOf;
    ChunkOfMonotone(sh, io.off, io.off + io.len - 1);
  }

  lemma IoInvLater(sh: Shape, m: Mem, m': Mem, io: Io)
    requires sh.g > 0 && Later(m, m') && IoInv(sh, m, io)
    ensures IoInv(sh, m', io)
  {}

  /** Every step keeps the invariant and only moves eras up. */
  lemma StepKeepsInv(sh: Shape, m: Mem, s: Step)
    requires sh.g > 0 && Inv(sh, m) && Enabled(sh, m, s)
    ensures Inv(sh, Apply(sh, m, s)) && Later(m, Apply(sh, m, s))
  {
    hide ChunkOf;
    var m' := Apply(sh, m, s);
    if !s.Submit? && !s.Close? && Marks(sh, m.ios[s.id]) {
      FirstBeforeLast(sh, m.ios[s.id]);
    }
    assert Later(m, m');
    forall id | id in m'.ios ensures IoInv(sh, m', m'.ios[id]) {
      if id in m.ios {
        assert IoInv(sh, m, m.ios[id]);
        IoInvLater(sh, m, m', m.ios[id]);
      }
    }
  }

  // ---------------------------------------------------------------- coverage

  /** A request over byte `b` has not finished stamping (its backing IO may still be running). */
  ghost predicate Open(m: Mem, b: nat) {
    exists id :: id in m.ios && !m.ios[id].pc.Stamped? && Covers(m.ios[id], b)
  }

  /** Byte `b` is in a chunk that `eras` records as newer than `n`. */
  ghost predicate Newer(sh: Shape, eras: seq<nat>, n: nat, b: nat)
    requires sh.g > 0
  {
    ChunkOf(sh, b) < |eras| && eras[ChunkOf(sh, b)] > n
  }

  /** Byte `b` is not vouched for at cursor `n`: its chunk is newer, or a request over it is unfinished. */
  ghost predicate Above(sh: Shape, m: Mem, n: nat, b: nat)
    requires sh.g > 0
  {
    Open(m, b) || Newer(sh, m.eras, n, b)
  }

  lemma CoveredChunk(sh: Shape, io: Io, b: nat)
    requires sh.g > 0 && Covers(io, b) && b < sh.size
    ensures Marks(sh, io) && FirstChunk(sh, io) <= ChunkOf(sh, b) <= LastChunk(sh, io)
  {
    hide ChunkOf;
    ChunkOfInside(sh, b);
    ChunkOfMonotone(sh, io.off, b);
    ChunkOfMonotone(sh, b, io.off + io.len - 1);
  }

  /**
   The load that ends a call: if it sees the era it stamped with, every chunk the request covers
   carries the era current at that moment.
   */
  lemma ReloadPublishes(sh: Shape, m: Mem, id: nat, b: nat)
    requires sh.g > 0 && Inv(sh, m) && Enabled(sh, m, Reload(id)) && m.ios[id].pc.era == m.era
    requires Covers(m.ios[id], b) && b < sh.size
    ensures ChunkOf(sh, b) < |m.eras| && m.eras[ChunkOf(sh, b)] == m.era
  {
    CoveredChunk(sh, m.ios[id], b);
    ChunkOfByte(sh.size, sh.g, b);
    assert IoInv(sh, m, m.ios[id]);
  }

  /**
   Nothing is lost: once a byte is above a closed era `n`, no step of any request or checkpoint makes
   it look unchanged since `n` again.
   */
  lemma AboveIsStable(sh: Shape, m: Mem, s: Step, n: nat, b: nat)
    requires sh.g > 0 && Inv(sh, m) && Enabled(sh, m, s) && n < m.era && b < sh.size
    requires Above(sh, m, n, b)
    ensures Above(sh, Apply(sh, m, s), n, b)
  {
    var m' := Apply(sh, m, s);
    StepKeepsInv(sh, m, s);
    ChunkOfByte(sh.size, sh.g, b);
    if !(m.eras[ChunkOf(sh, b)] > n) {
      var id :| id in m.ios && !m.ios[id].pc.Stamped? && Covers(m.ios[id], b);
      CoveredChunk(sh, m.ios[id], b);
      if id in m'.ios && !m'.ios[id].pc.Stamped? {
        assert Covers(m'.ios[id], b);
      } else {
        assert s == Reload(id);
        ReloadPublishes(sh, m, id, b);
      }
    }
  }

  // ---------------------------------------------------------------- runs

  ghost predicate ValidRun(sh: Shape, m: Mem, run: seq<Step>)
    requires sh.g > 0 && Inv(sh, m)
    decreases |run|
  {
    run == [] || (Enabled(sh, m, run[0]) && (StepKeepsInv(sh, m, run[0]); ValidRun(sh, Apply(sh, m, run[0]), run[1..])))
  }

  ghost function Run(sh: Shape, m: Mem, run: seq<Step>): (r: Mem)
    requires sh.g > 0 && Inv(sh, m) && ValidRun(sh, m, run)
    decreases |run|
  {
    if run == [] then m
    else
      StepKeepsInv(sh, m, run[0]);
      Run(sh, Apply(sh, m, run[0]), run[1..])
  }

  lemma LaterTransitive(a: Mem, b: Mem, c: Mem)
    requires Later(a, b) && Later(b, c)
    ensures Later(a, c)
  {}

  lemma {:induction false} RunKeepsInv(sh: Shape, m: Mem, run: seq<Step>)
    requires sh.g > 0 && Inv(sh, m) && ValidRun(sh, m, run)
    ensures Inv(sh, Run(sh, m, run)) && Later(m, Run(sh, m, run))
    decreases |run|
  {
    if run != [] {
      StepKeepsInv(sh, m, run[0]);
      RunKeepsInv(sh, Apply(sh, m, run[0]), run[1..]);
      LaterTransitive(m, Apply(sh, m, run[0]), Run(sh, m, run));
    }
  }

  /**
   The lost-write question over whole runs: in every run from any reachable state, a byte that is
   above a closed era stays above it, however many requests and checkpoints interleave.
   */
  lemma {:induction false} NeverForgotten(sh: Shape, m: Mem, run: seq<Step>, n: nat, b: nat)
    requires sh.g > 0 && Inv(sh, m) && ValidRun(sh, m, run) && n < m.era && b < sh.size
    requires Above(sh, m, n, b)
    ensures Above(sh, Run(sh, m, run), n, b)
    decreases |run|
  {
    if run != [] {
      AboveIsStable(sh, m, run[0], n, b);
      StepKeepsInv(sh, m, run[0]);
      NeverForgotten(sh, Apply(sh, m, run[0]), run[1..], n, b);
    }
  }

  ghost function Closes(run: seq<Step>): nat {
    if run == [] then 0 else (if run[0].Close? then 1 else 0) + Closes(run[1..])
  }

  lemma {:induction false} ClosesCount(sh: Shape, m: Mem, run: seq<Step>)
    requires sh.g > 0 && Inv(sh, m) && ValidRun(sh, m, run)
    ensures Run(sh, m, run).era == m.era + Closes(run)
    decreases |run|
  {
    if run != [] {
      StepKeepsInv(sh, m, run[0]);
      ClosesCount(sh, Apply(sh, m, run[0]), run[1..]);
    }
  }

  /** Request `id` takes part in no step of `run` that would begin or end it. */
  ghost predicate SameCall(run: seq<Step>, id: nat) {
    forall i :: 0 <= i < |run| ==> run[i] != Ack(id) && run[i] != Complete(id)
  }

  /** The passes that request `id` starts in `run`. */
  ghost function Loads(run: seq<Step>, id: nat): nat {
    if run == [] then 0 else (if run[0] == Load(id) then 1 else 0) + Loads(run[1..], id)
  }

  lemma {:induction false} CallIsKept(sh: Shape, m: Mem, run: seq<Step>, id: nat)
    requires sh.g > 0 && Inv(sh, m) && ValidRun(sh, m, run) && SameCall(run, id)
    requires id in m.ios
    ensures id in Run(sh, m, run).ios && Run(sh, m, run).ios[id].born == m.ios[id].born
    ensures Run(sh, m, run).ios[id].passes == m.ios[id].passes + Loads(run, id)
    decreases |run|
  {
    if run != [] {
      StepKeepsInv(sh, m, run[0]);
      assert run[0] != Ack(id);
      assert SameCall(run[1..], id) by {
        assert forall i :: 0 <= i < |run[1..]| ==> run[1..][i] == run[i + 1];
      }
      CallIsKept(sh, Apply(sh, m, run[0]), run[1..], id);
    }
  }

  /**
   The retry loop is bounded by the checkpoints that race it: from the moment a call begins until it
   has ended, it starts at most one pass more than the checkpoints that ran meanwhile.
   */
  lemma PassesBounded(sh: Shape, m: Mem, id: nat, run: seq<Step>)
    requires sh.g > 0 && Inv(sh, m) && Enabled(sh, m, Complete(id))
    requires Inv(sh, Apply(sh, m, Complete(id))) && ValidRun(sh, Apply(sh, m, Complete(id)), run)
    requires SameCall(run, id)
    ensures Loads(run, id) <= 1 + Closes(run)
  {
    var begun := Apply(sh, m, Complete(id));
    assert IoInv(sh, m, m.ios[id]);
    RunKeepsInv(sh, begun, run);
    ClosesCount(sh, begun, run);
    CallIsKept(sh, begun, run, id);
    var m' := Run(sh, begun, run);
    assert IoInv(sh, m', m'.ios[id]);
  }

  // ---------------------------------------------------------------- scans

  /** A schedule of a scan: at each turn either somebody steps or the scan loads its next chunk. */
  datatype Turn = Other(step: Step) | ScanLoad

  ghost predicate ValidScan(sh: Shape, m: Mem, vals: seq<nat>, turns: seq<Turn>)
    requires sh.g > 0 && Inv(sh, m) && |vals| <= |m.eras|
    decreases |turns|
  {
    turns == [] ||
    match turns[0]
    case Other(s) => Enabled(sh, m, s) && (StepKeepsInv(sh, m, s); ValidScan(sh, Apply(sh, m, s), vals, turns[1..]))
    case ScanLoad => |vals| < |m.eras| && ValidScan(sh, m, vals + [m.eras[|vals|]], turns[1..])
  }

  /** The memory and the loaded values after the turns. */
  ghost function Scan(sh: Shape, m: Mem, vals: seq<nat>, turns: seq<Turn>): (r: (Mem, seq<nat>))
    requires sh.g > 0 && Inv(sh, m) && |vals| <= |m.eras| && ValidScan(sh, m, vals, turns)
    decreases |turns|
  {
    if turns == [] then (m, vals)
    else match turns[0]
      case Other(s) => StepKeepsInv(sh, m, s); Scan(sh, Apply(sh, m, s), vals, turns[1..])
      case ScanLoad => Scan(sh, m, vals + [m.eras[|vals|]], turns[1..])
  }

  lemma {:induction false} ScanBetween(sh: Shape, m: Mem, vals: seq<nat>, turns: seq<Turn>)
    requires sh.g > 0 && Inv(sh, m) && |vals| <= |m.eras| && ValidScan(sh, m, vals, turns)
    requires forall c :: 0 <= c < |vals| ==> vals[c] <= m.eras[c]
    ensures var (m', vals') := Scan(sh, m, vals, turns);
      && Inv(sh, m') && Later(m, m') && |vals| <= |vals'| <= |m'.eras|
      && (forall c :: 0 <= c < |vals| ==> vals'[c] == vals[c])
      && (forall c :: |vals| <= c < |vals'| ==> m.eras[c] <= vals'[c])
      && (forall c :: 0 <= c < |vals'| ==> vals'[c] <= m'.eras[c])
    decreases |turns|
  {
    if turns != [] {
      match turns[0]
      case Other(s) =>
        StepKeepsInv(sh, m, s);
        var m1 := Apply(sh, m, s);
        ScanBetween(sh, m1, vals, turns[1..]);
        LaterTransitive(m, m1, Scan(sh, m1, vals, turns[1..]).0);
      case ScanLoad =>
        ScanBetween(sh, m, vals + [m.eras[|vals|]], turns[1..]);
    }
  }

  /**
   A dump that takes no snapshot: however its loads interleave with requests and checkpoints, the
   ranges it builds report every byte of a chunk that was newer than `since` when it started, and no
   byte of a chunk that is not newer when it ends.
   */
  lemma NonAtomicScan(sh: Shape, m: Mem, turns: seq<Turn>, since: nat, b: nat)
    requires sh.g > 0 && Inv(sh, m) && ValidScan(sh, m, [], turns) && b < sh.size
    requires |Scan(sh, m, [], turns).1| == |m.eras|
    ensures var (m', vals) := Scan(sh, m, [], turns);
      && |m'.eras| == |vals| == |m.eras| == Chunks(sh.size, sh.g) && ChunkOf(sh, b) < |m.eras|
      && (m.eras[ChunkOf(sh, b)] > since ==> Denotes(RangesOf(vals, since, sh.size, sh.g), b))
      && (Denotes(RangesOf(vals, since, sh.size, sh.g), b) ==> m'.eras[ChunkOf(sh, b)] > since)
  {
    ScanBetween(sh, m, [], turns);
    ChunkOfByte(sh.size, sh.g, b);
    RangesExact(Scan(sh, m, [], turns).1, since, sh.size, sh.g, b);
  }
}
