/**
 The per-tag request state machine of the target: which completion-queue event of a tag makes it
 submit, resubmit, stamp or complete, and what every log of such a queue looks like.
 */
module Tags {
  import opened Bytes
  import opened Options
  import opened EraHistory
  import opened Geometry
  import E = EraState
  import M = MetaCodec
  import R = Race

  datatype OpCode = ReadOp | WriteOp | FlushOp | DiscardOp | OtherOp

  /** A request as the driver describes it, in sectors of 512 bytes. */
  datatype Cmd = Cmd(op: OpCode, startSector: nat, nrSectors: nat)

  function Offset(cmd: Cmd): nat { cmd.startSector * 512 }

  function Length(cmd: Cmd): nat { cmd.nrSectors * 512 }

  /** The backing-store request of an op; the buffered ones carry a 32-bit length. */
  datatype Sqe = Fsync | ReadAt(off: nat, len: nat) | WriteAt(off: nat, len: nat) | PunchHole(off: nat, len: nat)

  function MakeSqe(op: OpCode, off: nat, len: nat): Option<Sqe> {
    match op
    case FlushOp => Some(Fsync)
    case ReadOp => Some(ReadAt(off, len % U32_SPAN))
    case WriteOp => Some(WriteAt(off, len % U32_SPAN))
    case DiscardOp => Some(PunchHole(off, len))
    case OtherOp => None
  }

  predicate ChangesData(op: OpCode) { op.WriteOp? || op.DiscardOp? }

  const EAGAIN: int := 11
  const EINVAL: int := 22

  datatype Event =
    | Fetched(tag: nat, cmd: Cmd)
    | Submitted(tag: nat, sqe: Sqe)
    | BackingDone(tag: nat, res: int)
    | StampedRange(tag: nat, off: nat, len: nat)
    | Completed(tag: nat, res: int)

  /** What one event makes the handler do. */
  function Turn(tag: nat, cmd: Cmd, isTgtIo: bool, res: int): (es: seq<Event>)
    ensures es != []
  {
    if isTgtIo && res != -EAGAIN then
      (if ChangesData(cmd.op) then [StampedRange(tag, Offset(cmd), Length(cmd))] else []) + [Completed(tag, res)]
    else
      match MakeSqe(cmd.op, Offset(cmd), Length(cmd))
      case Some(sqe) => [Submitted(tag, sqe)]
      case None => [Completed(tag, -EINVAL)]
  }

  // ---------------------------------------------------------------- whole runs of a queue

  /** A tag waits for a command, or its backing IO is outstanding. */
  datatype Tag = Armed | Backing(cmd: Cmd)

  datatype State = State(tags: map<nat, Tag>, log: seq<Event>)

  /** The driver hands a command to an armed tag; the kernel ends an outstanding backing IO. */
  datatype Cqe = Deliver(tag: nat, cmd: Cmd) | BackingCqe(tag: nat, res: int)

  predicate Enabled(s: State, e: Cqe) {
    && e.tag in s.tags
    && (e.Deliver? ==> s.tags[e.tag].Armed?)
    && (e.BackingCqe? ==> s.tags[e.tag].Backing?)
  }

  function CmdOf(s: State, e: Cqe): Cmd
    requires Enabled(s, e)
  {
    match e
    case Deliver(_, cmd) => cmd
    case BackingCqe(tag, _) => s.tags[tag].cmd
  }

  /** The event itself, then what the handler does about it. */
  function Happens(s: State, e: Cqe): seq<Event>
    requires Enabled(s, e)
  {
    match e
    case Deliver(tag, cmd) => [Fetched(tag, cmd)] + Turn(tag, cmd, false, 0)
    case BackingCqe(tag, res) => [BackingDone(tag, res)] + Turn(tag, s.tags[tag].cmd, true, res)
  }

  function Apply(s: State, e: Cqe): State
    requires Enabled(s, e)
  {
    var es := Happens(s, e);
    var next := if es[|es| - 1].Submitted? then Backing(CmdOf(s, e)) else Armed;
    State(s.tags[e.tag := next], s.log + es)
  }

  datatype Kind = IsFetched | IsSubmitted | IsBackingDone | IsCompleted

  predicate Is(e: Event, tag: nat, kind: Kind) {
    && e.tag == tag
    && match kind
       case IsFetched => e.Fetched?
       case IsSubmitted => e.Submitted?
       case IsBackingDone => e.BackingDone?
       case IsCompleted => e.Completed?
  }

  function Count(log: seq<Event>, tag: nat, kind: Kind): nat {
    if log == [] then 0
    else Count(log[..|log| - 1], tag, kind) + if Is(log[|log| - 1], tag, kind) then 1 else 0
  }

  /** The command the tag was last given. */
  function LastFetch(log: seq<Event>, tag: nat): Option<Cmd> {
    if log == [] then None
    else if log[|log| - 1].Fetched? && log[|log| - 1].tag == tag then Some(log[|log| - 1].cmd)
    else LastFetch(log[..|log| - 1], tag)
  }

  /** Fetches pair up with completions and submissions with backing completions, but for the one outstanding. */
  ghost predicate Balanced(s: State) {
    forall t :: t in s.tags ==>
      var open := if s.tags[t].Backing? then 1 else 0;
      && Count(s.log, t, IsFetched) == Count(s.log, t, IsCompleted) + open
      && Count(s.log, t, IsSubmitted) == Count(s.log, t, IsBackingDone) + open
  }

  ghost predicate Remembers(s: State) {
    forall t :: t in s.tags && s.tags[t].Backing? ==> LastFetch(s.log, t) == Some(s.tags[t].cmd)
  }

  /**
   The backing-store request that a command asks for: of its own kind, at its byte offset, over its bytes;
   the kinds whose length has 32 bits carry the length modulo 2^32.
   */
  predicate AsksFor(cmd: Cmd, sqe: Sqe) {
    var off, len := 512 * cmd.startSector, 512 * cmd.nrSectors;
    match cmd.op
    case ReadOp => sqe.ReadAt? && sqe.off == off && sqe.len == len % 0x1_0000_0000
    case WriteOp => sqe.WriteAt? && sqe.off == off && sqe.len == len % 0x1_0000_0000
    case DiscardOp => sqe.PunchHole? && sqe.off == off && sqe.len == len
    case FlushOp => sqe.Fsync?
    case OtherOp => false
  }

  /** What must come before the completion of `cmd` in the log. */
  ghost predicate EndsRightly(log: seq<Event>, i: nat, cmd: Cmd)
    requires i < |log| && log[i].Completed?
  {
    var tag, res := log[i].tag, log[i].res;
    match cmd.op
    case WriteOp => i >= 2 && res != -11 && log[i - 2] == BackingDone(tag, res)
                    && log[i - 1] == StampedRange(tag, 512 * cmd.startSector, 512 * cmd.nrSectors)
    case DiscardOp => i >= 2 && res != -11 && log[i - 2] == BackingDone(tag, res)
                      && log[i - 1] == StampedRange(tag, 512 * cmd.startSector, 512 * cmd.nrSectors)
    case OtherOp => res == -22
    case _ => i >= 1 && res != -11 && log[i - 1] == BackingDone(tag, res)
  }

  /**
   The `i`-th event obeys the rules. A submission is the request that the tag's command asks for. A
   completed write or discard was stamped over its whole range right before, after its backing IO had
   ended with that same result, whatever the result; a completed read or flush follows its backing IO,
   an unsupported op is refused. A backing IO that ended with EAGAIN is submitted again at once.
   */
  ghost predicate Rule(log: seq<Event>, i: nat)
    requires i < |log|
  {
    && (log[i].Submitted? ==>
          exists cmd :: LastFetch(log[..i], log[i].tag) == Some(cmd) && AsksFor(cmd, log[i].sqe))
    && (log[i].Completed? ==>
          exists cmd :: LastFetch(log[..i], log[i].tag) == Some(cmd) && EndsRightly(log, i, cmd))
    && (log[i].BackingDone? && log[i].res == -11 ==>
          i + 1 < |log| && log[i + 1].Submitted? && log[i + 1].tag == log[i].tag)
  }

  ghost predicate Rules(log: seq<Event>) {
    forall i :: 0 <= i < |log| ==> Rule(log, i)
  }

  ghost predicate Supported(s: State) {
    forall t :: t in s.tags && s.tags[t].Backing? ==> !s.tags[t].cmd.op.OtherOp?
  }

  ghost predicate Inv(s: State) {
    Balanced(s) && Remembers(s) && Rules(s.log) && Supported(s)
  }

  lemma {:induction false} CountConcat(a: seq<Event>, b: seq<Event>, tag: nat, kind: Kind)
    ensures Count(a + b, tag, kind) == Count(a, tag, kind) + Count(b, tag, kind)
    decreases |b|
  {
    if b == [] {
      assert a + b == a;
    } else {
      assert (a + b)[..|a + b| - 1] == a + b[..|b| - 1];
      CountConcat(a, b[..|b| - 1], tag, kind);
    }
  }

  lemma {:induction false} LastFetchConcat(a: seq<Event>, b: seq<Event>, tag: nat)
    ensures LastFetch(a + b, tag) == if LastFetch(b, tag).Some? then LastFetch(b, tag) else LastFetch(a, tag)
    decreases |b|
  {
    if b == [] {
      assert a + b == a;
    } else {
      assert (a + b)[..|a + b| - 1] == a + b[..|b| - 1];
      LastFetchConcat(a, b[..|b| - 1], tag);
    }
  }

  /** A rule that held keeps holding when the log grows. */
  lemma RuleKept(a: seq<Event>, b: seq<Event>, i: nat)
    requires i < |a| && Rule(a, i)
    ensures Rule(a + b, i)
  {
    assert (a + b)[..i] == a[..i];
  }

  /** Short logs by cases: what happens at one event, counted. */
  lemma HappensCounts(s: State, e: Cqe, tag: nat)
    requires Enabled(s, e) && Supported(s)
    ensures var es := Happens(s, e);
      var begun := if e.Deliver? then 1 else 0;
      var open' := if es[|es| - 1].Submitted? then 1 else 0;
      if tag != e.tag then forall k :: Count(es, tag, k) == 0
      else
        && Count(es, tag, IsFetched) == begun && Count(es, tag, IsBackingDone) == 1 - begun
        && Count(es, tag, IsCompleted) == 1 - open' && Count(es, tag, IsSubmitted) == open'
    ensures LastFetch(Happens(s, e), tag) == if e.Deliver? && tag == e.tag then Some(e.cmd) else None
  {
    var es := Happens(s, e);
    if |es| == 2 {
      assert es == [es[0], es[1]];
      Two(es[0], es[1], tag);
    } else {
      assert es == [es[0], es[1], es[2]];
      Two(es[0], es[1], tag);
      assert es[..2] == [es[0], es[1]];
    }
  }

  lemma Two(a: Event, b: Event, tag: nat)
    ensures forall k :: Count([a, b], tag, k) == (if Is(a, tag, k) then 1 else 0) + (if Is(b, tag, k) then 1 else 0)
    ensures LastFetch([a, b], tag)
         == if b.Fetched? && b.tag == tag then Some(b.cmd) else if a.Fetched? && a.tag == tag then Some(a.cmd) else None
  {
    assert [a, b][..1] == [a];
    One(a, tag);
  }

  lemma One(a: Event, tag: nat)
    ensures forall k :: Count([a], tag, k) == if Is(a, tag, k) then 1 else 0
    ensures LastFetch([a], tag) == if a.Fetched? && a.tag == tag then Some(a.cmd) else None
  {
    assert [a][..0] == [];
  }

  lemma StepKeepsBalance(s: State, e: Cqe)
    requires Inv(s) && Enabled(s, e)
    ensures Balanced(Apply(s, e)) && Remembers(Apply(s, e)) && Supported(Apply(s, e))
  {
    var s', es := Apply(s, e), Happens(s, e);
    forall t | t in s'.tags
      ensures var open := if s'.tags[t].Backing? then 1 else 0;
        && Count(s'.log, t, IsFetched) == Count(s'.log, t, IsCompleted) + open
        && Count(s'.log, t, IsSubmitted) == Count(s'.log, t, IsBackingDone) + open
      ensures s'.tags[t].Backing? ==> LastFetch(s'.log, t) == Some(s'.tags[t].cmd)
    {
      HappensCounts(s, e, t);
      CountConcat(s.log, es, t, IsFetched);
      CountConcat(s.log, es, t, IsCompleted);
      CountConcat(s.log, es, t, IsSubmitted);
      CountConcat(s.log, es, t, IsBackingDone);
      LastFetchConcat(s.log, es, t);
    }
  }

  /** The command in force while a new event is handled. */
  lemma CommandInForce(s: State, e: Cqe, k: nat)
    requires Inv(s) && Enabled(s, e) && 0 < k < |Happens(s, e)|
    ensures LastFetch((s.log + Happens(s, e))[..|s.log| + k], e.tag) == Some(CmdOf(s, e))
  {
    var es := Happens(s, e);
    assert (s.log + es)[..|s.log| + k] == s.log + es[..k];
    LastFetchConcat(s.log, es[..k], e.tag);
    if k == 1 {
      assert es[..1] == [es[0]];
      assert [es[0]][..0] == [];
    } else {
      assert es[..2] == [es[0], es[1]];
      Two(es[0], es[1], e.tag);
    }
  }

  /** What `MakeSqe` makes of a supported command is what it asks for. */
  lemma MadeAsAsked(cmd: Cmd)
    ensures MakeSqe(cmd.op, Offset(cmd), Length(cmd)).Some? <==> !cmd.op.OtherOp?
    ensures MakeSqe(cmd.op, Offset(cmd), Length(cmd)).Some? ==>
      AsksFor(cmd, MakeSqe(cmd.op, Offset(cmd), Length(cmd)).value)
  {}

  /** The request that a command asks for is the only one. */
  lemma AskedIsUnique(cmd: Cmd, sqe: Sqe, sqe': Sqe)
    requires AsksFor(cmd, sqe) && AsksFor(cmd, sqe')
    ensures sqe == sqe'
  {}

  /** Below 2^32 bytes a data-changing request is over exactly the range that is stamped; no other changes data. */
  lemma AskedIsStamped(cmd: Cmd, sqe: Sqe)
    requires AsksFor(cmd, sqe)
    ensures sqe.WriteAt? || sqe.PunchHole? <==> cmd.op.WriteOp? || cmd.op.DiscardOp?
    ensures (sqe.WriteAt? || sqe.PunchHole? || sqe.ReadAt?) && 512 * cmd.nrSectors < 0x1_0000_0000 ==>
      sqe.off == 512 * cmd.startSector && sqe.len == 512 * cmd.nrSectors
  {}

  /**
   What one event adds to the log: a backing IO that ended is stamped over the whole range if the command
   changes data, and completed with its result; anything else is submitted, or refused if unsupported.
   */
  ghost predicate Answers(cmd: Cmd, tag: nat, isTgtIo: bool, result: int, before: seq<Event>, log: seq<Event>) {
    if isTgtIo && result != -11 then
      var stamp := StampedRange(tag, 512 * cmd.startSector, 512 * cmd.nrSectors);
      log == before + (if cmd.op.WriteOp? || cmd.op.DiscardOp? then [stamp] else []) + [Completed(tag, result)]
    else if cmd.op.OtherOp? then log == before + [Completed(tag, -22)]
    else exists sqe :: AsksFor(cmd, sqe) && log == before + [Submitted(tag, sqe)]
  }

  lemma TurnAnswers(cmd: Cmd, tag: nat, isTgtIo: bool, result: int, before: seq<Event>)
    ensures Answers(cmd, tag, isTgtIo, result, before, before + Turn(tag, cmd, isTgtIo, result))
  {
    hide MakeSqe, AsksFor;
    MadeAsAsked(cmd);
  }

  /** The event itself has nothing to answer for but an EAGAIN, which is resubmitted. */
  lemma FirstEventRule(s: State, e: Cqe)
    requires Inv(s) && Enabled(s, e)
    ensures Rule(s.log + Happens(s, e), |s.log|)
  {
    hide MakeSqe;
    var es := Happens(s, e);
    var log, n := s.log + es, |s.log|;
    MadeAsAsked(CmdOf(s, e));
    assert log[n] == es[0] && log[n + 1] == es[1];
  }

  /** What the handler did about it obeys the rules. */
  lemma LaterEventRule(s: State, e: Cqe, k: nat)
    requires Inv(s) && Enabled(s, e) && 0 < k < |Happens(s, e)|
    ensures Rule(s.log + Happens(s, e), |s.log| + k)
  {
    hide Balanced, Remembers, Rules, LastFetch, MakeSqe, AsksFor;
    var es := Happens(s, e);
    var log, i := s.log + es, |s.log| + k;
    CommandInForce(s, e, k);
    MadeAsAsked(CmdOf(s, e));
    assert log[i] == es[k] && log[i - 1] == es[k - 1];
    assert k == 2 ==> log[i - 2] == es[0];
  }

  lemma StepKeepsRules(s: State, e: Cqe)
    requires Inv(s) && Enabled(s, e)
    ensures Rules(Apply(s, e).log)
  {
    hide Rule, Happens, Balanced, Remembers, Supported;
    var es := Happens(s, e);
    var log := s.log + es;
    var n := |s.log|;
    forall i | 0 <= i < |log| ensures Rule(log, i) {
      if i < n {
        RuleKept(s.log, es, i);
      } else if i == n {
        FirstEventRule(s, e);
      } else {
        LaterEventRule(s, e, i - n);
      }
    }
  }

  ghost predicate ValidRun(s: State, run: seq<Cqe>)
    decreases |run|
  {
    run == [] || (Enabled(s, run[0]) && ValidRun(Apply(s, run[0]), run[1..]))
  }

  ghost function Run(s: State, run: seq<Cqe>): State
    requires ValidRun(s, run)
    decreases |run|
  {
    if run == [] then s else Run(Apply(s, run[0]), run[1..])
  }

  lemma {:induction false} RunKeepsInv(s: State, run: seq<Cqe>)
    requires Inv(s) && ValidRun(s, run)
    ensures Inv(Run(s, run))
    decreases |run|
  {
    if run != [] {
      StepKeepsBalance(s, run[0]);
      StepKeepsRules(s, run[0]);
      RunKeepsInv(Apply(s, run[0]), run[1..]);
    }
  }

  /**
   Over every run of a queue: each tag has at most one backing IO outstanding and each fetched command
   gets exactly one completion (short of the one still outstanding); and every event obeys the rules.
   */
  lemma QueueDiscipline(tags: set<nat>, run: seq<Cqe>)
    requires ValidRun(State(map t | t in tags :: Armed, []), run)
    ensures var s := Run(State(map t | t in tags :: Armed, []), run);
      Balanced(s) && Rules(s.log)
  {
    var s0 := State(map t | t in tags :: Armed, []);
    assert Inv(s0);
    RunKeepsInv(s0, run);
  }

  // ---------------------------------------------------------------- the handler and its loop

  /** What the stamps of a log do to an era map. */
  function StampAll(sh: R.Shape, eras: seq<nat>, era: nat, es: seq<Event>): (r: seq<nat>)
    requires sh.g > 0 && |eras| == Chunks(sh.size, sh.g)
    ensures |r| == |eras|
    decreases |es|
  {
    if es == [] then eras
    else
      var before, last := StampAll(sh, eras, era, es[..|es| - 1]), es[|es| - 1];
      if last.StampedRange? then Marked(sh, before, era, last.off, last.len) else before
  }

  lemma {:induction false} StampAllConcat(sh: R.Shape, eras: seq<nat>, era: nat, a: seq<Event>, b: seq<Event>)
    requires sh.g > 0 && |eras| == Chunks(sh.size, sh.g)
    ensures StampAll(sh, eras, era, a + b) == StampAll(sh, StampAll(sh, eras, era, a), era, b)
    decreases |b|
  {
    if b == [] {
      assert a + b == a;
    } else {
      assert (a + b)[..|a + b| - 1] == a + b[..|b| - 1];
      StampAllConcat(sh, eras, era, a, b[..|b| - 1]);
    }
  }

  lemma StampOne(sh: R.Shape, eras: seq<nat>, era: nat, a: seq<Event>, e: Event)
    requires sh.g > 0 && |eras| == Chunks(sh.size, sh.g)
    ensures StampAll(sh, eras, era, a + [e])
         == if e.StampedRange? then Marked(sh, StampAll(sh, eras, era, a), era, e.off, e.len)
            else StampAll(sh, eras, era, a)
  {
    assert (a + [e])[..|a|] == a;
  }

  /** One queue: the descriptors of its tags, the era map it stamps, and a log of what it did. */
  class Queue {
    const era: E.EraState
    var iods: map<nat, Cmd>
    var log: seq<Event>
    ghost var tags: map<nat, Tag>

    ghost function Abs(): State
      reads this
    {
      State(tags, log)
    }

    /** While a backing IO is outstanding its tag's descriptor stays what it was. */
    ghost predicate Valid()
      reads this, era, era.eras
    {
      && era.Valid()
      && forall t :: t in tags && tags[t].Backing? ==> t in iods && iods[t] == tags[t].cmd
    }

    /** A queue whose tags all wait for a command. */
    constructor (era: E.EraState, ghost tags: set<nat>)
      requires era.Valid()
      ensures Valid() && this.era == era && Abs() == State(map t | t in tags :: Armed, [])
    {
      this.era := era;
      iods := map[];
      log := [];
      this.tags := map t | t in tags :: Armed;
    }

    /** One turn of the state machine, driven by a single completion-queue event. */
    method HandleIoCmd(tag: nat, isTgtIo: bool, result: int)
      requires era.Valid() && tag in iods
      modifies this`log, era.eras
      ensures era.Valid() && log == old(log) + Turn(tag, iods[tag], isTgtIo, result)
      ensures era.eras[..] == StampAll(era.Shape(), old(era.eras[..]), era.currentEra, Turn(tag, iods[tag], isTgtIo, result))
      ensures Answers(iods[tag], tag, isTgtIo, result, old(log), log)
      ensures var cmd := iods[tag];
        era.eras[..] == if isTgtIo && result != -11 && (cmd.op.WriteOp? || cmd.op.DiscardOp?)
          then Marked(era.Shape(), old(era.eras[..]), era.currentEra, 512 * cmd.startSector, 512 * cmd.nrSectors)
          else old(era.eras[..])
    {
      TurnAnswers(iods[tag], tag, isTgtIo, result, log);
      hide Marked, StampAll, MakeSqe, Answers, RaisesTouched;
      var cmd := iods[tag];
      var off, bytes := Offset(cmd), Length(cmd);
      StampOfTurn(era.Shape(), era.eras[..], era.currentEra, tag, cmd, isTgtIo, result);
      if isTgtIo {
        if result != -EAGAIN {
          match cmd.op {
            case WriteOp =>
              era.MarkWrite(off, bytes);
              log := log + [StampedRange(tag, off, bytes)];
            case DiscardOp =>
              era.MarkWrite(off, bytes);
              log := log + [StampedRange(tag, off, bytes)];
            case _ =>
          }
          log := log + [Completed(tag, result)];
          return;
        }
      }
      match MakeSqe(cmd.op, off, bytes) {
        case Some(sqe) => log := log + [Submitted(tag, sqe)];
        case None => log := log + [Completed(tag, -EINVAL)];
      }
    }

    /** An event arrives (the driver has filled in the descriptor of a new command) and is handled. */
    method Serve(e: Cqe)
      requires Valid() && Enabled(Abs(), e)
      modifies this, era.eras
      ensures Valid() && Abs() == Apply(old(Abs()), e)
      ensures era.eras[..] == StampAll(era.Shape(), old(era.eras[..]), era.currentEra, Happens(old(Abs()), e))
    {
      hide StampAll, Turn, Answers, Marked, M.WellFormed;
      ghost var s, cmd := Abs(), CmdOf(Abs(), e);
      ghost var es, was := Happens(s, e), era.eras[..];
      match e {
        case Deliver(tag, c) =>
          iods := iods[tag := c];
          log := log + [Fetched(tag, c)];
          HandleIoCmd(tag, false, 0);
        case BackingCqe(tag, res) =>
          log := log + [BackingDone(tag, res)];
          HandleIoCmd(tag, true, res);
      }
      WellFormedIsSized(era.Abs());
      StampTurn(era.Shape(), was, era.currentEra, es[0], es[1..]);
      assert log == s.log + es && es == [es[0]] + es[1..];
      tags := tags[e.tag := if es[|es| - 1].Submitted? then Backing(cmd) else Armed];
    }

    /** The loop of a queue's thread: every event until the queue goes down. */
    method WaitAndHandleIo(cqes: seq<Cqe>)
      requires Valid() && ValidRun(Abs(), cqes)
      modifies this, era.eras
      ensures Valid() && Abs() == Run(old(Abs()), cqes) && old(log) <= log
      ensures era.eras[..] == StampAll(era.Shape(), old(era.eras[..]), era.currentEra, log[|old(log)|..])
    {
      hide Apply, Enabled, StampAll, Happens;
      ghost var was, start, done: seq<Event> := era.eras[..], log, [];
      var i := 0;
      StampNone(era.Shape(), was, era.currentEra);
      assert cqes[0..] == cqes;
      while i < |cqes|
        invariant 0 <= i <= |cqes| && Valid() && log == start + done
        invariant ValidRun(Abs(), cqes[i..]) && Run(Abs(), cqes[i..]) == Run(old(Abs()), cqes)
        invariant era.eras[..] == StampAll(era.Shape(), was, era.currentEra, done)
      {
        ghost var s := Abs();
        ghost var es := Happens(s, cqes[i]);
        assert cqes[i..][1..] == cqes[i + 1..];
        Serve(cqes[i]);
        AppliedLog(s, cqes[i]);
        StampAllConcat(era.Shape(), was, era.currentEra, done, es);
        assert start + done + es == start + (done + es);
        done := done + es;
        i := i + 1;
      }
      assert log[|start|..] == done;
    }
  }

  lemma WellFormedIsSized(h: M.History)
    requires M.WellFormed(h)
    ensures h.granularity > 0 && |h.eras| == Chunks(h.devSize, h.granularity)
  {}

  /** The stamps of a whole turn, the event that began it included. */
  lemma StampTurn(sh: R.Shape, eras: seq<nat>, era: nat, first: Event, rest: seq<Event>)
    requires sh.g > 0 && |eras| == Chunks(sh.size, sh.g) && !first.StampedRange?
    ensures StampAll(sh, eras, era, [first] + rest) == StampAll(sh, eras, era, rest)
  {
    StampAllConcat(sh, eras, era, [first], rest);
    StampOne(sh, eras, era, [], first);
    assert [] + [first] == [first];
  }

  lemma StampNone(sh: R.Shape, eras: seq<nat>, era: nat)
    requires sh.g > 0 && |eras| == Chunks(sh.size, sh.g)
    ensures StampAll(sh, eras, era, []) == eras
  {}

  /** What one turn does to the map: a completed write or discard is stamped, nothing else is. */
  lemma StampOfTurn(sh: R.Shape, eras: seq<nat>, era: nat, tag: nat, cmd: Cmd, isTgtIo: bool, res: int)
    requires sh.g > 0 && |eras| == Chunks(sh.size, sh.g)
    ensures StampAll(sh, eras, era, Turn(tag, cmd, isTgtIo, res))
         == if isTgtIo && res != -11 && (cmd.op.WriteOp? || cmd.op.DiscardOp?)
            then Marked(sh, eras, era, 512 * cmd.startSector, 512 * cmd.nrSectors) else eras
  {
    hide Marked, StampAll;
    var es := Turn(tag, cmd, isTgtIo, res);
    var n := |es| - 1;
    assert es == es[..n] + [es[n]];
    StampOne(sh, eras, era, es[..n], es[n]);
    StampNone(sh, eras, era);
    if n == 1 {
      assert es[..1] == [] + [es[0]];
      StampOne(sh, eras, era, [], es[0]);
    }
  }

  lemma AppliedLog(s: State, e: Cqe)
    requires Enabled(s, e)
    ensures Apply(s, e).log == s.log + Happens(s, e)
  {}
}
