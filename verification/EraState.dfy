/**
 The tracking state of one device as the program holds it: an era counter and an array with one era
 per chunk, updated in place. Every method is proved against the value-level functions; what those
 promise under interleaving is proved in `Race`.
 */
module EraState {
  import opened Bytes
  import opened Options
  import opened Geometry
  import opened Ranges
  import opened EraHistory
  import M = MetaCodec
  import R = Race
  import Crc32

  /** The metadata file and the temporary file that replaces it. */
  class MetaFile {
    var main: Option<seq<byte>>
    var tmp: Option<seq<byte>>

    constructor ()
      ensures main == None && tmp == None
    {
      main, tmp := None, None;
    }
  }

  /** How far the file operations of one save get. */
  datatype IoOutcome = Succeeds | FailsAtCreate | FailsAtWrite(written: nat) | FailsAtSync | FailsAtRename

  class EraState {
    const granularity: nat
    const devSize: nat
    const generation: nat
    var currentEra: nat
    const eras: array<nat>

    ghost function Abs(): M.History
      reads this, eras
    {
      M.History(granularity, devSize, generation, currentEra, eras[..])
    }

    ghost predicate Valid()
      reads this, eras
    {
      M.WellFormed(Abs())
    }

    function Shape(): R.Shape { R.Shape(devSize, granularity) }

    /** A fresh history: era 1, nothing written. */
    constructor (devSize: nat, granularity: nat, generation: nat)
      requires ValidGranularity(granularity) && granularity < U64_SPAN && devSize < U64_SPAN && generation < U64_SPAN
      ensures Valid() && fresh(eras)
      ensures Abs() == M.History(granularity, devSize, generation, 1, R.Fresh(R.Shape(devSize, granularity)).eras)
    {
      this.granularity := granularity;
      this.devSize := devSize;
      this.generation := generation;
      currentEra := 1;
      eras := new nat[Chunks(devSize, granularity)](i => 0);
    }

    /** `EraState::new`: refuses a granularity that is not a power of two of at least 4096. */
    static method New(devSize: nat, granularity: nat, generation: nat) returns (s: EraState?)
      requires granularity < U64_SPAN && devSize < U64_SPAN && generation < U64_SPAN
      ensures s == null <==> !ValidGranularity(granularity)
      ensures s == null <==> !(granularity >= 4096 && exists k :: granularity == TwoTo(k))
      ensures s != null ==> fresh(s) && fresh(s.eras) && s.Valid()
      ensures s != null ==>
        s.Abs() == M.History(granularity, devSize, generation, 1, R.Fresh(R.Shape(devSize, granularity)).eras)
    {
      ValidGranularities(granularity);
      if !ValidGranularity(granularity) {
        return null;
      }
      s := new EraState(devSize, granularity, generation);
    }

    /** Stamp the chunks of `[off, off + len)`, re-stamping while the era moves. */
    method MarkWrite(off: nat, len: nat)
      requires Valid()
      modifies eras
      ensures Valid()
      ensures eras[..] == Marked(Shape(), old(eras[..]), currentEra, off, len)
      ensures RaisesTouched(Shape(), old(eras[..]), eras[..], currentEra, off, len)
    {
      MarkedIsTouched(Shape(), eras[..], currentEra, off, len);
      hide R.ChunkOf, RaisesTouched;
      if len == 0 {
        return;
      }
      var first := R.ChunkOf(Shape(), off);
      if first >= eras.Length {
        return;
      }
      var last := Min(R.ChunkOf(Shape(), off + len - 1), eras.Length - 1);
      R.ChunkOfMonotone(Shape(), off, off + len - 1);
      StampUntilCurrent(first, last);
    }

    /** Load the era, stamp, load it again, until both loads agree; alone, one pass does. */
    method StampUntilCurrent(first: nat, last: nat)
      requires Valid() && first <= last < eras.Length
      modifies eras
      ensures Valid()
      ensures eras[..] == StampRange(old(eras[..]), first, last, currentEra)
    {
      ghost var before := eras[..];
      StampedWellFormed(Abs(), first, last);
      var done := false;
      while !done
        invariant eras[..] == if done then StampRange(before, first, last, currentEra) else before
        decreases !done
      {
        var era := currentEra;
        StampPass(first, last, era);
        done := currentEra == era;
      }
    }

    /** One pass of `fetch_max` over the covered chunks. */
    method StampPass(first: nat, last: nat, era: nat)
      requires first <= last < eras.Length
      modifies eras
      ensures eras[..] == StampRange(old(eras[..]), first, last, era)
    {
      ghost var before := eras[..];
      var i := first;
      while i <= last
        invariant first <= i <= last + 1
        invariant forall j :: 0 <= j < eras.Length ==>
          eras[j] == if first <= j < i then Max(before[j], era) else before[j]
      {
        eras[i] := Max(eras[i], era);
        i := i + 1;
      }
    }

    /** Close the current era and open the next. The counter must not run out of its 32 bits. */
    method Checkpoint() returns (closed: nat, current: nat)
      requires Valid() && currentEra + 1 < U32_SPAN
      modifies this`currentEra
      ensures Valid()
      ensures closed == old(currentEra) && current == currentEra == closed + 1
    {
      closed := currentEra;
      currentEra := currentEra + 1;
      current := closed + 1;
    }

    /** The dirty ranges since `since`, built by extending the last one or pushing a new one. */
    method RangesSince(since: nat) returns (rs: seq<DirtyRange>)
      requires Valid()
      ensures rs == RangesOf(eras[..], since, devSize, granularity)
    {
      hide RangesUpTo;
      RangesStart(eras[..], since, devSize, granularity);
      rs := [];
      var idx := 0;
      while idx < eras.Length
        invariant 0 <= idx <= eras.Length
        invariant rs == RangesUpTo(eras[..], since, devSize, granularity, idx)
      {
        ChunkStartsInside(devSize, granularity, idx);
        MulMonotone(0, idx, granularity);
        ghost var at: nat := idx * granularity;
        RangesStep(eras[..], since, devSize, granularity, idx, at, Min(granularity, devSize - at));
        if eras[idx] > since {
          var offset := idx * granularity;
          var len := Min(granularity, devSize - offset);
          if rs != [] && rs[|rs| - 1].offset + rs[|rs| - 1].len == offset {
            rs := rs[..|rs| - 1] + [DirtyRange(rs[|rs| - 1].offset, rs[|rs| - 1].len + len)];
          } else {
            rs := rs + [DirtyRange(offset, len)];
          }
        }
        idx := idx + 1;
      }
    }

    /** Every chunk counts as written in the current era. */
    method MarkAllDirty()
      requires Valid()
      modifies eras
      ensures Valid()
      ensures eras[..] == StampRange(old(eras[..]), 0, eras.Length, currentEra)
    {
      var era := currentEra;
      ghost var before := eras[..];
      var i := 0;
      while i < eras.Length
        invariant 0 <= i <= eras.Length
        invariant forall j :: 0 <= j < eras.Length ==> eras[j] == if j < i then Max(before[j], era) else before[j]
      {
        eras[i] := Max(eras[i], era);
        i := i + 1;
      }
    }

    /** The header fields before the checksum. */
    method Header(clean: bool) returns (buf: seq<byte>)
      ensures buf == M.Prefix(Abs(), M.CleanField(clean))
    {
      hide ToLE;
      buf := M.MAGIC;
      buf := buf + ToLE(M.META_VERSION, 4);
      buf := buf + ToLE(granularity, 8);
      buf := buf + ToLE(devSize, 8);
      buf := buf + ToLE(currentEra, 4);
      buf := buf + ToLE(eras.Length, 8);
      buf := buf + ToLE(M.CleanField(clean), 4);
      buf := buf + ToLE(generation, 8);
    }

    /** The bytes of a metadata file: header with an empty checksum, eras, then the checksum is filled in. */
    method Serialize(clean: bool) returns (buf: seq<byte>)
      requires Valid()
      ensures buf == M.Encode(Abs(), clean)
    {
      hide M.Prefix, ToLE, M.WellFormed;
      buf := Header(clean);
      ghost var prefix := buf;
      buf := buf + [0, 0, 0, 0];
      var i := 0;
      assert eras[..][..0] == [];
      while i < eras.Length
        invariant 0 <= i <= eras.Length
        invariant buf == prefix + [0, 0, 0, 0] + M.Body(eras[..][..i])
      {
        BodySnoc(eras[..][..i], eras[i]);
        assert eras[..][..i] + [eras[i]] == eras[..][..i + 1];
        buf := buf + ToLE(eras[i], 4);
        i := i + 1;
      }
      assert eras[..][..i] == eras[..];
      var crc := Crc32.Checksum([buf]);
      FlattenOne(buf);
      ghost var body := M.Body(eras[..]);
      assert buf[..M.CRC_OFF] == prefix && buf[M.CRC_OFF + 4..] == body;
      buf := buf[..M.CRC_OFF] + ToLE(M.CrcNumber(crc), 4) + buf[M.CRC_OFF + 4..];
    }

    /**
     Write the temporary file, sync it, rename it over the metadata file. However far it gets, the
     metadata file is the old one or the complete new one.
     */
    method Save(file: MetaFile, clean: bool, outcome: IoOutcome) returns (ok: bool)
      requires Valid()
      modifies file
      ensures ok <==> outcome == Succeeds
      ensures file.tmp == match outcome
        case Succeeds => None
        case FailsAtCreate => old(file.tmp)
        case FailsAtWrite(written) => Some(M.Encode(Abs(), clean)[..Min(written, |M.Encode(Abs(), clean)|)])
        case _ => Some(M.Encode(Abs(), clean))
      ensures file.main == if ok then Some(M.Encode(Abs(), clean)) else old(file.main)
    {
      if outcome == FailsAtCreate {
        return false;
      }
      file.tmp := Some([]);
      var buf := Serialize(clean);
      if outcome.FailsAtWrite? {
        file.tmp := Some(buf[..Min(outcome.written, |buf|)]);
        return false;
      }
      file.tmp := Some(buf);
      if outcome == FailsAtSync || outcome == FailsAtRename {
        return false;
      }
      file.main, file.tmp := file.tmp, None;
      return true;
    }

    /** Parse a metadata file for a device of this size and granularity. */
    static method Load(raw: seq<byte>, devSize: nat, granularity: nat)
      returns (s: EraState?, clean: bool, error: Option<M.LoadError>)
      ensures match M.Load(raw, devSize, granularity)
        case Accepted(h, c) =>
          s != null && fresh(s) && fresh(s.eras) && s.Valid() && s.Abs() == h && clean == c && error == None
        case Refused(e) => s == null && error == Some(e)
    {
      s, clean, error := null, false, None;
      if |raw| < M.HDR_LEN {
        error := Some(M.Truncated);
        return;
      }
      if raw[0..8] != M.MAGIC {
        error := Some(M.BadMagic);
        return;
      }
      var version := M.U32At(raw, 8);
      if version != M.META_VERSION {
        error := Some(M.BadVersion);
        return;
      }
      var stored := M.U32At(raw, M.CRC_OFF);
      var crc := CrcOfFile(raw);
      if stored != M.CrcNumber(crc) {
        error := Some(M.ChecksumMismatch);
        return;
      }
      if M.U64At(raw, 12) != granularity {
        error := Some(M.GranularityMismatch);
        return;
      }
      if M.U64At(raw, 20) != devSize {
        error := Some(M.SizeMismatch);
        return;
      }
      s := New(devSize, granularity, M.U64At(raw, 44));
      if s == null {
        error := Some(M.BadGranularity);
        return;
      }
      if M.U64At(raw, 32) != s.eras.Length {
        s, error := null, Some(M.ChunkCountMismatch);
        return;
      }
      var body := raw[M.HDR_LEN..];
      if |body| != s.eras.Length * 4 {
        s, error := null, Some(M.BodyLengthMismatch);
        return;
      }
      FillEras(s, body);
      s.currentEra := M.U32At(raw, 28);
      clean := M.U32At(raw, 40) != 0;
    }

    /** The checksum over the header with its checksum field zeroed and the rest. */
    static method CrcOfFile(raw: seq<byte>) returns (crc: bv32)
      requires |raw| >= M.HDR_LEN
      ensures crc == M.FileCrc(raw)
    {
      var hdr := raw[..M.CRC_OFF] + [0, 0, 0, 0];
      var rest := raw[M.HDR_LEN..];
      crc := Crc32.Checksum([hdr, rest]);
      FlattenTwo(hdr, rest);
    }

    static method FillEras(s: EraState, body: seq<byte>)
      requires |body| == 4 * s.eras.Length
      modifies s.eras
      ensures s.eras[..] == M.DecodeBody(body, s.eras.Length)
    {
      var i := 0;
      while i < s.eras.Length
        invariant 0 <= i <= s.eras.Length
        invariant forall j :: 0 <= j < i ==> s.eras[j] == M.U32At(body, 4 * j)
      {
        s.eras[i] := M.U32At(body, 4 * i);
        i := i + 1;
      }
      forall j | 0 <= j < s.eras.Length ensures M.DecodeBody(body, s.eras.Length)[j] == M.U32At(body, 4 * j) {
        DecodeAt(body, s.eras.Length, j);
      }
    }
  }

  lemma FlattenOne(a: seq<byte>)
    ensures Crc32.Flatten([a]) == a
  {
    assert Crc32.Flatten([a]) == a + Crc32.Flatten([a][1..]);
  }

  lemma FlattenTwo(a: seq<byte>, b: seq<byte>)
    ensures Crc32.Flatten([a, b]) == a + b
  {
    FlattenOne(b);
    assert [a, b][1..] == [b];
  }

  lemma RangesStart(vals: seq<nat>, since: nat, size: nat, g: nat)
    requires g > 0 && |vals| == Chunks(size, g)
    ensures RangesUpTo(vals, since, size, g, 0) == []
  {}

  lemma StampedWellFormed(h: M.History, first: nat, last: nat)
    requires M.WellFormed(h)
    ensures M.WellFormed(h.(eras := StampRange(h.eras, first, last, h.era)))
  {}

  lemma {:induction false} DecodeAt(body: seq<byte>, n: nat, j: nat)
    requires |body| == 4 * n && j < n
    ensures M.DecodeBody(body, n)[j] == M.U32At(body, 4 * j)
    decreases n
  {
    if j > 0 {
      DecodeAt(body[4..], n - 1, j - 1);
      assert body[4..][4 * (j - 1)..4 * (j - 1) + 4] == body[4 * j..4 * j + 4];
    }
  }

  lemma {:induction false} BodySnoc(eras: seq<nat>, e: nat)
    ensures M.Body(eras + [e]) == M.Body(eras) + ToLE(e, 4)
    decreases |eras|
  {
    if eras == [] {
      assert ([] + [e])[1..] == [];
      assert M.Body([e]) == ToLE(e, 4) + M.Body([]);
    } else {
      assert (eras + [e])[1..] == eras[1..] + [e];
      BodySnoc(eras[1..], e);
    }
  }
}
