/**
 The metadata file: the tracking history of one device as bytes, protected by a
 CRC-32 over the whole file with the checksum field zeroed.
 */
module MetaCodec {
  import opened Bytes
  import opened Geometry
  import Crc32

  /** The persistent part of the tracking state: one history of one device. */
  datatype History = History(granularity: nat, devSize: nat, generation: nat, era: nat, eras: seq<nat>)

  /** The history is one that the program's types can hold. */
  ghost predicate WellFormed(h: History) {
    && ValidGranularity(h.granularity) && h.granularity < U64_SPAN
    && h.devSize < U64_SPAN && h.generation < U64_SPAN && h.era < U32_SPAN
    && |h.eras| == Chunks(h.devSize, h.granularity)
    && forall i :: 0 <= i < |h.eras| ==> h.eras[i] < U32_SPAN
  }

  datatype LoadError =
    | Truncated | BadMagic | BadVersion | ChecksumMismatch
    | GranularityMismatch | SizeMismatch | BadGranularity | ChunkCountMismatch | BodyLengthMismatch

  datatype Loaded = Accepted(history: History, clean: bool) | Refused(error: LoadError)

  const MAGIC: seq<byte> := [85, 66, 76, 75, 69, 82, 65, 49]  // "UBLKERA1"
  const META_VERSION: nat := 4
  const HDR_LEN: nat := 56
  const CRC_OFF: nat := 52

  // ---------------------------------------------------------------- writing

  function CleanField(clean: bool): nat { if clean then 1 else 0 }

  /** The header up to the checksum field, with `field` in the place of the clean flag. */
  function Prefix(h: History, field: nat): (bs: seq<byte>)
    ensures |bs| == CRC_OFF
  {
    MAGIC + ToLE(META_VERSION, 4) + ToLE(h.granularity, 8) + ToLE(h.devSize, 8) + ToLE(h.era, 4)
    + ToLE(|h.eras|, 8) + ToLE(field, 4) + ToLE(h.generation, 8)
  }

  function Body(eras: seq<nat>): (bs: seq<byte>)
    ensures |bs| == 4 * |eras|
  {
    if eras == [] then [] else ToLE(eras[0], 4) + Body(eras[1..])
  }

  /** The checksum of a file, whatever its checksum field holds. */
  function FileCrc(raw: seq<byte>): bv32
    requires |raw| >= HDR_LEN
  {
    Crc32.Crc(raw[..CRC_OFF] + [0, 0, 0, 0] + raw[HDR_LEN..])
  }

  function CrcNumber(c: bv32): (n: nat)
    ensures n < U32_SPAN
  {
    c as int
  }

  lemma CrcNumberIsInjective(x: bv32, y: bv32)
    requires CrcNumber(x) == CrcNumber(y)
    ensures x == y
  {
    NumberRoundTrip(x);
    NumberRoundTrip(y);
  }

  lemma NumberRoundTrip(x: bv32)
    ensures (x as int) as bv32 == x
  {}

  /** A file with its checksum filled in. */
  function EncodeField(h: History, field: nat): (bs: seq<byte>)
    ensures |bs| == HDR_LEN + 4 * |h.eras|
  {
    var crc := Crc32.Crc(Prefix(h, field) + [0, 0, 0, 0] + Body(h.eras));
    Prefix(h, field) + ToLE(CrcNumber(crc), 4) + Body(h.eras)
  }

  /** The bytes that `save` writes. */
  function Encode(h: History, clean: bool): (bs: seq<byte>)
    ensures |bs| == HDR_LEN + 4 * |h.eras|
  {
    EncodeField(h, CleanField(clean))
  }

  // ---------------------------------------------------------------- reading

  function U32At(raw: seq<byte>, i: nat): (v: nat)
    requires i + 4 <= |raw|
    ensures v < U32_SPAN
  {
    ToLEOfFromLE(raw[i..i + 4]);
    Widths();
    FromLE(raw[i..i + 4])
  }

  function U64At(raw: seq<byte>, i: nat): (v: nat)
    requires i + 8 <= |raw|
    ensures v < U64_SPAN
  {
    ToLEOfFromLE(raw[i..i + 8]);
    Widths();
    FromLE(raw[i..i + 8])
  }

  function DecodeBody(body: seq<byte>, n: nat): (eras: seq<nat>)
    requires |body| == 4 * n
    ensures |eras| == n && forall i :: 0 <= i < n ==> eras[i] < U32_SPAN
    decreases n
  {
    if n == 0 then [] else [U32At(body, 0)] + DecodeBody(body[4..], n - 1)
  }

  function Stored(raw: seq<byte>): nat
    requires |raw| >= HDR_LEN
  {
    U32At(raw, CRC_OFF)
  }

  /** Everything `load` checks, in its order, given what the checksum comparison said. */
  function Parse(raw: seq<byte>, checksumOk: bool, devSize: nat, granularity: nat): Loaded {
    if |raw| < HDR_LEN then Refused(Truncated)
    else if raw[0..8] != MAGIC then Refused(BadMagic)
    else if U32At(raw, 8) != META_VERSION then Refused(BadVersion)
    else if !checksumOk then Refused(ChecksumMismatch)
    else if U64At(raw, 12) != granularity then Refused(GranularityMismatch)
    else if U64At(raw, 20) != devSize then Refused(SizeMismatch)
    else if !ValidGranularity(granularity) then Refused(BadGranularity)
    else if U64At(raw, 32) != Chunks(devSize, granularity) then Refused(ChunkCountMismatch)
    else if |raw| - HDR_LEN != 4 * Chunks(devSize, granularity) then Refused(BodyLengthMismatch)
    else
      var eras := DecodeBody(raw[HDR_LEN..], Chunks(devSize, granularity));
      Accepted(History(granularity, devSize, U64At(raw, 44), U32At(raw, 28), eras), U32At(raw, 40) != 0)
  }

  predicate ChecksumOk(raw: seq<byte>) {
    |raw| >= HDR_LEN && Stored(raw) == CrcNumber(FileCrc(raw))
  }

  function Load(raw: seq<byte>, devSize: nat, granularity: nat): Loaded {
    Parse(raw, ChecksumOk(raw), devSize, granularity)
  }

  // ---------------------------------------------------------------- round trips

  lemma {:induction false} DecodeOfBody(eras: seq<nat>)
    requires forall i :: 0 <= i < |eras| ==> eras[i] < U32_SPAN
    ensures DecodeBody(Body(eras), |eras|) == eras
  {
    if eras != [] {
      var b := Body(eras);
      assert b[0..4] == ToLE(eras[0], 4);
      assert b[4..] == Body(eras[1..]);
      Widths();
      FromLEOfToLE(eras[0], 4);
      DecodeOfBody(eras[1..]);
    }
  }

  lemma {:induction false} BodyOfDecode(body: seq<byte>, n: nat)
    requires |body| == 4 * n
    ensures Body(DecodeBody(body, n)) == body
    decreases n
  {
    if n > 0 {
      var eras := DecodeBody(body, n);
      assert eras[1..] == DecodeBody(body[4..], n - 1);
      ToLEOfFromLE(body[0..4]);
      BodyOfDecode(body[4..], n - 1);
      assert body == body[0..4] + body[4..];
    }
  }

  /** Where the fields of an encoded file lie. */
  lemma Fields(h: History, field: nat)
    ensures var raw := EncodeField(h, field);
      && raw[0..8] == MAGIC && raw[8..12] == ToLE(META_VERSION, 4)
      && raw[12..20] == ToLE(h.granularity, 8) && raw[20..28] == ToLE(h.devSize, 8)
      && raw[28..32] == ToLE(h.era, 4) && raw[32..40] == ToLE(|h.eras|, 8)
      && raw[40..44] == ToLE(field, 4) && raw[44..52] == ToLE(h.generation, 8)
      && raw[..CRC_OFF] == Prefix(h, field) && raw[HDR_LEN..] == Body(h.eras)
      && raw[52..56] == ToLE(CrcNumber(FileCrc(raw)), 4)
  {
    var raw := EncodeField(h, field);
    assert raw[..CRC_OFF] == Prefix(h, field);
    assert raw[HDR_LEN..] == Body(h.eras);
    PrefixFields(h, field);
    forall i, j | 0 <= i <= j <= CRC_OFF ensures raw[i..j] == Prefix(h, field)[i..j] {
      assert raw[i..j] == raw[..CRC_OFF][i..j];
    }
  }

  lemma PrefixFields(h: History, field: nat)
    ensures var p := Prefix(h, field);
      && p[0..8] == MAGIC && p[8..12] == ToLE(META_VERSION, 4)
      && p[12..20] == ToLE(h.granularity, 8) && p[20..28] == ToLE(h.devSize, 8)
      && p[28..32] == ToLE(h.era, 4) && p[32..40] == ToLE(|h.eras|, 8)
      && p[40..44] == ToLE(field, 4) && p[44..52] == ToLE(h.generation, 8)
  {
    hide ToLE;
  }

  /** `load` gives back the state, and takes any non-zero field for "clean". */
  lemma LoadOfField(h: History, field: nat)
    requires WellFormed(h) && field < U32_SPAN
    ensures var raw := EncodeField(h, field);
      Load(raw, h.devSize, h.granularity) == Accepted(h, field != 0) && U32At(raw, 40) == field
  {
    hide ToLE, FromLE, Body, Prefix, EncodeField;
    Fields(h, field);
    Widths();
    ChunksBound(h.devSize, h.granularity);
    FromLEOfToLE(META_VERSION, 4);
    FromLEOfToLE(h.granularity, 8);
    FromLEOfToLE(h.devSize, 8);
    FromLEOfToLE(h.era, 4);
    FromLEOfToLE(|h.eras|, 8);
    FromLEOfToLE(field, 4);
    FromLEOfToLE(h.generation, 8);
    FromLEOfToLE(CrcNumber(FileCrc(EncodeField(h, field))), 4);
    DecodeOfBody(h.eras);
  }

  /** Loading what was saved gives back the state and the clean flag, for every state. */
  lemma LoadOfSave(h: History, clean: bool)
    requires WellFormed(h)
    ensures Load(Encode(h, clean), h.devSize, h.granularity) == Accepted(h, clean)
  {
    hide Load, EncodeField;
    LoadOfField(h, CleanField(clean));
  }

  lemma LittleEndian(bs: seq<byte>)
    requires |bs| == 4
    ensures FromLE(bs) == bs[0] as nat + 0x100 * bs[1] as nat + 0x1_0000 * bs[2] as nat + 0x100_0000 * bs[3] as nat
  {
    assert FromLE(bs[1..]) == bs[1] as nat + 256 * FromLE(bs[2..]) by { assert bs[1..][1..] == bs[2..]; }
    assert FromLE(bs[2..]) == bs[2] as nat + 256 * FromLE(bs[3..]) by { assert bs[2..][1..] == bs[3..]; }
    assert FromLE(bs[3..]) == bs[3] as nat + 256 * FromLE([]) by { assert bs[3..][1..] == []; }
  }

  lemma {:induction false} BodyAt(eras: seq<nat>, i: nat)
    requires i < |eras|
    ensures Body(eras)[4 * i..4 * i + 4] == ToLE(eras[i], 4)
    decreases i
  {
    hide ToLE;
    if i > 0 {
      BodyAt(eras[1..], i - 1);
      var rest := Body(eras[1..]);
      assert Body(eras)[4 * i..4 * i + 4] == rest[4 * (i - 1)..4 * (i - 1) + 4];
    }
  }

  /** The layout of a saved file, field by field. */
  lemma LayoutOfSave(h: History, clean: bool)
    requires WellFormed(h)
    ensures var raw := Encode(h, clean);
      && |raw| == 56 + 4 * |h.eras|
      && raw[0..8] == [85, 66, 76, 75, 69, 82, 65, 49] && FromLE(raw[8..12]) == 4
      && FromLE(raw[12..20]) == h.granularity && FromLE(raw[20..28]) == h.devSize && FromLE(raw[28..32]) == h.era
      && FromLE(raw[32..40]) == |h.eras| && FromLE(raw[40..44]) == (if clean then 1 else 0)
      && FromLE(raw[44..52]) == h.generation
      && FromLE(raw[52..56]) == Crc32.Crc(raw[..52] + [0, 0, 0, 0] + raw[56..]) as int
      && forall i :: 0 <= i < |h.eras| ==> FromLE(raw[56 + 4 * i..60 + 4 * i]) == h.eras[i]
  {
    hide ToLE, FromLE, Body, Prefix, EncodeField;
    var raw := Encode(h, clean);
    Fields(h, CleanField(clean));
    Widths();
    ChunksBound(h.devSize, h.granularity);
    FromLEOfToLE(META_VERSION, 4);
    FromLEOfToLE(h.granularity, 8);
    FromLEOfToLE(h.devSize, 8);
    FromLEOfToLE(h.era, 4);
    FromLEOfToLE(|h.eras|, 8);
    FromLEOfToLE(CleanField(clean), 4);
    FromLEOfToLE(h.generation, 8);
    FromLEOfToLE(CrcNumber(FileCrc(raw)), 4);
    forall i | 0 <= i < |h.eras| ensures FromLE(raw[56 + 4 * i..60 + 4 * i]) == h.eras[i] {
      BodyAt(h.eras, i);
      assert raw[56 + 4 * i..60 + 4 * i] == raw[HDR_LEN..][4 * i..4 * i + 4];
      FromLEOfToLE(h.eras[i], 4);
    }
  }

  /** What `load` says of a saved file that is offered for another device, and of one that is too short. */
  lemma OtherDeviceRefused(h: History, clean: bool, devSize: nat, granularity: nat)
    requires WellFormed(h)
    ensures var l := Load(Encode(h, clean), devSize, granularity);
      && (granularity != h.granularity ==> l == Refused(GranularityMismatch))
      && (granularity == h.granularity && devSize != h.devSize ==> l == Refused(SizeMismatch))
  {
    hide EncodeField;
    LoadOfField(h, CleanField(clean));
  }

  /** Each error means that its own check is the first to fail, whatever the later ones would say. */
  lemma FirstFault(raw: seq<byte>, devSize: nat, granularity: nat)
    ensures var l := Load(raw, devSize, granularity);
      && (l == Refused(Truncated) <==> |raw| < 56)
      && (|raw| >= 56 ==>
            var magicOk, versionOk := raw[0..8] == [85, 66, 76, 75, 69, 82, 65, 49], FromLE(raw[8..12]) == 4;
            var sumOk := FromLE(raw[52..56]) == Crc32.Crc(raw[..52] + [0, 0, 0, 0] + raw[56..]) as int;
            && (l == Refused(BadMagic) <==> !magicOk)
            && (l == Refused(BadVersion) <==> magicOk && !versionOk)
            && (l == Refused(ChecksumMismatch) <==> magicOk && versionOk && !sumOk)
            && (l == Refused(GranularityMismatch) <==>
                  magicOk && versionOk && sumOk && FromLE(raw[12..20]) != granularity)
            && (l == Refused(SizeMismatch) <==>
                  magicOk && versionOk && sumOk && FromLE(raw[12..20]) == granularity && FromLE(raw[20..28]) != devSize))
  {
    hide FromLE;
  }

  /** What `load` accepts is a state the program can hold. */
  lemma AcceptedIsWellFormed(raw: seq<byte>, devSize: nat, granularity: nat)
    requires Load(raw, devSize, granularity).Accepted?
    ensures WellFormed(Load(raw, devSize, granularity).history)
    ensures |raw| == HDR_LEN + 4 * Chunks(devSize, granularity)
  {}

  lemma FieldRoundTrip(raw: seq<byte>, i: nat, j: nat)
    requires i <= j <= |raw|
    ensures ToLE(FromLE(raw[i..j]), j - i) == raw[i..j]
  {
    ToLEOfFromLE(raw[i..j]);
  }

  lemma PrefixFromFields(raw: seq<byte>, h: History, field: nat)
    requires |raw| >= HDR_LEN && raw[0..8] == MAGIC && raw[8..12] == ToLE(META_VERSION, 4)
    requires raw[12..20] == ToLE(h.granularity, 8) && raw[20..28] == ToLE(h.devSize, 8)
    requires raw[28..32] == ToLE(h.era, 4) && raw[32..40] == ToLE(|h.eras|, 8)
    requires raw[40..44] == ToLE(field, 4) && raw[44..52] == ToLE(h.generation, 8)
    ensures Prefix(h, field) == raw[..CRC_OFF]
  {
    hide ToLE;
    assert raw[..12] == raw[0..8] + raw[8..12];
    assert raw[..20] == raw[..12] + raw[12..20];
    assert raw[..28] == raw[..20] + raw[20..28];
    assert raw[..32] == raw[..28] + raw[28..32];
    assert raw[..40] == raw[..32] + raw[32..40];
    assert raw[..44] == raw[..40] + raw[40..44];
    assert raw[..52] == raw[..44] + raw[44..52];
  }

  lemma PrefixOfAccepted(raw: seq<byte>, devSize: nat, granularity: nat)
    requires Load(raw, devSize, granularity).Accepted?
    ensures Prefix(Load(raw, devSize, granularity).history, U32At(raw, 40)) == raw[..CRC_OFF]
  {
    hide ToLE, Prefix, FromLE, ChecksumOk;
    FieldRoundTrip(raw, 8, 12);
    FieldRoundTrip(raw, 12, 20);
    FieldRoundTrip(raw, 20, 28);
    FieldRoundTrip(raw, 28, 32);
    FieldRoundTrip(raw, 32, 40);
    FieldRoundTrip(raw, 40, 44);
    FieldRoundTrip(raw, 44, 52);
    PrefixFromFields(raw, Load(raw, devSize, granularity).history, U32At(raw, 40));
  }

  /** An accepted file is determined by the history in it and its clean field: nothing else is in it. */
  lemma FieldOfLoad(raw: seq<byte>, devSize: nat, granularity: nat)
    requires Load(raw, devSize, granularity).Accepted?
    ensures EncodeField(Load(raw, devSize, granularity).history, U32At(raw, 40)) == raw
  {
    hide ToLE, FromLE, Prefix, Body, DecodeBody;
    PrefixOfAccepted(raw, devSize, granularity);
    BodyOfDecode(raw[HDR_LEN..], Chunks(devSize, granularity));
    FieldRoundTrip(raw, 52, 56);
    assert raw == raw[..CRC_OFF] + raw[52..56] + raw[HDR_LEN..];
  }

  lemma FieldOfEncode(h: History, field: nat)
    requires field < U32_SPAN
    ensures U32At(EncodeField(h, field), 40) == field
  {
    hide ToLE, FromLE, Prefix, Body, EncodeField;
    Fields(h, field);
    Widths();
    FromLEOfToLE(field, 4);
  }

  /**
   Re-saving an accepted file reproduces its bytes exactly when its clean field is one of the two
   values that `save` writes; `load` itself takes any other non-zero value for "clean".
   */
  lemma SaveOfLoad(raw: seq<byte>, devSize: nat, granularity: nat)
    requires Load(raw, devSize, granularity).Accepted?
    ensures var l := Load(raw, devSize, granularity);
      Encode(l.history, l.clean) == raw <==> U32At(raw, 40) <= 1
  {
    hide EncodeField, ChecksumOk;
    var l := Load(raw, devSize, granularity);
    FieldOfLoad(raw, devSize, granularity);
    FieldOfEncode(l.history, CleanField(l.clean));
  }

  /** And there are such files: every state has one for every other non-zero field. */
  lemma OddFieldIsClean(h: History, field: nat)
    requires WellFormed(h) && 1 < field < U32_SPAN
    ensures var raw := EncodeField(h, field);
      && U32At(raw, 40) == field && Load(raw, h.devSize, h.granularity) == Accepted(h, true)
      && Encode(h, true) != raw
  {
    hide EncodeField, Load;
    LoadOfField(h, field);
    FieldOfEncode(h, 1);
  }

  /**
   A file cut short or run on at the end is refused whatever the checksum comparison would say,
   and whatever device it is offered for.
   */
  lemma WrongLengthRefused(raw: seq<byte>, raw': seq<byte>, checksumOk: bool,
                           devSize: nat, granularity: nat, devSize': nat, granularity': nat)
    requires Load(raw, devSize, granularity).Accepted?
    requires raw' < raw || raw < raw'
    ensures Parse(raw', checksumOk, devSize', granularity').Refused?
  {
    if |raw'| >= HDR_LEN {
      assert raw[12..20] == raw'[12..20];
      assert raw[20..28] == raw'[20..28];
    }
  }

  // ---------------------------------------------------------------- corruption

  /** `raw'` is `raw` with nothing changed outside the window of `k` bytes at `p`. */
  ghost predicate SameOutside(raw: seq<byte>, raw': seq<byte>, p: nat, k: nat) {
    && |raw| == |raw'| && p + k <= |raw|
    && raw[..p] == raw'[..p] && raw[p + k..] == raw'[p + k..]
  }

  /** The window lies on one side of the checksum field's edges. */
  predicate NoStraddle(p: nat, k: nat) {
    p + k <= CRC_OFF || p >= HDR_LEN || (CRC_OFF <= p && p + k <= HDR_LEN)
  }

  lemma BurstBeforeField(raw: seq<byte>, raw': seq<byte>, p: nat, k: nat)
    requires |raw| >= HDR_LEN && SameOutside(raw, raw', p, k) && k <= 4 && raw != raw'
    requires p + k <= CRC_OFF
    ensures FileCrc(raw) != FileCrc(raw') && Stored(raw) == Stored(raw')
  {
    var w, w' := raw[p..p + k], raw'[p..p + k];
    assert raw == raw[..p] + w + raw[p + k..];
    assert raw' == raw'[..p] + w' + raw'[p + k..];
    var zeros: seq<byte> := [0, 0, 0, 0];
    var post := raw[p + k..CRC_OFF] + zeros + raw[HDR_LEN..];
    assert raw[p + k..CRC_OFF] == raw[p + k..][..CRC_OFF - p - k];
    assert raw'[p + k..CRC_OFF] == raw'[p + k..][..CRC_OFF - p - k];
    assert raw[HDR_LEN..] == raw[p + k..][HDR_LEN - p - k..];
    assert raw'[HDR_LEN..] == raw'[p + k..][HDR_LEN - p - k..];
    assert raw[CRC_OFF..HDR_LEN] == raw[p + k..][CRC_OFF - p - k..HDR_LEN - p - k];
    assert raw'[CRC_OFF..HDR_LEN] == raw'[p + k..][CRC_OFF - p - k..HDR_LEN - p - k];
    assert raw[..CRC_OFF] + zeros + raw[HDR_LEN..] == raw[..p] + w + post;
    assert raw'[..CRC_OFF] + zeros + raw'[HDR_LEN..] == raw[..p] + w' + post;
    Crc32.BurstChangesCrc(raw[..p], w, w', post);
  }

  lemma BurstAfterField(raw: seq<byte>, raw': seq<byte>, p: nat, k: nat)
    requires |raw| >= HDR_LEN && SameOutside(raw, raw', p, k) && k <= 4 && raw != raw'
    requires p >= HDR_LEN
    ensures FileCrc(raw) != FileCrc(raw') && Stored(raw) == Stored(raw')
  {
    var w, w' := raw[p..p + k], raw'[p..p + k];
    assert raw == raw[..p] + w + raw[p + k..];
    assert raw' == raw'[..p] + w' + raw'[p + k..];
    var zeros: seq<byte> := [0, 0, 0, 0];
    var pre := raw[..CRC_OFF] + zeros + raw[HDR_LEN..p];
    assert raw[..CRC_OFF] == raw[..p][..CRC_OFF] && raw'[..CRC_OFF] == raw'[..p][..CRC_OFF];
    assert raw[HDR_LEN..p] == raw[..p][HDR_LEN..] && raw'[HDR_LEN..p] == raw'[..p][HDR_LEN..];
    assert raw[CRC_OFF..HDR_LEN] == raw[..p][CRC_OFF..HDR_LEN];
    assert raw'[CRC_OFF..HDR_LEN] == raw'[..p][CRC_OFF..HDR_LEN];
    assert raw[..CRC_OFF] + zeros + raw[HDR_LEN..] == pre + w + raw[p + k..];
    assert raw'[..CRC_OFF] + zeros + raw'[HDR_LEN..] == pre + w' + raw[p + k..];
    Crc32.BurstChangesCrc(pre, w, w', raw[p + k..]);
  }

  lemma BurstInsideField(raw: seq<byte>, raw': seq<byte>, p: nat, k: nat)
    requires |raw| >= HDR_LEN && SameOutside(raw, raw', p, k) && raw != raw'
    requires CRC_OFF <= p && p + k <= HDR_LEN
    ensures FileCrc(raw) == FileCrc(raw') && Stored(raw) != Stored(raw')
  {
    assert raw[..CRC_OFF] == raw[..p][..CRC_OFF] && raw'[..CRC_OFF] == raw'[..p][..CRC_OFF];
    assert raw[HDR_LEN..] == raw[p + k..][HDR_LEN - p - k..];
    assert raw'[HDR_LEN..] == raw'[p + k..][HDR_LEN - p - k..];
    assert raw == raw[..CRC_OFF] + raw[52..56] + raw[HDR_LEN..];
    assert raw' == raw'[..CRC_OFF] + raw'[52..56] + raw'[HDR_LEN..];
    FieldRoundTrip(raw, 52, 56);
    FieldRoundTrip(raw', 52, 56);
  }

  /**
   No change confined to up to four consecutive bytes (so no change of any single byte) gets past
   `load`, in a file of any size and for whatever device it is offered.
   */
  lemma BurstRefused(raw: seq<byte>, raw': seq<byte>, p: nat, k: nat,
                     devSize: nat, granularity: nat, devSize': nat, granularity': nat)
    requires Load(raw, devSize, granularity).Accepted?
    requires SameOutside(raw, raw', p, k) && raw != raw' && k <= 4 && NoStraddle(p, k)
    ensures Load(raw', devSize', granularity').Refused?
    ensures p >= 12 ==> Load(raw', devSize', granularity') == Refused(ChecksumMismatch)
  {
    assert p >= 12 ==> raw'[0..8] == raw'[..p][0..8] && raw[0..8] == raw[..p][0..8];
    assert p >= 12 ==> raw'[8..12] == raw'[..p][8..12] && raw[8..12] == raw[..p][8..12];
    if CRC_OFF <= p && p + k <= HDR_LEN {
      BurstInsideField(raw, raw', p, k);
    } else {
      if p + k <= CRC_OFF {
        BurstBeforeField(raw, raw', p, k);
      } else {
        BurstAfterField(raw, raw', p, k);
      }
      if ChecksumOk(raw') {
        CrcNumberIsInjective(FileCrc(raw), FileCrc(raw'));
        assert false;
      }
    }
  }
}
