/**
 The reflected CRC-32 of the metadata file (the polynomial and conditioning of
 section 8 of RFC 1952). The specification is the shift register itself, one bit
 at a time; the table-driven loop of the program is proved equal to it, and the
 error detection that the metadata format relies on is proved from the register's
 linearity and injectivity.
 */
module Crc32 {
  import opened Bytes

  const POLY: bv32 := 0xEDB8_8320

  // ---------------------------------------------------------------- the register

  /** One clock of the shift register. */
  function BitStep(c: bv32): bv32 {
    if c & 1 != 0 then POLY ^ (c >> 1) else c >> 1
  }

  function Iterate<T>(f: T -> T, n: nat, x: T): T {
    if n == 0 then x else Iterate(f, n - 1, f(x))
  }

  /** Eight clocks: what the register does with one byte already mixed in. */
  function ByteShift(c: bv32): bv32 { Iterate(BitStep, 8, c) }

  function Wide(b: byte): bv32 { ((b as int) as bv8) as bv32 }

  function Xor(x: bv32, y: bv32): bv32 { x ^ y }

  /** The register after the bytes `bs`, started in state `s`. */
  function Register(s: bv32, bs: seq<byte>): bv32
    decreases |bs|
  {
    if bs == [] then s else Register(ByteShift(Xor(s, Wide(bs[0]))), bs[1..])
  }

  function Crc(bs: seq<byte>): bv32 { !Register(0xFFFF_FFFF, bs) }

  lemma XorComm(a: bv32, b: bv32)
    ensures Xor(a, b) == Xor(b, a)
  {}

  lemma XorAssoc(a: bv32, b: bv32, c: bv32)
    ensures Xor(Xor(a, b), c) == Xor(a, Xor(b, c))
  {}

  lemma XorCancel(a: bv32, b: bv32)
    ensures Xor(a, Xor(a, b)) == b && Xor(a, a) == 0
  {}

  // ---------------------------------------------------------------- algebra of one clock

  ghost predicate Linear(f: bv32 -> bv32) {
    forall x, y {:trigger f(Xor(x, y))} :: f(Xor(x, y)) == Xor(f(x), f(y))
  }

  ghost predicate Injective(f: bv32 -> bv32) {
    forall x, y :: f(x) == f(y) ==> x == y
  }

  lemma ShiftOfXor(x: bv32, y: bv32)
    ensures (x ^ y) >> 1 == (x >> 1) ^ (y >> 1)
    ensures (x ^ y) & 1 == (x & 1) ^ (y & 1)
    ensures x & 1 == 0 || x & 1 == 1
    ensures y & 1 == 0 || y & 1 == 1
  {}

  lemma CancelPoly(a: bv32, b: bv32, p: bv32)
    ensures p ^ (a ^ b) == (p ^ a) ^ b == a ^ (p ^ b)
    ensures (p ^ a) ^ (p ^ b) == a ^ b
  {}

  lemma StepCases(c: bv32)
    ensures c & 1 == 0 ==> BitStep(c) == c >> 1
    ensures c & 1 == 1 ==> BitStep(c) == POLY ^ (c >> 1)
  {}

  lemma BitStepOfXor(x: bv32, y: bv32)
    ensures BitStep(x ^ y) == BitStep(x) ^ BitStep(y)
  {
    hide BitStep;
    StepCases(x);
    StepCases(y);
    StepCases(x ^ y);
    ShiftOfXor(x, y);
    CancelPoly(x >> 1, y >> 1, POLY);
  }

  lemma BitStepIsLinear()
    ensures Linear(BitStep)
  {
    forall x, y ensures BitStep(Xor(x, y)) == Xor(BitStep(x), BitStep(y)) {
      assert BitStep(Xor(x, y)) == Xor(BitStep(x), BitStep(y)) by { BitStepOfXor(x, y); }
    }
  }

  /** The register can be run backwards: the top bit tells which branch was taken. */
  function BitUnstep(y: bv32): bv32 {
    if y & 0x8000_0000 != 0 then ((y ^ POLY) << 1) | 1 else y << 1
  }

  lemma UnstepOfStep(x: bv32)
    ensures BitUnstep(BitStep(x)) == x
  {}

  lemma BitStepIsInjective()
    ensures Injective(BitStep)
  {
    forall x, y | BitStep(x) == BitStep(y) ensures x == y {
      UnstepOfStep(x);
      UnstepOfStep(y);
    }
  }

  lemma {:induction false} IterateIsLinear(f: bv32 -> bv32, n: nat, x: bv32, y: bv32)
    requires Linear(f)
    ensures Iterate(f, n, Xor(x, y)) == Xor(Iterate(f, n, x), Iterate(f, n, y))
  {
    hide Xor;
    if n > 0 {
      IterateIsLinear(f, n - 1, f(x), f(y));
    }
  }

  lemma {:induction false} IterateIsInjective(f: bv32 -> bv32, n: nat, x: bv32, y: bv32)
    requires Injective(f) && Iterate(f, n, x) == Iterate(f, n, y)
    ensures x == y
  {
    if n > 0 {
      IterateIsInjective(f, n - 1, f(x), f(y));
    }
  }

  // ---------------------------------------------------------------- the byte step

  lemma ByteShiftOfXor(x: bv32, y: bv32)
    ensures ByteShift(Xor(x, y)) == Xor(ByteShift(x), ByteShift(y))
  {
    BitStepIsLinear();
    IterateIsLinear(BitStep, 8, x, y);
  }

  /** The byte step loses nothing: it is a permutation of the register states. */
  lemma ByteShiftIsInjective(x: bv32, y: bv32)
    requires ByteShift(x) == ByteShift(y)
    ensures x == y
  {
    BitStepIsInjective();
    IterateIsInjective(BitStep, 8, x, y);
  }

  lemma StepOfEven(x: bv32)
    requires x & 1 == 0
    ensures BitStep(x) == x >> 1
  {}

  lemma LowByteZero(x: bv32)
    requires x & 0xFF == 0
    ensures x & 1 == 0 && (x >> 1) & 1 == 0 && (x >> 2) & 1 == 0 && (x >> 3) & 1 == 0
    ensures (x >> 4) & 1 == 0 && (x >> 5) & 1 == 0 && (x >> 6) & 1 == 0 && (x >> 7) & 1 == 0
    ensures (x >> 1) >> 1 == x >> 2 && (x >> 2) >> 1 == x >> 3 && (x >> 3) >> 1 == x >> 4
    ensures (x >> 4) >> 1 == x >> 5 && (x >> 5) >> 1 == x >> 6 && (x >> 6) >> 1 == x >> 7
    ensures (x >> 7) >> 1 == x >> 8
  {}

  lemma EightFold(f: bv32 -> bv32, x: bv32)
    ensures Iterate(f, 8, x) == f(f(f(f(f(f(f(f(x))))))))
  {
    assert Iterate(f, 4, f(f(f(f(x))))) == f(f(f(f(f(f(f(f(x))))))));
  }

  /** With the low byte clear no clock meets the polynomial: eight clocks only shift. */
  lemma ByteShiftOfHigh(x: bv32)
    requires x & 0xFF == 0
    ensures ByteShift(x) == x >> 8
  {
    LowByteZero(x);
    StepOfEven(x);
    StepOfEven(x >> 1);
    StepOfEven(x >> 2);
    StepOfEven(x >> 3);
    StepOfEven(x >> 4);
    StepOfEven(x >> 5);
    StepOfEven(x >> 6);
    StepOfEven(x >> 7);
    EightFold(BitStep, x);
  }

  lemma LowAndHigh(x: bv32)
    ensures x == Xor(x & 0xFF, x & 0xFFFF_FF00)
    ensures (x & 0xFFFF_FF00) & 0xFF == 0 && (x & 0xFFFF_FF00) >> 8 == x >> 8
  {}

  lemma ByteShiftOfParts(lo: bv32, hi: bv32)
    requires hi & 0xFF == 0
    ensures ByteShift(Xor(lo, hi)) == Xor(ByteShift(lo), hi >> 8)
  {
    hide ByteShift;
    hide Xor;
    ByteShiftOfXor(lo, hi);
    ByteShiftOfHigh(hi);
  }

  lemma ByteShiftByTable(x: bv32)
    ensures ByteShift(x) == Xor(ByteShift(x & 0xFF), x >> 8)
  {
    hide ByteShift;
    hide Xor;
    LowAndHigh(x);
    ByteShiftOfParts(x & 0xFF, x & 0xFFFF_FF00);
  }

  ghost predicate IsTable(table: seq<bv32>) {
    |table| == 256 && forall i :: 0 <= i < 256 ==> table[i] == ByteShift(i as bv32)
  }

  lemma IndexRoundTrip(k: bv32)
    requires k & 0xFFFF_FF00 == 0
    ensures 0 <= k as int < 256 && (k as int) as bv32 == k
  {
    assert k < 256;
  }

  lemma MixedByte(crc: bv32, b: bv32)
    requires b & 0xFFFF_FF00 == 0
    ensures Xor(crc, b) >> 8 == crc >> 8
  {}

  lemma LowByteIsIndex(x: bv32)
    ensures (x & 0xFF) & 0xFFFF_FF00 == 0
  {}

  lemma WideIsByte(b: byte)
    ensures Wide(b) & 0xFFFF_FF00 == 0
  {}

  /** One turn of the program's loop: look the low byte up and shift the rest down. */
  function TableStep(table: seq<bv32>, crc: bv32, b: byte): bv32
    requires |table| == 256
  {
    var mixed := Xor(crc, Wide(b)) & 0xFF;
    LowByteIsIndex(Xor(crc, Wide(b)));
    IndexRoundTrip(mixed);
    Xor(table[mixed as int], crc >> 8)
  }

  lemma TableLookup(table: seq<bv32>, x: bv32, shifted: bv32)
    requires IsTable(table) && x >> 8 == shifted
    ensures (x & 0xFF) as int < 256
    ensures Xor(table[(x & 0xFF) as int], shifted) == ByteShift(x)
  {
    hide ByteShift;
    hide Xor;
    LowByteIsIndex(x);
    IndexRoundTrip(x & 0xFF);
    ByteShiftByTable(x);
  }

  /** One turn of the table loop is eight clocks of the register. */
  lemma TableStepIsRegister(table: seq<bv32>, crc: bv32, b: byte)
    requires IsTable(table)
    ensures TableStep(table, crc, b) == ByteShift(Xor(crc, Wide(b)))
  {
    hide ByteShift;
    hide Xor;
    hide Wide;
    WideIsByte(b);
    MixedByte(crc, Wide(b));
    TableLookup(table, Xor(crc, Wide(b)), crc >> 8);
  }

  function Flatten(parts: seq<seq<byte>>): seq<byte> {
    if parts == [] then [] else parts[0] + Flatten(parts[1..])
  }

  /** One entry of the table: eight conditional shifts. */
  method TableEntry(index: bv32) returns (c: bv32)
    ensures c == ByteShift(index)
  {
    c := index;
    var k := 0;
    while k < 8
      invariant 0 <= k <= 8
      invariant Iterate(BitStep, 8 - k, c) == Iterate(BitStep, 8, index)
    {
      c := if c & 1 != 0 then POLY ^ (c >> 1) else c >> 1;
      k := k + 1;
    }
  }

  /** The 256 entries, each computed by `TableEntry`. */
  method BuildTable() returns (table: array<bv32>)
    ensures fresh(table) && IsTable(table[..])
  {
    hide ByteShift;
    table := new bv32[256];
    var i := 0;
    while i < 256
      invariant 0 <= i <= 256
      invariant forall j :: 0 <= j < i ==> table[j] == ByteShift(j as bv32)
    {
      table[i] := TableEntry(i as bv32);
      i := i + 1;
    }
  }

  method Checksum(parts: seq<seq<byte>>) returns (crc: bv32)
    ensures crc == Crc(Flatten(parts))
  {
    hide ByteShift;
    hide TableStep;
    hide Xor;
    var table := BuildTable();
    var entries := table[..];
    crc := 0xFFFF_FFFF;
    var p := 0;
    assert parts[0..] == parts;
    while p < |parts|
      invariant 0 <= p <= |parts|
      invariant Register(crc, Flatten(parts[p..])) == Register(0xFFFF_FFFF, Flatten(parts))
    {
      var part := parts[p];
      var i := 0;
      ghost var rest := Flatten(parts[p + 1..]);
      assert parts[p..][1..] == parts[p + 1..];
      assert part[0..] == part;
      while i < |part|
        invariant 0 <= i <= |part|
        invariant Register(crc, part[i..] + rest) == Register(0xFFFF_FFFF, Flatten(parts))
      {
        TableStepIsRegister(entries, crc, part[i]);
        assert (part[i..] + rest)[1..] == part[i + 1..] + rest;
        crc := TableStep(entries, crc, part[i]);
        i := i + 1;
      }
      assert part[|part|..] + rest == rest;
      p := p + 1;
    }
    crc := !crc;
  }

  // ---------------------------------------------------------------- which register it is

  /** The terms of the generator polynomial below x^32. */
  predicate IsTerm(k: nat) { k in {0, 1, 2, 4, 5, 7, 8, 10, 11, 12, 16, 22, 23, 26} }

  /** `POLY` is the generator of section 8 of RFC 1952, the coefficient of x^k in bit 31 - k. */
  lemma PolyIsTheGenerator(k: nat)
    requires k < 32
    ensures (POLY >> (31 - k)) & 1 == 1 <==> IsTerm(k)
  {}

  /** One byte through the register, computed. */
  lemma OneByte(s: bv32, b: byte, rest: seq<byte>, wide: bv32, next: bv32)
    requires Wide(b) == wide
    requires BitStep(BitStep(BitStep(BitStep(BitStep(BitStep(BitStep(BitStep(s ^ wide)))))))) == next
    ensures Register(s, [b] + rest) == Register(next, rest)
  {
    hide BitStep, Wide;
    EightFold(BitStep, s ^ wide);
    assert ([b] + rest)[1..] == rest;
  }

  lemma NothingLeft(s: bv32)
    ensures Register(s, []) == s
  {}

  /** The check value: the CRC of the nine digits "123456789". */
  lemma CheckValue()
    ensures Crc([49, 50, 51, 52, 53, 54, 55, 56, 57]) == 0xCBF4_3926
  {
    hide Register, ByteShift;
    OneByte(0xFFFF_FFFF, 49, [50, 51, 52, 53, 54, 55, 56, 57], 0x0000_0031, 0x7C23_1048);
    OneByte(0x7C23_1048, 50, [51, 52, 53, 54, 55, 56, 57], 0x0000_0032, 0xB0AC_BB32);
    OneByte(0xB0AC_BB32, 51, [52, 53, 54, 55, 56, 57], 0x0000_0033, 0x77B7_9C2D);
    OneByte(0x77B7_9C2D, 52, [53, 54, 55, 56, 57], 0x0000_0034, 0x641C_1F5C);
    OneByte(0x641C_1F5C, 53, [54, 55, 56, 57], 0x0000_0035, 0x340A_C5E3);
    OneByte(0x340A_C5E3, 54, [55, 56, 57], 0x0000_0036, 0xF68D_2C9E);
    OneByte(0xF68D_2C9E, 55, [56, 57], 0x0000_0037, 0xAFFC_9660);
    OneByte(0xAFFC_9660, 56, [57], 0x0000_0038, 0x651F_2550);
    OneByte(0x651F_2550, 57, [], 0x0000_0039, 0x340B_C6D9);
    assert [49] + [50, 51, 52, 53, 54, 55, 56, 57] == [49, 50, 51, 52, 53, 54, 55, 56, 57];
    assert [50] + [51, 52, 53, 54, 55, 56, 57] == [50, 51, 52, 53, 54, 55, 56, 57];
    assert [51] + [52, 53, 54, 55, 56, 57] == [51, 52, 53, 54, 55, 56, 57];
    assert [52] + [53, 54, 55, 56, 57] == [52, 53, 54, 55, 56, 57];
    assert [53] + [54, 55, 56, 57] == [53, 54, 55, 56, 57];
    assert [54] + [55, 56, 57] == [54, 55, 56, 57];
    assert [55] + [56, 57] == [55, 56, 57];
    assert [56] + [57] == [56, 57];
    assert [57] + [] == [57];
    NothingLeft(0x340B_C6D9);
  }

  // ---------------------------------------------------------------- error detection

  lemma {:induction false} RegisterConcat(s: bv32, a: seq<byte>, b: seq<byte>)
    ensures Register(s, a + b) == Register(Register(s, a), b)
    decreases |a|
  {
    hide ByteShift;
    if a == [] {
      assert a + b == b;
    } else {
      assert (a + b)[1..] == a[1..] + b;
      RegisterConcat(ByteShift(Xor(s, Wide(a[0]))), a[1..], b);
    }
  }

  /** Different states never merge while the same bytes go through the register. */
  lemma {:induction false} RegisterIsInjective(s: bv32, s': bv32, bs: seq<byte>)
    requires Register(s, bs) == Register(s', bs)
    ensures s == s'
    decreases |bs|
  {
    hide ByteShift;
    hide Xor;
    if bs != [] {
      var b := Wide(bs[0]);
      RegisterIsInjective(ByteShift(Xor(s, b)), ByteShift(Xor(s', b)), bs[1..]);
      ByteShiftIsInjective(Xor(s, b), Xor(s', b));
      XorComm(s, b);
      XorComm(s', b);
      XorCancel(b, s);
      XorCancel(b, s');
    }
  }

  /** The difference of two equally long strings of up to four bytes, as a little-endian word. */
  function DiffWord(bs: seq<byte>, bs': seq<byte>): (w: bv32)
    requires |bs| == |bs'| <= 4
    ensures |bs| == 0 ==> w == 0
    ensures |bs| <= 1 ==> w & 0xFFFF_FF00 == 0
    ensures |bs| <= 2 ==> w & 0xFFFF_0000 == 0
    ensures |bs| <= 3 ==> w & 0xFF00_0000 == 0
  {
    if bs == [] then 0
    else Xor(Xor(Wide(bs[0]), Wide(bs'[0])), DiffWord(bs[1..], bs'[1..]) << 8)
  }

  lemma WideIsInjective(x: byte, y: byte)
    requires Wide(x) == Wide(y)
    ensures x == y
  {
    NarrowRoundTrip(x as int);
    NarrowRoundTrip(y as int);
    assert (x as int) as bv8 == (y as int) as bv8;
  }

  lemma DiffWordParts(x: bv32, y: bv32, d: bv32)
    requires x & 0xFFFF_FF00 == 0 && y & 0xFFFF_FF00 == 0 && d & 0xFF00_0000 == 0
    requires Xor(Xor(x, y), d << 8) == 0
    ensures x == y && d == 0
  {}

  lemma {:induction false} DiffWordZero(bs: seq<byte>, bs': seq<byte>)
    requires |bs| == |bs'| <= 4 && DiffWord(bs, bs') == 0
    ensures bs == bs'
  {
    if bs != [] {
      var d := DiffWord(bs[1..], bs'[1..]);
      assert Wide(bs[0]) & 0xFFFF_FF00 == 0 && Wide(bs'[0]) & 0xFFFF_FF00 == 0;
      DiffWordParts(Wide(bs[0]), Wide(bs'[0]), d);
      WideIsInjective(bs[0], bs'[0]);
      DiffWordZero(bs[1..], bs'[1..]);
      assert bs == [bs[0]] + bs[1..] && bs' == [bs'[0]] + bs'[1..];
    }
  }

  lemma ShiftUpAndDown(d: bv32)
    requires d & 0xFF00_0000 == 0
    ensures (d << 8) & 0xFF == 0 && (d << 8) >> 8 == d
  {}

  lemma Rearrange(s: bv32, s': bv32, b: bv32, b': bv32, w: bv32)
    requires Xor(Xor(s, b), Xor(s', b')) == w
    ensures Xor(s, s') == Xor(Xor(b, b'), w)
  {
    hide Xor;
    var t := Xor(s', b');
    calc {
      Xor(Xor(b, b'), w);
      { XorComm(b, b'); XorComm(s, b); XorAssoc(b, s, t); }
      Xor(Xor(b', b), Xor(b, Xor(s, t)));
      { XorAssoc(b', b, Xor(b, Xor(s, t))); XorCancel(b, Xor(s, t)); }
      Xor(b', Xor(s, t));
      { XorAssoc(s, s', b'); XorComm(Xor(s, s'), b'); }
      Xor(b', Xor(b', Xor(s, s')));
      { XorCancel(b', Xor(s, s')); }
      Xor(s, s');
    }
  }

  /** States that the byte step puts three bytes apart were that difference apart, one byte higher. */
  lemma DifferenceBefore(x: bv32, x': bv32, d: bv32)
    requires d & 0xFF00_0000 == 0 && Xor(ByteShift(x), ByteShift(x')) == d
    ensures Xor(x, x') == d << 8
  {
    hide ByteShift, Xor;
    ByteShiftOfXor(x, x');
    ShiftUpAndDown(d);
    ByteShiftOfHigh(d << 8);
    ByteShiftIsInjective(Xor(x, x'), d << 8);
  }

  /** Two runs over up to four bytes that meet must have started exactly that word apart. */
  lemma {:induction false} MeetingRuns(s: bv32, s': bv32, bs: seq<byte>, bs': seq<byte>)
    requires |bs| == |bs'| <= 4
    requires Register(s, bs) == Register(s', bs')
    ensures Xor(s, s') == DiffWord(bs, bs')
    decreases |bs|
  {
    hide ByteShift, Xor, Wide;
    if bs == [] {
      XorCancel(s, s);
    } else {
      var x, x' := Xor(s, Wide(bs[0])), Xor(s', Wide(bs'[0]));
      MeetingRuns(ByteShift(x), ByteShift(x'), bs[1..], bs'[1..]);
      var d := DiffWord(bs[1..], bs'[1..]);
      DifferenceBefore(x, x', d);
      Rearrange(s, s', Wide(bs[0]), Wide(bs'[0]), d << 8);
    }
  }

  lemma BurstChangesRegister(init: bv32, pre: seq<byte>, w: seq<byte>, w': seq<byte>, post: seq<byte>)
    requires |w| == |w'| <= 4 && w != w'
    ensures Register(init, pre + w + post) != Register(init, pre + w' + post)
  {
    hide ByteShift;
    hide Xor;
    var s := Register(init, pre);
    RegisterConcat(init, pre, w);
    RegisterConcat(init, pre + w, post);
    RegisterConcat(init, pre, w');
    RegisterConcat(init, pre + w', post);
    if Register(init, pre + w + post) == Register(init, pre + w' + post) {
      RegisterIsInjective(Register(s, w), Register(s, w'), post);
      MeetingRuns(s, s, w, w');
      XorCancel(s, s);
      DiffWordZero(w, w');
      assert false;
    }
  }

  lemma NotIsInjective(x: bv32, y: bv32)
    requires !x == !y
    ensures x == y
  {}

  /** Any change confined to four consecutive bytes changes the checksum, in files of any size. */
  lemma BurstChangesCrc(pre: seq<byte>, w: seq<byte>, w': seq<byte>, post: seq<byte>)
    requires |w| == |w'| <= 4 && w != w'
    ensures Crc(pre + w + post) != Crc(pre + w' + post)
  {
    hide Register;
    BurstChangesRegister(0xFFFF_FFFF, pre, w, w', post);
    if Crc(pre + w + post) == Crc(pre + w' + post) {
      NotIsInjective(Register(0xFFFF_FFFF, pre + w + post), Register(0xFFFF_FFFF, pre + w' + post));
      assert false;
    }
  }
}
