/** How a device of bytes is cut into chunks of one granularity. */
module Geometry {

  predicate IsPowerOfTwo(g: nat) {
    g == 1 || (g > 1 && g % 2 == 0 && IsPowerOfTwo(g / 2))
  }

  /** The granularities that `EraState::new` accepts. */
  predicate ValidGranularity(g: nat) { IsPowerOfTwo(g) && g >= 4096 }

  /** 2 to the power `k`. */
  function TwoTo(k: nat): (n: nat)
    ensures n >= 1
  {
    if k == 0 then 1 else 2 * TwoTo(k - 1)
  }

  lemma {:induction false} PowerIsAccepted(k: nat)
    ensures IsPowerOfTwo(TwoTo(k))
  {
    if k > 0 {
      PowerIsAccepted(k - 1);
    }
  }

  lemma {:induction false} AcceptedIsPower(g: nat) returns (k: nat)
    requires IsPowerOfTwo(g)
    ensures g == TwoTo(k)
  {
    if g == 1 {
      k := 0;
    } else {
      k := AcceptedIsPower(g / 2);
      k := k + 1;
    }
  }

  /** The accepted granularities are the powers of two from 4096 on. */
  lemma ValidGranularities(g: nat)
    ensures ValidGranularity(g) <==> g >= 4096 && exists k :: g == TwoTo(k)
  {
    if IsPowerOfTwo(g) {
      var k := AcceptedIsPower(g);
    }
    if k :| g == TwoTo(k) {
      PowerIsAccepted(k);
    }
  }

  function Min(x: nat, y: nat): nat { if x <= y then x else y }

  function Max(x: nat, y: nat): nat { if x >= y then x else y }

  /** `dev_size.div_ceil(granularity)`. */
  function Chunks(size: nat, g: nat): (n: nat)
    requires g > 0
  {
    (size + g - 1) / g
  }

  /** Every byte of the device lies in one of its chunks, and only chunk starts inside the device exist. */
  lemma ChunkOfByte(size: nat, g: nat, b: nat)
    requires g > 0 && b < size
    ensures b / g < Chunks(size, g)
  {
    var n := Chunks(size, g);
    assert size + g - 1 == n * g + (size + g - 1) % g;
    if b / g >= n {
      assert b == (b / g) * g + b % g;
      MulMonotone(n, b / g, g);
      assert false;
    }
  }

  lemma ChunkStartsInside(size: nat, g: nat, c: nat)
    requires g > 0 && c < Chunks(size, g)
    ensures c * g < size
  {
    var n := Chunks(size, g);
    assert n * g <= size + g - 1;
    MulMonotone(c + 1, n, g);
  }

  lemma MulMonotone(x: nat, y: nat, g: nat)
    requires x <= y
    ensures x * g <= y * g
  {
    assert y * g == x * g + (y - x) * g;
  }

  lemma DivMonotone(x: nat, y: nat, g: nat)
    requires g > 0 && x <= y
    ensures x / g <= y / g
  {
    if x / g >= y / g + 1 {
      MulMonotone(y / g + 1, x / g, g);
      assert false;
    }
  }

  /** A byte is in chunk `c` exactly when it is between the chunk's edges. */
  lemma ChunkEdges(b: nat, c: nat, g: nat)
    requires g > 0
    ensures b / g == c <==> c * g <= b < c * g + g
  {
    assert b == (b / g) * g + b % g;
    if b / g < c {
      MulMonotone(b / g + 1, c, g);
    } else if b / g > c {
      MulMonotone(c + 1, b / g, g);
    }
  }

  /** A chunk between those of two offsets holds an offset between them. */
  lemma OffsetInChunk(lo: nat, hi: nat, chunk: nat, g: nat) returns (b: nat)
    requires g > 0 && lo <= hi && lo / g <= chunk <= hi / g
    ensures lo <= b <= hi && b / g == chunk
  {
    if lo / g == chunk {
      b := lo;
    } else {
      var start: nat := chunk * g;
      b := start;
      ChunkEdges(b, chunk, g);
      ChunkEdges(lo, lo / g, g);
      MulMonotone(lo / g + 1, chunk, g);
      ChunkEdges(hi, hi / g, g);
      MulMonotone(chunk, hi / g, g);
    }
  }

  lemma ChunksBound(size: nat, g: nat)
    requires g > 0
    ensures Chunks(size, g) <= size
  {
    if size > 0 && Chunks(size, g) > size {
      ChunkStartsInside(size, g, size);
      MulMonotone(1, g, size);
      assert false;
    } else if size == 0 {
      assert (g - 1) / g == 0;
    }
  }
}
