/** splitmix64, from which all fault decisions are drawn: what is drawn is a function of the seed. */
module SplitMix {

  /** The state after one draw. */
  function Advance(s: bv64): bv64 { s + 0x9E37_79B9_7F4A_7C15 }

  /** The state after `k` draws. */
  function After(s: bv64, k: nat): bv64 {
    if k == 0 then s else Advance(After(s, k - 1))
  }

  function FirstRound(z: bv64): bv64 { (z ^ (z >> 30)) * 0xBF58_476D_1CE4_E5B9 }

  function SecondRound(z: bv64): bv64 { (z ^ (z >> 27)) * 0x94D0_49BB_1331_11EB }

  function LastRound(z: bv64): bv64 { z ^ (z >> 31) }

  /** The output that a state stands for. */
  function Mixed(s: bv64): bv64 { LastRound(SecondRound(FirstRound(s))) }

  /** The draw below `n` that is made in state `s`. */
  function Draw(s: bv64, n: nat): (r: nat)
    requires n > 0
    ensures r < n
  {
    (Mixed(Advance(s)) as int) % n
  }

  /** The published first output for seed 0. */
  lemma FirstOutput()
    ensures Mixed(Advance(0)) == 0xE220_A839_7B1D_CDAF
  {}

  class Rng {
    var state: bv64

    constructor (seed: bv64)
      ensures state == seed
    {
      state := seed;
    }

    method Next() returns (z: bv64)
      modifies this
      ensures state == Advance(old(state)) && z == Mixed(state)
    {
      hide FirstRound, SecondRound, LastRound, Advance;
      state := Advance(state);
      z := state;
      z := FirstRound(z);
      z := SecondRound(z);
      z := LastRound(z);
    }

    method Below(n: nat) returns (r: nat)
      requires n > 0
      modifies this
      ensures r < n && r == Draw(old(state), n) && state == Advance(old(state))
    {
      hide Mixed, Advance;
      var z := Next();
      r := (z as int) % n;
    }

    /** Roll a per-mill probability; at none nothing is drawn. */
    method Hit(pm: nat) returns (hit: bool)
      modifies this
      ensures hit <==> pm > 0 && Draw(old(state), 1000) < pm
      ensures state == if pm > 0 then Advance(old(state)) else old(state)
      ensures pm >= 1000 ==> hit
    {
      hide Draw, Advance;
      hit := false;
      if pm > 0 {
        var r := Below(1000);
        hit := r < pm;
      }
    }
  }
}
