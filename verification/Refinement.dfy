/** The refinement temperature
    (crates/episcience-core/src/synthesis/refinement.rs). */
module Refinement {
  import opened Base

  const MAX_DEPTH := 3

  type U8 = n: int | 0 <= n < 256

  datatype Temperature = Temperature(depthDelta: U8, relevancePruneRelax: real, allowSoftVerifier: bool)

  const COLD := Temperature(0, 1.0, false)

  function SaturatingSucc(n: U8): U8 {
    if n == 255 then 255 else n + 1
  }

  function MaxReal(a: real, b: real): real {
    if a < b then b else a
  }

  function Anneal(t: Temperature): Temperature {
    Temperature(Min(SaturatingSucc(t.depthDelta), MAX_DEPTH), MaxReal(t.relevancePruneRelax * 0.8, 0.4), true)
  }

  /** One anneal step after a temperature, or after none: one deeper up to three,
      the prune relaxed by a fifth down to 0.4, the soft verifier allowed. */
  predicate OneStepOn(t: Temperature, before: Option<Temperature>) {
    && t.allowSoftVerifier
    && t.depthDelta == (if before.None? then 1 else if before.value.depthDelta >= 3 then 3 else before.value.depthDelta + 1)
    && var relaxed := if before.None? then 0.8 else before.value.relevancePruneRelax * 0.8;
       t.relevancePruneRelax == if relaxed > 0.4 then relaxed else 0.4
  }

  predicate AtCeiling(t: Temperature) {
    t.depthDelta >= MAX_DEPTH
  }

  lemma AnnealIsOneStep(t: Option<Temperature>)
    ensures OneStepOn(Anneal(if t.Some? then t.value else COLD), t)
  {
  }

  function Annealed(k: nat): Temperature {
    if k == 0 then COLD else Anneal(Annealed(k - 1))
  }

  function PowReal(x: real, k: nat): real {
    if k == 0 then 1.0 else x * PowReal(x, k - 1)
  }

  /** k refinements after the root: the depth is k up to the ceiling, which is
      reached at exactly the third, and the prune is relaxed to 0.8^k with the
      floor at 0.4. */
  lemma {:induction false} AnnealedShape(k: nat)
    ensures Annealed(k).depthDelta == Min(k, MAX_DEPTH)
    ensures AtCeiling(Annealed(k)) <==> k >= MAX_DEPTH
    ensures Annealed(k).relevancePruneRelax == MaxReal(PowReal(0.8, k), 0.4)
    ensures Annealed(k).allowSoftVerifier <==> k > 0
  {
    if k > 0 {
      AnnealedShape(k - 1);
      PowShrinks(k - 1);
      if PowReal(0.8, k - 1) < 0.4 {
        assert PowReal(0.8, k) < 0.4;
      }
    }
  }

  lemma {:induction false} PowShrinks(k: nat)
    ensures 0.0 < PowReal(0.8, k) <= 1.0
  {
    if k > 0 {
      PowShrinks(k - 1);
    }
  }
}
