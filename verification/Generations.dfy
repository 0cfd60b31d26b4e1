/** Slot generations and how long a stale handle is caught. */
module Generations {
  const U32_MODULUS: nat := 0x1_0000_0000

  /** The generations in use: 1 to 2^32 - 1. */
  const PERIOD: nat := 0xFFFF_FFFF

  type Generation = g: nat | g < 0x1_0000_0000

  /** `nonzero_generation(g.wrapping_add(1))`. */
  function Next(g: Generation): (r: Generation)
    ensures r != 0
  {
    var n := (g + 1) % U32_MODULUS;
    if n == 0 then 1 else n
  }

  /** A slot as its handle sees it: free when the length is 0. */
  datatype Slot = Slot(generation: Generation, length: nat)

  /** The test `read` and `free` make of a handle. */
  predicate Accepts(slot: Slot, g: Generation) {
    slot.generation == g && slot.length != 0
  }

  /** One allocation or one free of the slot; payloads are not empty. */
  predicate SlotStep(a: Slot, b: Slot) {
    b.generation == Next(a.generation) && (a.length == 0 <==> b.length != 0)
  }

  /** The slot `n` steps after a handle of generation `g` was issued for it: generations go round 1 .. 2^32 - 1. */
  ghost predicate AtStep(slot: Slot, g: Generation, n: nat)
    requires g != 0
  {
    slot.generation == (g - 1 + n) % PERIOD + 1 && (slot.length != 0 <==> n % 2 == 0)
  }

  lemma FirstStep(slot: Slot, g: Generation)
    requires g != 0 && Accepts(slot, g)
    ensures AtStep(slot, g, 0)
  {
    ModSmall(g - 1);
  }

  lemma NextStep(a: Slot, b: Slot, g: Generation, n: nat)
    requires g != 0 && AtStep(a, g, n) && SlotStep(a, b)
    ensures AtStep(b, g, n + 1)
  {
    hide Next;
    NextIs(a.generation);
    ModNext(g - 1 + n);
  }

  lemma NextIs(g: Generation)
    requires g != 0
    ensures Next(g) == if g == PERIOD then 1 else g + 1
  {
  }

  lemma ModSmall(x: nat)
    requires x < PERIOD
    ensures x % PERIOD == x
  {
  }

  lemma ModNext(x: nat)
    ensures (x + 1) % PERIOD == if x % PERIOD == PERIOD - 1 then 0 else x % PERIOD + 1
  {
  }

  lemma FullTurns(g: Generation, n: nat)
    requires g != 0
    ensures (g - 1 + n) % PERIOD + 1 == g <==> n % PERIOD == 0
  {
  }

  /** The period is odd, so a full turn lands on a live slot only every second time. */
  lemma EvenTurns(n: nat)
    ensures n % PERIOD == 0 && n % 2 == 0 <==> n % (2 * PERIOD) == 0
  {
    var q := n / PERIOD;
    assert n == PERIOD * q + n % PERIOD;
    if n % PERIOD == 0 && n % 2 == 0 {
      assert q % 2 == 0;
      assert n == 2 * PERIOD * (q / 2);
    }
  }

  /** A handle is accepted after a number of steps exactly when they are a multiple of 2 * (2^32 - 1). */
  lemma AcceptedAt(slot: Slot, g: Generation, n: nat)
    requires g != 0 && AtStep(slot, g, n)
    ensures Accepts(slot, g) <==> n % (2 * PERIOD) == 0
  {
    FullTurns(g, n);
    EvenTurns(n);
  }
}
