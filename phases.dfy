/**
 * The planet animation driver: a counter that wraps at PlanetPhases
 * (RingCounter(PLANET_PHASES - 1, 0)), advanced when the colour-cycle count
 * changes, and the per-planet phase offset 7 * index.
 */
module Phases {
  import opened MapTypes

  /** One step of the ring counter: 0, 1, ..., 15, 0, ... */
  function NextPhase(p: int): (q: int)
    requires 0 <= p < PlanetPhases
    ensures 0 <= q < PlanetPhases
  {
    if p == PlanetPhases - 1 then 0 else p + 1
  }

  /** A step is the successor modulo PlanetPhases. */
  lemma NextPhaseWraps(p: int)
    requires 0 <= p < PlanetPhases
    ensures NextPhase(p) == (p + 1) % PlanetPhases
  {
    if p == PlanetPhases - 1 {
      assert p + 1 == PlanetPhases;
    } else {
      assert 0 <= p + 1 < PlanetPhases;
    }
  }

  /** The counter after `ticks` colour-cycle changes. */
  function Advance(p: int, ticks: nat): (q: int)
    requires 0 <= p < PlanetPhases
    ensures 0 <= q < PlanetPhases
  {
    if ticks == 0 then p else NextPhase(Advance(p, ticks - 1))
  }

  /** After k changes the counter has moved k places round the ring. */
  lemma {:induction false} AdvanceIsModular(p: int, ticks: nat)
    requires 0 <= p < PlanetPhases
    ensures Advance(p, ticks) == (p + ticks) % PlanetPhases
  {
    if ticks > 0 {
      var n := p + ticks - 1;
      AdvanceIsModular(p, ticks - 1);
      assert Advance(p, ticks) == NextPhase(n % PlanetPhases);
      NextPhaseWraps(n % PlanetPhases);
      SuccessorMod(n);
    }
  }

  /** Taking the remainder before or after adding one agrees; the proof writes PlanetPhases as its value 16. */
  lemma SuccessorMod(n: nat)
    ensures (n % PlanetPhases + 1) % PlanetPhases == (n + 1) % PlanetPhases
  {
    var q, r := n / 16, n % 16;
    assert n == 16 * q + r;
    if r == 15 {
      assert n + 1 == 16 * (q + 1);
    } else {
      assert n + 1 == 16 * q + (r + 1);
    }
  }

  /** The counter has period PlanetPhases. */
  lemma CounterPeriod(p: int, ticks: nat)
    requires 0 <= p < PlanetPhases
    ensures Advance(p, ticks + PlanetPhases) == Advance(p, ticks)
  {
    var later := ticks + PlanetPhases;
    var n := p + ticks;
    AdvanceIsModular(p, ticks);
    AdvanceIsModular(p, later);
    assert p + later == n + 16;
    SameRemainder(n, 1);
  }

  /** Within one period the counter reaches every phase. */
  lemma CounterReachesAll(p: int, q: int)
    requires 0 <= p < PlanetPhases && 0 <= q < PlanetPhases
    ensures 0 <= (q - p) % PlanetPhases < PlanetPhases && Advance(p, (q - p) % PlanetPhases) == q
  {
    var k := (q - p) % PlanetPhases;
    if q >= p {
      assert k == q - p;
    } else {
      assert k == q - p + PlanetPhases;
    }
    AdvanceIsModular(p, k);
  }

  /** The counter value one drawing pass uses: advanced once if the colour-cycle count changed. */
  function PassPhase(phase: int, cycleCount: int, count: int): (p: int)
    requires 0 <= phase < PlanetPhases
    ensures 0 <= p < PlanetPhases
  {
    if count != cycleCount then NextPhase(phase) else phase
  }

  /** The phase planet `index` shows when the counter is at `counter`. */
  function DisplayedPhase(counter: int, index: nat): (q: int)
    ensures 0 <= q < PlanetPhases
  {
    (counter + 7 * index) % PlanetPhases
  }

  /** Frame index of the sprite drawn for a planet of style `row`. */
  function FrameIndex(row: nat, counter: int, index: nat): (f: int)
    ensures row * PlanetPhases <= f < row * PlanetPhases + PlanetPhases
  {
    row * PlanetPhases + DisplayedPhase(counter, index)
  }

  /** The frame's position within its style row is the planet's displayed phase. */
  lemma FrameShowsPhase(row: nat, counter: int, index: nat)
    ensures FrameIndex(row, counter, index) % PlanetPhases == DisplayedPhase(counter, index)
  {
    SameRemainder(DisplayedPhase(counter, index), row);
  }

  /**
   * Two planets show the same phase exactly when their indices agree modulo
   * PlanetPhases: 7 is invertible modulo 16 (7 * 7 = 3 * 16 + 1). The proof
   * and its two helpers write PlanetPhases as its value 16.
   */
  lemma {:induction false} SiblingsDesynchronised(counter: int, i: nat, j: nat)
    ensures DisplayedPhase(counter, i) == DisplayedPhase(counter, j) <==> (i - j) % PlanetPhases == 0
  {
    var a, b := counter + 7 * i, counter + 7 * j;
    var d := i - j;
    assert a == 16 * (a / 16) + a % 16;
    assert b == 16 * (b / 16) + b % 16;
    if a % 16 == b % 16 {
      var m := a / 16 - b / 16;
      assert 7 * d == 16 * m;
      assert d == 16 * (7 * m - 3 * d);
      DivisibleBy16(d, 7 * m - 3 * d);
    } else {
      if d % 16 == 0 {
        var n := d / 16;
        assert d == 16 * n;
        assert a == b + 16 * (7 * n);
        SameRemainder(b, 7 * n);
        assert false;
      }
    }
  }

  /** A multiple of 16 (PlanetPhases) leaves no remainder. */
  lemma DivisibleBy16(d: int, z: int)
    requires d == 16 * z
    ensures d % 16 == 0
  {
  }

  /** Adding a multiple of 16 (PlanetPhases) keeps the remainder. */
  lemma SameRemainder(b: int, n: int)
    ensures (b + 16 * n) % 16 == b % 16
  {
  }
}
