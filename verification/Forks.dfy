/** Hardfork activation: each fork is active when its own time has come or a later fork is active. */
module Forks {
  import opened Prelude

  datatype HardForks = HardForks(
    canyon: Option<u64>, delta: Option<u64>, ecotone: Option<u64>, fjord: Option<u64>, granite: Option<u64>,
    holocene: Option<u64>, isthmus: Option<u64>, jovian: Option<u64>, interop: Option<u64>)

  predicate Reached(at: Option<u64>, timestamp: u64) {
    at.Some? && timestamp >= at.value
  }

  predicate InteropActive(f: HardForks, timestamp: u64) {
    Reached(f.interop, timestamp)
  }

  predicate JovianActive(f: HardForks, timestamp: u64) {
    Reached(f.jovian, timestamp) || InteropActive(f, timestamp)
  }

  predicate IsthmusActive(f: HardForks, timestamp: u64) {
    Reached(f.isthmus, timestamp) || JovianActive(f, timestamp)
  }

  predicate HoloceneActive(f: HardForks, timestamp: u64) {
    Reached(f.holocene, timestamp) || IsthmusActive(f, timestamp)
  }

  predicate GraniteActive(f: HardForks, timestamp: u64) {
    Reached(f.granite, timestamp) || HoloceneActive(f, timestamp)
  }

  predicate FjordActive(f: HardForks, timestamp: u64) {
    Reached(f.fjord, timestamp) || GraniteActive(f, timestamp)
  }

  predicate EcotoneActive(f: HardForks, timestamp: u64) {
    Reached(f.ecotone, timestamp) || FjordActive(f, timestamp)
  }

  predicate DeltaActive(f: HardForks, timestamp: u64) {
    Reached(f.delta, timestamp) || EcotoneActive(f, timestamp)
  }

  predicate CanyonActive(f: HardForks, timestamp: u64) {
    Reached(f.canyon, timestamp) || DeltaActive(f, timestamp)
  }

  /** The activation times in the order of the forks. */
  function Times(f: HardForks): seq<Option<u64>> {
    [f.canyon, f.delta, f.ecotone, f.fjord, f.granite, f.holocene, f.isthmus, f.jovian, f.interop]
  }

  /** Some fork from the `k`-th on has its time at or before the timestamp. */
  predicate AnyFrom(f: HardForks, k: nat, timestamp: u64) {
    exists i | k <= i < |Times(f)| :: Times(f)[i].Some? && Times(f)[i].value <= timestamp
  }

  /** A fork is active exactly when its own time or that of any later fork has come. */
  lemma ActiveIff(f: HardForks, timestamp: u64)
    ensures CanyonActive(f, timestamp) <==> AnyFrom(f, 0, timestamp)
    ensures EcotoneActive(f, timestamp) <==> AnyFrom(f, 2, timestamp)
    ensures HoloceneActive(f, timestamp) <==> AnyFrom(f, 5, timestamp)
    ensures IsthmusActive(f, timestamp) <==> AnyFrom(f, 6, timestamp)
    ensures JovianActive(f, timestamp) <==> AnyFrom(f, 7, timestamp)
    ensures InteropActive(f, timestamp) <==> AnyFrom(f, 8, timestamp)
  {
    var t := Times(f);
    assert t[0] == f.canyon && t[1] == f.delta && t[2] == f.ecotone && t[3] == f.fjord && t[4] == f.granite;
    assert t[5] == f.holocene && t[6] == f.isthmus && t[7] == f.jovian && t[8] == f.interop;
  }
}
