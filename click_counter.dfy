/**
 * The hit/miss tally the controller keeps (ClickCounter.js is not part of this
 * model; its behaviour is taken from the method names the controller calls).
 */
module Counter {

  class ClickCounter {
    var hits: nat
    var misses: nat

    constructor()
      ensures hits == 0 && misses == 0
    {
      hits, misses := 0, 0;
    }

    method IncrementHit()
      modifies this
      ensures hits == old(hits) + 1 && misses == old(misses)
    {
      hits := hits + 1;
    }

    method IncrementMiss()
      modifies this
      ensures misses == old(misses) + 1 && hits == old(hits)
    {
      misses := misses + 1;
    }

    function GetHitCount(): nat
      reads this
    {
      hits
    }

    function GetMissCount(): nat
      reads this
    {
      misses
    }

    method Reset()
      modifies this
      ensures hits == 0 && misses == 0
    {
      hits, misses := 0, 0;
    }
  }
}
