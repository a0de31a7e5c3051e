/** The in-process cache of the sides taken in each recorded arbitrage
    (globals.py, arbitrage_sides_lookup). */
module Globals {

  /** The value stored per arbitrage id: the side bet on each contract. */
  datatype Sides = Sides(betSide1: string, betSide2: string)

  /** The lookup after storing `s` under `arbId`. */
  function WithSides(lookup: map<int, Sides>, arbId: int, s: Sides): (r: map<int, Sides>)
    ensures arbId in r && r[arbId] == s
    ensures forall k :: k in lookup && k != arbId ==> k in r && r[k] == lookup[k]
    ensures forall k :: k in r ==> k == arbId || k in lookup
  {
    lookup[arbId := s]
  }

  /** Storing under a key grows the lookup by one entry exactly when the key
      was absent; an existing key is overwritten, not duplicated. */
  lemma WithSidesSize(lookup: map<int, Sides>, arbId: int, s: Sides)
    ensures |WithSides(lookup, arbId, s)| == if arbId in lookup then |lookup| else |lookup| + 1
  {
    var r := WithSides(lookup, arbId, s);
    if arbId in lookup {
      assert r.Keys == lookup.Keys;
    } else {
      assert r.Keys == lookup.Keys + {arbId};
    }
  }

  /** Storing the same key twice keeps only the second value. */
  lemma WithSidesOverwrites(lookup: map<int, Sides>, arbId: int, s: Sides, t: Sides)
    ensures WithSides(WithSides(lookup, arbId, s), arbId, t) == WithSides(lookup, arbId, t)
  {
  }

  /** The module-level dictionary, mutated in place by key assignment. */
  class ArbitrageSidesLookup {
    var entries: map<int, Sides>

    constructor ()
      ensures entries == map[]
    {
      entries := map[];
    }

    /** add_to_arbitrage_sides_lookup. */
    method AddToArbitrageSidesLookup(arbId: int, betSide1: string, betSide2: string)
      modifies this
      ensures entries == WithSides(old(entries), arbId, Sides(betSide1, betSide2))
      ensures |entries| == if arbId in old(entries) then |old(entries)| else |old(entries)| + 1
    {
      WithSidesSize(entries, arbId, Sides(betSide1, betSide2));
      entries := entries[arbId := Sides(betSide1, betSide2)];
    }
  }
}
