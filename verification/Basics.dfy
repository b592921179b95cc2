/** What several of the programs need. */
module Basics {

  datatype Option<T> = None | Some(value: T)

  newtype Byte = x: int | 0 <= x < 256

  function Max(a: nat, b: nat): nat {
    if a < b then b else a
  }

  function Min(a: int, b: int): int {
    if a < b then a else b
  }

  /** The smallest number from `from` on that is not in used. */
  function LowestFree(used: set<int>, from: int): (r: int)
    ensures from <= r && r !in used
    ensures forall k | from <= k < r :: k in used
    decreases used
  {
    if from in used then LowestFree(used - {from}, from + 1) else from
  }

  lemma Member<T>(xs: set<T>) returns (x: T)
    requires xs != {}
    ensures x in xs
  {
    x :| x in xs;
  }
}
