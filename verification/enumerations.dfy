/** Iteration order of a Java `HashMap` or `Properties`: unspecified, so every operation
    that walks a map takes the order as a parameter constrained only to list the keys. */
module Enumerations {

  /** No element occurs twice. */
  predicate Distinct(s: seq<string>) {
    forall i, j :: 0 <= i < j < |s| ==> s[i] != s[j]
  }

  /** `order` lists every element of `keys` exactly once: a `HashMap` iteration order. */
  predicate IsEnumeration(order: seq<string>, keys: set<string>) {
    && Distinct(order)
    && (forall i :: 0 <= i < |order| ==> order[i] in keys)
    && (forall k :: k in keys ==> k in order)
  }
}
