/** Go reads a map in an order of its own: what is said of a loop over one holds for every order. */
module MapOrders {

  /** An order in which all of `domain` may be read, once each. */
  ghost predicate Ordering<K(!new)>(order: seq<K>, domain: set<K>) {
    && (forall i :: 0 <= i < |order| ==> order[i] in domain)
    && (forall i, j :: 0 <= i < j < |order| ==> order[i] != order[j])
    && (forall k :: k in domain ==> k in order)
  }
}
