/** Ports of a fabric, by node GUID and port number, and which are neighbours. */
module PortIds {
  import opened OrderedKeys

  datatype PortId = PortId(node: Key, num: Key)

  /** The neighbour of each linked port. */
  type Wiring = w: map<PortId, PortId> | Symmetric(w)

  predicate Symmetric(w: map<PortId, PortId>) {
    forall p :: p in w ==> w[p] != p && w[p] in w && w[w[p]] == p
  }
}
