/** The `BiMap` of the bimap crate, as the room's student register and the
    pairing registry use it: a left-to-right map in which no two lefts share
    a right, so it can be read in both directions. */
module BiMaps {
  ghost predicate Injective<L, R>(m: map<L, R>)
  {
    forall a, b | a in m && b in m && a != b :: m[a] != m[b]
  }

  /** `BiMap::insert(l, r)`: the pair whose left is `l` and the pair whose
      right is `r`, if any, are evicted, and then `(l, r)` is added. Every
      other pair stays as it was, and the result is again one-to-one. */
  function Insert<L, R(==)>(m: map<L, R>, l: L, r: R): (m': map<L, R>)
    ensures l in m' && m'[l] == r
    ensures forall k | k in m && k != l && m[k] != r :: k in m' && m'[k] == m[k]
    ensures forall k | k in m' && k != l :: k in m && m'[k] == m[k] && m[k] != r
    ensures Injective(m) ==> Injective(m')
  {
    (map k | k in m && k != l && m[k] != r :: m[k])[l := r]
  }
}
