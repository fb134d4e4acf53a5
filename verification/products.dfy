/** Products named as functions. A lemma whose contract speaks of Mul(x, y)
    carries over to any equal factors by congruence, which the solver does not
    always do for a bare x * y; the lemmas about sums, powers and lattice nodes
    state their products this way where such a fact is passed on. */
module Products {
  function Mul(x: real, y: real): real
  {
    x * y
  }

  function Mul3(x: real, y: real, z: real): real
  {
    x * y * z
  }
}
