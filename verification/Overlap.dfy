/** Calls that read, let others run, and write. They are listed in the order they finish. */
module Overlap {

  /**
   * How many calls had finished when call `i` read, `behind` of them having finished
   * between its reading and its own end.
   */
  function SeenBy(i: nat, behind: nat): (r: nat)
    ensures r <= i
  {
    if behind <= i then i - behind else 0
  }
}
