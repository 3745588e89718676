/** Atoms: asserted constraint terms tagged with the theory that owns them. */
module Atoms {
  import opened Core

  /** Position of a theory in the engine's registration list. */
  type TheoryId = nat

  datatype Atom = Atom(term: TermId, theory: TheoryId)

  /** An append-only table of atoms. */
  class AtomTable {
    var atoms: seq<Atom>

    /** `AtomTable::default`. */
    constructor ()
      ensures atoms == [] && Len() == 0
    {
      atoms := [];
    }

    function Len(): (n: nat)
      reads this
      ensures n == |atoms|
    {
      |atoms|
    }

    method Push(atom: Atom)
      modifies this
      ensures Len() == old(Len()) + 1
      ensures atoms == old(atoms) + [atom]
      ensures forall i :: 0 <= i < old(Len()) ==> atoms[i] == old(atoms[i])
    {
      atoms := atoms + [atom];
    }

    /** The atoms in insertion order; reading them changes nothing. */
    function IterAtoms(): (s: seq<Atom>)
      reads this
      ensures |s| == Len() && forall i :: 0 <= i < |s| ==> s[i] == atoms[i]
    {
      atoms
    }
  }
}
