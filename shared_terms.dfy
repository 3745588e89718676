/** The shared-term oracle: which terms are reported as endpoints by atoms of
    two or more theories. */
module SharedTerms {
  import opened Core
  import opened Atoms
  import opened Wrapping
  import opened Theories

  /** A bit position of the `u32` ownership mask. */
  type Bit = b: nat | b < 32

  /** The mask bit of a theory: `1 << min(index, 31)`. */
  function OwnerBit(th: TheoryId): Bit
  {
    if th < 31 then th else 31
  }

  /** Every atom names a registered theory: recompute indexes the theory list
      by the atom's theory. */
  predicate AtomsOwned(atoms: seq<Atom>, theories: seq<Theory>)
  {
    forall i :: 0 <= i < |atoms| ==> atoms[i].theory < |theories|
  }

  /** The endpoint terms the owning theory reports for an atom. */
  function EndpointsOf(theories: seq<Theory>, atom: Atom): seq<TermId>
    requires atom.theory < |theories|
  {
    theories[atom.theory].endpoints(atom.term)
  }

  /** Every term reported as an endpoint of some atom. */
  ghost function Referenced(atoms: seq<Atom>, theories: seq<Theory>): set<TermId>
    requires AtomsOwned(atoms, theories)
  {
    if atoms == [] then {}
    else
      var eps := EndpointsOf(theories, atoms[|atoms| - 1]);
      Referenced(atoms[..|atoms| - 1], theories) + (set t | t in eps)
  }

  /** The OR of the owner bits over the atoms that report `t` as an endpoint,
      as the set of bits it has set. */
  ghost function OwnerMask(atoms: seq<Atom>, theories: seq<Theory>, t: TermId): set<Bit>
    requires AtomsOwned(atoms, theories)
  {
    if atoms == [] then {}
    else
      var last := atoms[|atoms| - 1];
      OwnerMask(atoms[..|atoms| - 1], theories, t)
      + (if t in EndpointsOf(theories, last) then {OwnerBit(last.theory)} else {})
  }

  /** The shared set: referenced terms whose mask has at least two bits set. */
  ghost function SharedSpec(atoms: seq<Atom>, theories: seq<Theory>): set<TermId>
    requires AtomsOwned(atoms, theories)
  {
    set t | t in Referenced(atoms, theories) && |OwnerMask(atoms, theories, t)| >= 2
  }

  lemma {:induction false} ReferencedMembers(atoms: seq<Atom>, theories: seq<Theory>, t: TermId)
    requires AtomsOwned(atoms, theories)
    ensures t in Referenced(atoms, theories)
        <==> exists i :: 0 <= i < |atoms| && t in EndpointsOf(theories, atoms[i])
  {
    if atoms != [] {
      var init := atoms[..|atoms| - 1];
      ReferencedMembers(init, theories, t);
      if t in Referenced(atoms, theories) && t !in Referenced(init, theories) {
        assert t in EndpointsOf(theories, atoms[|atoms| - 1]);
      }
      if exists i :: 0 <= i < |atoms| && t in EndpointsOf(theories, atoms[i]) {
        var i :| 0 <= i < |atoms| && t in EndpointsOf(theories, atoms[i]);
        if i < |atoms| - 1 {
          assert init[i] == atoms[i];
        }
      }
    }
  }

  /** Bit `b` is in the mask of `t` iff some atom of a theory with bit `b`
      reports `t`. */
  lemma {:induction false} OwnerMaskMembers(atoms: seq<Atom>, theories: seq<Theory>, t: TermId, b: Bit)
    requires AtomsOwned(atoms, theories)
    ensures b in OwnerMask(atoms, theories, t)
        <==> exists i :: 0 <= i < |atoms| && t in EndpointsOf(theories, atoms[i]) && OwnerBit(atoms[i].theory) == b
  {
    if atoms != [] {
      var init := atoms[..|atoms| - 1];
      OwnerMaskMembers(init, theories, t, b);
      if exists i :: 0 <= i < |atoms| && t in EndpointsOf(theories, atoms[i]) && OwnerBit(atoms[i].theory) == b {
        var i :| 0 <= i < |atoms| && t in EndpointsOf(theories, atoms[i]) && OwnerBit(atoms[i].theory) == b;
        if i < |atoms| - 1 {
          assert init[i] == atoms[i];
        }
      }
    }
  }

  /** A term no atom reports has an empty mask. */
  lemma {:induction false} UnreferencedMaskEmpty(atoms: seq<Atom>, theories: seq<Theory>, t: TermId)
    requires AtomsOwned(atoms, theories) && t !in Referenced(atoms, theories)
    ensures OwnerMask(atoms, theories, t) == {}
  {
    if atoms != [] {
      UnreferencedMaskEmpty(atoms[..|atoms| - 1], theories, t);
    }
  }

  lemma TwoElements<T>(s: set<T>)
    ensures |s| >= 2 <==> exists x, y :: x in s && y in s && x != y
  {
    if |s| >= 2 {
      var x :| x in s;
      assert |s - {x}| == |s| - 1;
      var y :| y in s - {x};
      assert x in s && y in s && x != y;
    }
    if exists x, y :: x in s && y in s && x != y {
      var x, y :| x in s && y in s && x != y;
      assert {x, y} <= s;
      assert |{x, y}| == 2;
      SubsetCard({x, y}, s);
    }
  }

  lemma SubsetCard<T>(a: set<T>, b: set<T>)
    requires a <= b
    ensures |a| <= |b|
  {
    assert b == a + (b - a);
  }

  /** `t` is shared iff two atoms whose theories have distinct mask bits both
      report it. */
  lemma SharedIffTwoOwnerBits(atoms: seq<Atom>, theories: seq<Theory>, t: TermId)
    requires AtomsOwned(atoms, theories)
    ensures t in SharedSpec(atoms, theories) <==>
      exists i, j :: 0 <= i < |atoms| && 0 <= j < |atoms|
        && t in EndpointsOf(theories, atoms[i]) && t in EndpointsOf(theories, atoms[j])
        && OwnerBit(atoms[i].theory) != OwnerBit(atoms[j].theory)
  {
    if t in SharedSpec(atoms, theories) {
      SharedHasTwoOwnerBits(atoms, theories, t);
    }
    if exists i, j :: 0 <= i < |atoms| && 0 <= j < |atoms|
        && t in EndpointsOf(theories, atoms[i]) && t in EndpointsOf(theories, atoms[j])
        && OwnerBit(atoms[i].theory) != OwnerBit(atoms[j].theory)
    {
      var i, j :| 0 <= i < |atoms| && 0 <= j < |atoms|
        && t in EndpointsOf(theories, atoms[i]) && t in EndpointsOf(theories, atoms[j])
        && OwnerBit(atoms[i].theory) != OwnerBit(atoms[j].theory);
      TwoOwnerBitsShared(atoms, theories, t, i, j);
    }
  }

  lemma SharedHasTwoOwnerBits(atoms: seq<Atom>, theories: seq<Theory>, t: TermId)
    requires AtomsOwned(atoms, theories) && t in SharedSpec(atoms, theories)
    ensures exists i, j :: (0 <= i < |atoms| && 0 <= j < |atoms|
      && t in EndpointsOf(theories, atoms[i]) && t in EndpointsOf(theories, atoms[j])
      && OwnerBit(atoms[i].theory) != OwnerBit(atoms[j].theory))
  {
    var mask := OwnerMask(atoms, theories, t);
    TwoElements(mask);
    var x, y :| x in mask && y in mask && x != y;
    OwnerMaskMembers(atoms, theories, t, x);
    OwnerMaskMembers(atoms, theories, t, y);
    var i :| 0 <= i < |atoms| && t in EndpointsOf(theories, atoms[i]) && OwnerBit(atoms[i].theory) == x;
    var j :| 0 <= j < |atoms| && t in EndpointsOf(theories, atoms[j]) && OwnerBit(atoms[j].theory) == y;
  }

  lemma TwoOwnerBitsShared(atoms: seq<Atom>, theories: seq<Theory>, t: TermId, i: nat, j: nat)
    requires AtomsOwned(atoms, theories) && i < |atoms| && j < |atoms|
    requires t in EndpointsOf(theories, atoms[i]) && t in EndpointsOf(theories, atoms[j])
    requires OwnerBit(atoms[i].theory) != OwnerBit(atoms[j].theory)
    ensures t in SharedSpec(atoms, theories)
  {
    var mask := OwnerMask(atoms, theories, t);
    TwoElements(mask);
    OwnerMaskMembers(atoms, theories, t, OwnerBit(atoms[i].theory));
    OwnerMaskMembers(atoms, theories, t, OwnerBit(atoms[j].theory));
    ReferencedMembers(atoms, theories, t);
  }

  /** A term reported only by atoms whose theories share one mask bit (one
      theory, or several with index 31 or more) is never shared, however
      often it is reported. */
  lemma OneOwnerBitNeverShared(atoms: seq<Atom>, theories: seq<Theory>, t: TermId, b: Bit)
    requires AtomsOwned(atoms, theories)
    requires forall i :: 0 <= i < |atoms| && t in EndpointsOf(theories, atoms[i]) ==> OwnerBit(atoms[i].theory) == b
    ensures t !in SharedSpec(atoms, theories)
  {
    SharedIffTwoOwnerBits(atoms, theories, t);
  }

  /** Theory indices 31 and above all map to bit 31. */
  lemma HighTheoriesShareBit(i: TheoryId, j: TheoryId)
    requires i >= 31 && j >= 31
    ensures OwnerBit(i) == OwnerBit(j) == 31
  {
  }

  /** Two atoms of two theories, reporting endpoints {x, y} and {y, z}:
      exactly the common endpoint `y` is shared. */
  lemma TwoTheoriesShareCommonEndpoint(theories: seq<Theory>, t1: TermId, t2: TermId, x: TermId, y: TermId, z: TermId)
    requires |theories| >= 2
    requires theories[0].endpoints(t1) == [x, y] && theories[1].endpoints(t2) == [y, z]
    requires x != y && y != z && x != z
    ensures AtomsOwned([Atom(t1, 0), Atom(t2, 1)], theories)
    ensures SharedSpec([Atom(t1, 0), Atom(t2, 1)], theories) == {y}
  {
    var atoms := [Atom(t1, 0), Atom(t2, 1)];
    assert EndpointsOf(theories, atoms[0]) == [x, y];
    assert EndpointsOf(theories, atoms[1]) == [y, z];
    forall t
      ensures t in SharedSpec(atoms, theories) <==> t == y
    {
      SharedIffTwoOwnerBits(atoms, theories, t);
      if t == y {
        assert t in EndpointsOf(theories, atoms[0]) && t in EndpointsOf(theories, atoms[1]);
      }
    }
  }

  /** The inner loop of `recompute`: ORs `bit` into the mask of every endpoint. */
  method MarkEndpoints(owners: map<TermId, set<Bit>>, eps: seq<TermId>, bit: Bit)
    returns (marked: map<TermId, set<Bit>>)
    ensures marked.Keys == owners.Keys + (set t | t in eps)
    ensures forall t :: t in marked ==>
      marked[t] == (if t in owners then owners[t] else {}) + (if t in eps then {bit} else {})
  {
    marked := owners;
    for j := 0 to |eps|
      invariant marked.Keys == owners.Keys + (set t | t in eps[..j])
      invariant forall t :: t in marked ==>
        marked[t] == (if t in owners then owners[t] else {}) + (if t in eps[..j] then {bit} else {})
    {
      var t := eps[j];
      assert eps[..j + 1] == eps[..j] + [t];
      marked := marked[t := if t in marked then marked[t] + {bit} else {bit}];
    }
    assert eps[..|eps|] == eps;
  }

  /** The outer loop of `recompute`: the ownership mask of every referenced term. */
  method CollectOwners(all: seq<Atom>, theories: seq<Theory>) returns (owners: map<TermId, set<Bit>>)
    requires AtomsOwned(all, theories)
    ensures owners.Keys == Referenced(all, theories)
    ensures forall t :: t in owners ==> owners[t] == OwnerMask(all, theories, t)
  {
    owners := map[];
    for i := 0 to |all|
      invariant owners.Keys == Referenced(all[..i], theories)
      invariant forall t :: t in owners ==> owners[t] == OwnerMask(all[..i], theories, t)
    {
      var atom := all[i];
      assert all[..i + 1][..i] == all[..i] && all[..i + 1][i] == atom;
      ghost var before := owners;
      owners := MarkEndpoints(owners, theories[atom.theory].endpoints(atom.term), OwnerBit(atom.theory));
      forall t | t in owners
        ensures owners[t] == OwnerMask(all[..i + 1], theories, t)
      {
        if t !in before {
          UnreferencedMaskEmpty(all[..i], theories, t);
        }
      }
    }
    assert all[..|all|] == all;
  }

  /** The final loop of `recompute`: the terms whose mask has two or more bits set. */
  method MultiOwned(owners: map<TermId, set<Bit>>) returns (s: set<TermId>)
    ensures s == set t | t in owners && |owners[t]| >= 2
  {
    s := {};
    var pending := owners.Keys;
    while pending != {}
      invariant pending <= owners.Keys
      invariant s == set t | t in owners && t !in pending && |owners[t]| >= 2
      decreases pending
    {
      var t :| t in pending;
      if |owners[t]| >= 2 {
        s := s + {t};
      }
      pending := pending - {t};
    }
  }

  class SharedTermOracle {
    var shared: set<TermId>
    var epoch: U64

    /** `SharedTermOracle::default`. */
    constructor ()
      ensures shared == {} && epoch == 0
    {
      shared := {};
      epoch := 0;
    }

    function Epoch(): (e: U64)
      reads this
      ensures e == epoch
    {
      epoch
    }

    function SharedSet(): (s: set<TermId>)
      reads this
      ensures s == shared
    {
      shared
    }

    function IsShared(t: TermId): (b: bool)
      reads this
      ensures b <==> t in SharedSet()
    {
      t in shared
    }

    /** The state an exporting theory observes. */
    function View(): OracleView
      reads this
    {
      OracleView(shared, epoch)
    }

    /** Rebuilds the shared set from scratch and bumps the epoch. */
    method Recompute(atoms: AtomTable, theories: seq<Theory>)
      requires AtomsOwned(atoms.atoms, theories)
      modifies this
      ensures shared == SharedSpec(atoms.atoms, theories)
      ensures shared <= Referenced(atoms.atoms, theories)
      ensures epoch == WrappingInc(old(epoch))
    {
      var owners := CollectOwners(atoms.IterAtoms(), theories);
      assert atoms.IterAtoms() == atoms.atoms;

      var s := MultiOwned(owners);
      assert forall t :: t in s <==> t in SharedSpec(atoms.atoms, theories);
      shared := s;
      epoch := WrappingInc(epoch);
    }
  }
}
