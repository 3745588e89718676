/** The reason arena: an append-only store of justifications, where a leaf
    is a literal and an inner node is the conjunction of earlier nodes. */
module Reasons {
  import opened Sat

  type ReasonId = nat

  datatype Reason = Atom(lit: Lit) | And(kids: seq<ReasonId>)

  /** The children of a node (none for a leaf). */
  function Kids(r: Reason): seq<ReasonId>
  {
    if r.And? then r.kids else []
  }

  /** Every child of `r` has an id below `id`. */
  predicate ChildrenBefore(r: Reason, id: nat)
  {
    Below(Kids(r), id)
  }

  /** Every node's children were created before it, so the arena is acyclic. */
  predicate WellFormed(rs: seq<Reason>)
  {
    forall i :: 0 <= i < |rs| ==> ChildrenBefore(rs[i], i)
  }

  predicate Below(ids: seq<ReasonId>, bound: nat)
  {
    forall i :: 0 <= i < |ids| ==> ids[i] < bound
  }

  /** The literals produced by draining the stack `ids` (top of stack last),
      where each popped And pushes its children. `bound` only serves
      termination: every id on the stack lies below it. */
  ghost function LitsOf(rs: seq<Reason>, ids: seq<ReasonId>, bound: nat): seq<Lit>
    requires WellFormed(rs) && bound <= |rs| && Below(ids, bound)
    decreases bound, |ids|, 1
  {
    if ids == [] then []
    else PoppedLits(rs, ids[|ids| - 1]) + LitsOf(rs, ids[..|ids| - 1], bound)
  }

  /** The literals produced once node `top` has been popped. */
  ghost function PoppedLits(rs: seq<Reason>, top: ReasonId): seq<Lit>
    requires WellFormed(rs) && top < |rs|
    decreases top + 1, 0, 0
  {
    match rs[top]
    case Atom(l) => [l]
    case And(kids) => assert ChildrenBefore(rs[top], top); LitsOf(rs, kids, top)
  }

  /** The number of nodes popped while draining the stack `ids`. */
  ghost function NodeCount(rs: seq<Reason>, ids: seq<ReasonId>, bound: nat): nat
    requires WellFormed(rs) && bound <= |rs| && Below(ids, bound)
    decreases bound, |ids|, 1
  {
    if ids == [] then 0
    else PoppedCount(rs, ids[|ids| - 1]) + NodeCount(rs, ids[..|ids| - 1], bound)
  }

  /** The number of nodes popped from `top` (itself included) onwards. */
  ghost function PoppedCount(rs: seq<Reason>, top: ReasonId): nat
    requires WellFormed(rs) && top < |rs|
    decreases top + 1, 0, 0
  {
    match rs[top]
    case Atom(_) => 1
    case And(kids) => assert ChildrenBefore(rs[top], top); 1 + NodeCount(rs, kids, top)
  }

  /** What `expand_lits(root)` returns. */
  ghost function Expansion(rs: seq<Reason>, root: ReasonId): seq<Lit>
    requires WellFormed(rs) && root < |rs|
  {
    LitsOf(rs, [root], |rs|)
  }

  lemma {:induction false} LitsOfBound(rs: seq<Reason>, ids: seq<ReasonId>, b1: nat, b2: nat)
    requires WellFormed(rs) && b1 <= |rs| && b2 <= |rs| && Below(ids, b1) && Below(ids, b2)
    ensures LitsOf(rs, ids, b1) == LitsOf(rs, ids, b2)
    decreases |ids|
  {
    if ids != [] {
      LitsOfBound(rs, ids[..|ids| - 1], b1, b2);
    }
  }

  lemma {:induction false} NodeCountBound(rs: seq<Reason>, ids: seq<ReasonId>, b1: nat, b2: nat)
    requires WellFormed(rs) && b1 <= |rs| && b2 <= |rs| && Below(ids, b1) && Below(ids, b2)
    ensures NodeCount(rs, ids, b1) == NodeCount(rs, ids, b2)
    decreases |ids|
  {
    if ids != [] {
      NodeCountBound(rs, ids[..|ids| - 1], b1, b2);
    }
  }

  /** Draining `a + b` drains `b` (the top part) first. */
  lemma {:induction false} LitsOfAppend(rs: seq<Reason>, a: seq<ReasonId>, b: seq<ReasonId>, bound: nat)
    requires WellFormed(rs) && bound <= |rs| && Below(a, bound) && Below(b, bound)
    ensures Below(a + b, bound)
    ensures LitsOf(rs, a + b, bound) == LitsOf(rs, b, bound) + LitsOf(rs, a, bound)
    decreases |b|
  {
    if b == [] {
      assert a + b == a;
    } else {
      var br := b[..|b| - 1];
      assert (a + b)[..|a + b| - 1] == a + br && (a + b)[|a + b| - 1] == b[|b| - 1];
      LitsOfAppend(rs, a, br, bound);
    }
  }

  lemma {:induction false} NodeCountAppend(rs: seq<Reason>, a: seq<ReasonId>, b: seq<ReasonId>, bound: nat)
    requires WellFormed(rs) && bound <= |rs| && Below(a, bound) && Below(b, bound)
    ensures Below(a + b, bound)
    ensures NodeCount(rs, a + b, bound) == NodeCount(rs, a, bound) + NodeCount(rs, b, bound)
    decreases |b|
  {
    if b == [] {
      assert a + b == a;
    } else {
      var ab := a + b;
      assert ab[..|ab| - 1] == a + b[..|b| - 1];
      assert ab[|ab| - 1] == b[|b| - 1];
      NodeCountAppend(rs, a, b[..|b| - 1], bound);
    }
  }

  /** A leaf expands to its literal. */
  lemma ExpansionAtom(rs: seq<Reason>, id: ReasonId)
    requires WellFormed(rs) && id < |rs| && rs[id].Atom?
    ensures Expansion(rs, id) == [rs[id].lit]
  {
    assert [id][..0] == [] && [id][0] == id;
    assert Expansion(rs, id) == PoppedLits(rs, id) + LitsOf(rs, [], |rs|);
  }

  /** An And node expands to the drain of its children: the last child first. */
  lemma ExpansionAnd(rs: seq<Reason>, id: ReasonId)
    requires WellFormed(rs) && id < |rs| && rs[id].And?
    ensures Below(rs[id].kids, |rs|)
    ensures Expansion(rs, id) == LitsOf(rs, rs[id].kids, |rs|)
  {
    assert ChildrenBefore(rs[id], id);
    assert [id][..0] == [] && [id][0] == id;
    assert Expansion(rs, id) == PoppedLits(rs, id) + LitsOf(rs, [], |rs|);
    LitsOfBound(rs, rs[id].kids, id, |rs|);
  }

  /** The sum, over a list of handles, of the multisets of their expansions. */
  ghost function ExpansionSum(rs: seq<Reason>, ids: seq<ReasonId>): multiset<Lit>
    requires WellFormed(rs) && Below(ids, |rs|)
  {
    if ids == [] then multiset{} else multiset(Expansion(rs, ids[0])) + ExpansionSum(rs, ids[1..])
  }

  lemma {:induction false} LitsOfMultiset(rs: seq<Reason>, ids: seq<ReasonId>)
    requires WellFormed(rs) && Below(ids, |rs|)
    ensures multiset(LitsOf(rs, ids, |rs|)) == ExpansionSum(rs, ids)
    decreases |ids|
  {
    if ids != [] {
      assert ids == [ids[0]] + ids[1..];
      LitsOfAppend(rs, [ids[0]], ids[1..], |rs|);
      LitsOfMultiset(rs, ids[1..]);
    }
  }

  /** `expand_lits(And(kids))` is, as a multiset, the sum of the expansions of
      the kids, duplicates included; in particular `And([])` expands to nothing. */
  lemma AndExpansionMultiset(rs: seq<Reason>, id: ReasonId)
    requires WellFormed(rs) && id < |rs| && rs[id].And?
    ensures Below(rs[id].kids, |rs|)
    ensures multiset(Expansion(rs, id)) == ExpansionSum(rs, rs[id].kids)
    ensures rs[id].kids == [] ==> Expansion(rs, id) == []
  {
    ExpansionAnd(rs, id);
    LitsOfMultiset(rs, rs[id].kids);
  }

  /** Appending nodes leaves the drain of existing handles unchanged. */
  lemma {:induction false} LitsOfExtend(rs: seq<Reason>, ext: seq<Reason>, ids: seq<ReasonId>, bound: nat)
    requires WellFormed(rs) && WellFormed(rs + ext) && bound <= |rs| && Below(ids, bound)
    ensures LitsOf(rs + ext, ids, bound) == LitsOf(rs, ids, bound)
    decreases bound, |ids|
  {
    if ids != [] {
      var top := ids[|ids| - 1];
      assert (rs + ext)[top] == rs[top];
      if rs[top].And? {
        assert ChildrenBefore(rs[top], top);
        LitsOfExtend(rs, ext, rs[top].kids, top);
      }
      LitsOfExtend(rs, ext, ids[..|ids| - 1], bound);
    }
  }

  /** The expansion of an existing handle is stable under growth of the arena. */
  lemma ExpansionExtend(rs: seq<Reason>, ext: seq<Reason>, id: ReasonId)
    requires WellFormed(rs) && WellFormed(rs + ext) && id < |rs|
    ensures Expansion(rs + ext, id) == Expansion(rs, id)
  {
    LitsOfBound(rs + ext, [id], |rs + ext|, |rs|);
    LitsOfExtend(rs, ext, [id], |rs|);
  }

  /** Appending a node whose children are older keeps the arena well formed. */
  lemma PushWellFormed(rs: seq<Reason>, r: Reason)
    requires WellFormed(rs) && ChildrenBefore(r, |rs|)
    ensures WellFormed(rs + [r])
  {
    forall i | 0 <= i < |rs| + 1
      ensures ChildrenBefore((rs + [r])[i], i)
    {
      if i < |rs| { assert (rs + [r])[i] == rs[i]; }
    }
  }

  class ReasonArena {
    var reasons: seq<Reason>

    /** The acyclicity invariant that `push` itself does not check. */
    ghost predicate Valid()
      reads this
    {
      WellFormed(reasons)
    }

    /** `ReasonArena::default`. */
    constructor ()
      ensures Valid() && reasons == []
    {
      reasons := [];
    }

    function Len(): nat
      reads this
    {
      |reasons|
    }

    /** The node stored under `rid`; out of range is a contract violation. */
    function Get(rid: ReasonId): (r: Reason)
      reads this
      requires rid < |reasons|
      ensures r == reasons[rid]
      ensures Valid() ==> ChildrenBefore(r, rid)
    {
      reasons[rid]
    }

    method Push(r: Reason) returns (id: ReasonId)
      requires Valid() && ChildrenBefore(r, |reasons|)
      modifies this
      ensures Valid()
      ensures id == old(|reasons|) && reasons == old(reasons) + [r]
      ensures Get(id) == r
      ensures forall i :: 0 <= i < old(|reasons|) ==> Get(i) == old(Get(i))
    {
      PushWellFormed(reasons, r);
      id := |reasons|;
      reasons := reasons + [r];
    }

    /** Flattens the DAG under `root` with an explicit stack. */
    method ExpandLits(root: ReasonId) returns (out: seq<Lit>)
      requires Valid() && root < |reasons|
      ensures out == Expansion(reasons, root)
    {
      out := [];
      var stack := [root];
      while stack != []
        invariant Below(stack, |reasons|)
        invariant out + LitsOf(reasons, stack, |reasons|) == Expansion(reasons, root)
        decreases NodeCount(reasons, stack, |reasons|)
      {
        var r := stack[|stack| - 1];
        var rest := stack[..|stack| - 1];
        assert Below(rest, |reasons|);
        ghost var before := NodeCount(reasons, stack, |reasons|);
        assert before == PoppedCount(reasons, r) + NodeCount(reasons, rest, |reasons|);
        stack := rest;
        match Get(r) {
          case Atom(l) =>
            out := out + [l];
          case And(kids) =>
            assert ChildrenBefore(reasons[r], r);
            LitsOfBound(reasons, kids, r, |reasons|);
            NodeCountBound(reasons, kids, r, |reasons|);
            LitsOfAppend(reasons, rest, kids, |reasons|);
            NodeCountAppend(reasons, rest, kids, |reasons|);
            stack := rest + kids;
        }
        assert NodeCount(reasons, stack, |reasons|) < before;
      }
    }
  }
}
