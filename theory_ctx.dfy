/** The reason-composition handle that theories receive during a round. */
module TheoryContext {
  import opened Sat
  import opened Reasons

  class TheoryCtx {
    const arena: ReasonArena

    constructor (arena: ReasonArena)
      ensures this.arena == arena
    {
      this.arena := arena;
    }

    /** A conjunction of reasons; a single reason is returned as it is. */
    method RAnd(kids: seq<ReasonId>) returns (id: ReasonId)
      requires arena.Valid()
      requires |kids| != 1 ==> Below(kids, |arena.reasons|)
      modifies arena
      ensures arena.Valid()
      ensures |kids| == 1 ==> id == kids[0] && arena.reasons == old(arena.reasons)
      ensures |kids| != 1 ==> id == old(|arena.reasons|) && arena.reasons == old(arena.reasons) + [And(kids)]
    {
      if |kids| == 1 {
        return kids[0];
      }
      id := arena.Push(And(kids));
    }
  }

  /** `r_and([])` creates a node whose expansion is empty. */
  lemma EmptyAndExpandsToNothing(rs: seq<Reason>)
    requires WellFormed(rs)
    ensures WellFormed(rs + [And([])])
    ensures Expansion(rs + [And([])], |rs|) == []
  {
    PushWellFormed(rs, And([]));
    AndExpansionMultiset(rs + [And([])], |rs|);
  }

  /** `expand_lits(r_and([h1, h2]))` is `expand_lits(h2) ++ expand_lits(h1)`,
      so as a multiset it is the sum of the two expansions, duplicates kept. */
  lemma PairAndExpansion(rs: seq<Reason>, h1: ReasonId, h2: ReasonId)
    requires WellFormed(rs) && h1 < |rs| && h2 < |rs|
    ensures WellFormed(rs + [And([h1, h2])])
    ensures Expansion(rs + [And([h1, h2])], |rs|) == Expansion(rs, h2) + Expansion(rs, h1)
    ensures multiset(Expansion(rs + [And([h1, h2])], |rs|))
         == multiset(Expansion(rs, h1)) + multiset(Expansion(rs, h2))
  {
    var rs' := rs + [And([h1, h2])];
    PushWellFormed(rs, And([h1, h2]));
    ExpansionAnd(rs', |rs|);
    assert [h1, h2] == [h1] + [h2];
    LitsOfAppend(rs', [h1], [h2], |rs'|);
    ExpansionExtend(rs, [And([h1, h2])], h1);
    ExpansionExtend(rs, [And([h1, h2])], h2);
  }

  /** Only the multiset law holds: the literals of a conjunction come out
      last child first, not in child order. */
  lemma ExpansionIsNotChildOrder(a: Lit, b: Lit)
    requires a != b
    ensures var rs := [Atom(a), Atom(b), And([0, 1])];
            && WellFormed(rs)
            && Expansion(rs, 2) == [b, a]
            && Expansion(rs, 0) + Expansion(rs, 1) == [a, b]
            && Expansion(rs, 2) != Expansion(rs, 0) + Expansion(rs, 1)
  {
    var base := [Atom(a), Atom(b)];
    var rs := base + [And([0, 1])];
    assert rs == [Atom(a), Atom(b), And([0, 1])];
    PushWellFormed([Atom(a)], Atom(b));
    assert [Atom(a)] + [Atom(b)] == base;
    PairAndExpansion(base, 0, 1);
    ExpansionAtom(base, 0);
    ExpansionAtom(base, 1);
    ExpansionAtom(rs, 0);
    ExpansionAtom(rs, 1);
    assert [b, a] != [a, b] by {
      assert [b, a][0] != [a, b][0];
    }
  }
}
