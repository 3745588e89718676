/** The term/sort store: `Context`, term and sort identifiers and term construction. */
module Core {

  type TermId = nat
  type SortId = nat

  newtype I64 = x: int | -0x8000_0000_0000_0000 <= x < 0x8000_0000_0000_0000

  datatype SortKind = Int | Uninterpreted(name: string)

  datatype OpKind = Uf(name: string)

  datatype Op = Op(kind: OpKind)

  datatype TermKind =
    | App(op: Op, args: seq<TermId>)
    | IntConst(value: I64)
    | Const(name: string)
    | Eq(lhs: TermId, rhs: TermId)
    | Le(lhs: TermId, rhs: TermId)
    | Not(arg: TermId)

  datatype TermNode = TermNode(kind: TermKind, sort: SortId)

  /** An append-only store of sorts and terms. Terms are not hash-consed;
      sorts are, through `sortCache`. */
  class Context {
    var sorts: seq<SortKind>
    var terms: seq<TermNode>
    var sortCache: map<SortKind, SortId>

    /** Int sits at sort 0 and the cache is exactly the inverse of `sorts`. */
    ghost predicate Valid()
      reads this
    {
      && |sorts| >= 1 && sorts[0] == Int
      && (forall k :: k in sortCache ==> sortCache[k] < |sorts| && sorts[sortCache[k]] == k)
      && (forall i :: 0 <= i < |sorts| ==> sorts[i] in sortCache && sortCache[sorts[i]] == i)
    }

    /** `Context::new`: only the Int sort, no terms. */
    constructor ()
      ensures Valid()
      ensures sorts == [Int] && terms == [] && sortCache == map[Int := 0]
    {
      sorts := [Int];
      terms := [];
      sortCache := map[Int := 0];
    }

    /** The built-in Int sort. */
    function IntSort(): (s: SortId)
      reads this
      ensures Valid() ==> s < |sorts| && sorts[s] == Int
    {
      0
    }

    method DeclareUninterpretedSort(name: string) returns (sid: SortId)
      requires Valid()
      modifies this
      ensures Valid() && terms == old(terms)
      ensures sid < |sorts| && sorts[sid] == Uninterpreted(name)
      ensures old(Uninterpreted(name) in sortCache) ==>
                sid == old(sortCache[Uninterpreted(name)]) && sorts == old(sorts) && sortCache == old(sortCache)
      ensures old(Uninterpreted(name) !in sortCache) ==>
                && sid == old(|sorts|)
                && sorts == old(sorts) + [Uninterpreted(name)]
                && sortCache == old(sortCache)[Uninterpreted(name) := sid]
    {
      var k := Uninterpreted(name);
      if k in sortCache {
        return sortCache[k];
      }
      sid := |sorts|;
      sorts := sorts + [k];
      sortCache := sortCache[k := sid];
    }

    /** The kind and sort of a stored term. */
    function TermNodeOf(t: TermId): (r: (TermKind, SortId))
      reads this
      requires t < |terms|
      ensures r.0 == terms[t].kind && r.1 == terms[t].sort
    {
      (terms[t].kind, terms[t].sort)
    }

    method Intern(kind: TermKind, sort: SortId) returns (t: TermId)
      requires Valid()
      modifies this
      ensures Valid() && sorts == old(sorts) && sortCache == old(sortCache)
      ensures t == old(|terms|) && terms == old(terms) + [TermNode(kind, sort)]
      ensures TermNodeOf(t) == (kind, sort)
    {
      t := |terms|;
      terms := terms + [TermNode(kind, sort)];
    }

    method IntConst(v: I64) returns (t: TermId)
      requires Valid()
      modifies this
      ensures Valid() && sorts == old(sorts) && sortCache == old(sortCache)
      ensures t == old(|terms|) && terms == old(terms) + [TermNode(TermKind.IntConst(v), IntSort())]
      ensures sorts[TermNodeOf(t).1] == Int
    {
      t := Intern(TermKind.IntConst(v), IntSort());
    }

    method ConstTerm(name: string, sort: SortId) returns (t: TermId)
      requires Valid()
      modifies this
      ensures Valid() && sorts == old(sorts) && sortCache == old(sortCache)
      ensures t == old(|terms|) && terms == old(terms) + [TermNode(Const(name), sort)]
    {
      t := Intern(Const(name), sort);
    }

    method UfApp(name: string, args: seq<TermId>, outSort: SortId) returns (t: TermId)
      requires Valid()
      modifies this
      ensures Valid() && sorts == old(sorts) && sortCache == old(sortCache)
      ensures t == old(|terms|) && terms == old(terms) + [TermNode(App(Op(Uf(name)), args), outSort)]
    {
      t := Intern(App(Op(Uf(name)), args), outSort);
    }

    method MkEq(a: TermId, b: TermId) returns (t: TermId)
      requires Valid()
      modifies this
      ensures Valid() && sorts == old(sorts) && sortCache == old(sortCache)
      ensures t == old(|terms|) && terms == old(terms) + [TermNode(Eq(a, b), IntSort())]
      ensures sorts[TermNodeOf(t).1] == Int
    {
      t := Intern(Eq(a, b), IntSort());
    }

    method MkLe(a: TermId, b: TermId) returns (t: TermId)
      requires Valid()
      modifies this
      ensures Valid() && sorts == old(sorts) && sortCache == old(sortCache)
      ensures t == old(|terms|) && terms == old(terms) + [TermNode(Le(a, b), IntSort())]
      ensures sorts[TermNodeOf(t).1] == Int
    {
      t := Intern(Le(a, b), IntSort());
    }

    method MkNot(a: TermId) returns (t: TermId)
      requires Valid()
      modifies this
      ensures Valid() && sorts == old(sorts) && sortCache == old(sortCache)
      ensures t == old(|terms|) && terms == old(terms) + [TermNode(Not(a), IntSort())]
      ensures sorts[TermNodeOf(t).1] == Int
    {
      t := Intern(Not(a), IntSort());
    }
  }

  /** Interning the same kind twice yields two distinct ids for equal nodes:
      the store does no hash-consing. */
  method InternTwice(ctx: Context, kind: TermKind, sort: SortId) returns (t1: TermId, t2: TermId)
    requires ctx.Valid()
    modifies ctx
    ensures ctx.Valid()
    ensures t1 != t2 && t1 < |ctx.terms| && t2 < |ctx.terms|
    ensures ctx.TermNodeOf(t1) == ctx.TermNodeOf(t2) == (kind, sort)
  {
    t1 := ctx.Intern(kind, sort);
    t2 := ctx.Intern(kind, sort);
  }

  /** Declaring the same uninterpreted sort twice yields one id and one entry. */
  method DeclareTwice(ctx: Context, name: string) returns (s1: SortId, s2: SortId)
    requires ctx.Valid()
    modifies ctx
    ensures ctx.Valid()
    ensures s1 == s2 && s1 < |ctx.sorts| && ctx.sorts[s1] == Uninterpreted(name)
    ensures |ctx.sorts| <= old(|ctx.sorts|) + 1
    ensures ctx.terms == old(ctx.terms)
  {
    s1 := ctx.DeclareUninterpretedSort(name);
    s2 := ctx.DeclareUninterpretedSort(name);
  }
}
