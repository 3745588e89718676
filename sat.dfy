/** The literal type of the boolean kernel and the trivial kernel used by the engine. */
module Sat {

  type VarId = nat

  /** A literal: a variable with a sign (`true` = positive). */
  datatype Lit = Lit(v: VarId, sign: bool)
  {
    /** The variable; with the sign it rebuilds the literal. */
    function Var(): (r: VarId)
      ensures Lit(r, sign) == this
    {
      v
    }

    /** Whether the literal is the positive one of its variable. */
    predicate IsPos(): (b: bool)
      ensures b <==> this == Lit(v, true)
      ensures !b <==> this == Lit(v, false)
    {
      sign
    }
  }

  function Pos(v: VarId): (l: Lit)
    ensures l.Var() == v && l.IsPos()
  {
    Lit(v, true)
  }

  function Neg(v: VarId): (l: Lit)
    ensures l.Var() == v && !l.IsPos()
  {
    Lit(v, false)
  }

  /** The positive and negative literal of a variable differ. */
  lemma PosNegDistinct(v: VarId)
    ensures Pos(v) != Neg(v)
  {
  }

  /** Every literal is `Pos` or `Neg` of its own variable. */
  lemma LitIsPosOrNeg(l: Lit)
    ensures l == if l.IsPos() then Pos(l.Var()) else Neg(l.Var())
  {
  }

  /** `Result<(), ()>` of `propagate`. */
  datatype Outcome = Ok | Conflict

  /** The kernel that never propagates and never conflicts. */
  datatype DummySat = DummySat

  function Propagate(k: DummySat): (r: Outcome)
    ensures r.Ok?
  {
    Ok
  }
}
