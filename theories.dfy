/** Theories as the engine sees them: abstract records of their capabilities. */
module Theories {
  import opened Core
  import opened Reasons
  import opened Wrapping

  /** An equality between two terms with the reason that justifies it. */
  datatype SharedEq = SharedEq(a: TermId, b: TermId, explain: ReasonId)

  /** What an exporting theory reads of the shared-term oracle. */
  datatype OracleView = OracleView(shared: set<TermId>, epoch: U64)

  /** A registered decision procedure: its name, the endpoint terms it reports
      for an atom's term, whether it has the equality-sharing capability, and
      the equalities it exports for a given oracle state and round epoch. */
  datatype Theory = Theory(
    name: string,
    endpoints: TermId -> seq<TermId>,
    hasSharing: bool,
    exports: (OracleView, U64) -> seq<SharedEq>)
}
