/** The SMT engine scaffold: the registered theories, the atom table, the
    reason arena, the shared-term oracle and the equality-sharing round
    that exchanges equalities between theories, with its trace and its
    deduplicated diagnostics. */
module Engine {
  import opened Core
  import opened Iter
  import opened Atoms
  import opened Sat
  import opened Reasons
  import opened Wrapping
  import opened Config
  import opened Theories
  import opened Trace
  import opened SharedTerms
  import opened SharingRound
  import ReasonDot
  import EqShareDot

  datatype CheckSat = Sat | Unsat | Unknown

  /** The configuration `new` installs: the defaults, with diagnostics on
      and 16 literals per reason when the debug toggle is set. */
  function InitialConfig(debugToggle: bool): (c: EngineConfig)
    ensures c.sharing == DefaultSharingConfig()
    ensures c.debugEq.enabled == debugToggle
    ensures c.debugEq.maxReasonLits == if debugToggle then 16 else 8
    ensures c.debugEq.logImports && c.debugEq.logExports && c.debugEq.logSharedStats
  {
    var d := DefaultEngineConfig();
    if debugToggle then d.(debugEq := d.debugEq.(enabled := true, maxReasonLits := 16)) else d
  }

  class SmtEngine {
    const ctx: Context
    const sat: DummySat
    const theories: seq<Theory>
    var ufId: TheoryId
    var dlId: TheoryId
    const atoms: AtomTable
    const reasons: ReasonArena
    const sharedTerms: SharedTermOracle
    var exportEpoch: U64
    var config: EngineConfig
    const eqshareTrace: EqShareTrace
    var eqLogSeen: set<EdgeKey>
    var lastAtomCount: nat
    /** `imports[j]`: the equalities theory `j` has been handed, in order. */
    var imports: seq<seq<SharedEq>>
    /** The lines written to the error stream, as values. */
    var diagnostics: seq<Diagnostic>
    /** Every export and import call made on a theory, in order. */
    ghost var calls: seq<Call>

    ghost predicate Valid()
      reads this`imports, reasons
    {
      reasons.Valid() && |imports| == |theories|
    }

    /** `SmtEngine::new`. */
    constructor (ctx: Context, sat: DummySat, theories: seq<Theory>, debugToggle: bool)
      ensures Valid()
      ensures this.ctx == ctx && this.sat == sat && this.theories == theories
      ensures ufId == 0 && dlId == 1
      ensures fresh(atoms) && atoms.atoms == []
      ensures fresh(reasons) && reasons.reasons == []
      ensures fresh(sharedTerms) && sharedTerms.shared == {} && sharedTerms.epoch == 0
      ensures fresh(eqshareTrace) && eqshareTrace.events == []
      ensures exportEpoch == 0 && config == InitialConfig(debugToggle)
      ensures eqLogSeen == {} && lastAtomCount == 0
      ensures |imports| == |theories| && forall j :: 0 <= j < |imports| ==> imports[j] == []
      ensures diagnostics == [] && calls == []
    {
      this.ctx := ctx;
      this.sat := sat;
      ufId := 0;
      dlId := 1;
      this.theories := theories;
      atoms := new AtomTable();
      reasons := new ReasonArena();
      sharedTerms := new SharedTermOracle();
      exportEpoch := 0;
      var c := DefaultEngineConfig();
      eqshareTrace := new EqShareTrace();
      eqLogSeen := {};
      lastAtomCount := 0;
      imports := seq(|theories|, _ => []);
      diagnostics := [];
      calls := [];
      if debugToggle {
        c := c.(debugEq := c.debugEq.(enabled := true, maxReasonLits := 16));
      }
      config := c;
    }

    function RoundPolicy(): Policy
      reads this`config, this`ufId, this`dlId
    {
      Policy(config.sharing, ufId, dlId)
    }

    /** The oracle state the next round's exporters will see. */
    ghost function NextView(): OracleView
      reads this`lastAtomCount, atoms, sharedTerms
      requires |atoms.atoms| != lastAtomCount ==> AtomsOwned(atoms.atoms, theories)
    {
      if |atoms.atoms| != lastAtomCount
      then OracleView(SharedSpec(atoms.atoms, theories), WrappingInc(sharedTerms.epoch))
      else sharedTerms.View()
    }

    /** The deliveries the next round makes. */
    ghost function RoundDeliveries(): seq<Delivery>
      reads this`config, this`ufId, this`dlId, this`lastAtomCount, this`exportEpoch, atoms, sharedTerms
      requires |atoms.atoms| != lastAtomCount ==> AtomsOwned(atoms.atoms, theories)
    {
      Deliveries(RoundPolicy(), |theories|, Exported(theories, NextView(), exportEpoch, |theories|))
    }

    /** What the next round needs: every atom's theory is registered (when
        the shared set is recomputed), and every reason the round logs
        names an arena entry (when it logs). */
    ghost predicate RoundReady()
      reads this`config, this`ufId, this`dlId, this`lastAtomCount, this`exportEpoch, this`eqLogSeen, atoms, sharedTerms, reasons
    {
      && (|atoms.atoms| != lastAtomCount ==> AtomsOwned(atoms.atoms, theories))
      && (LogOn(config.debugEq) ==>
            ExplainsBelow(Logged(RoundDeliveries(), eqLogSeen, exportEpoch), |reasons.reasons|))
    }

    /** The effect of one equality-sharing round, stated on the state before it. */
    twostate predicate RoundEffect()
      reads this`lastAtomCount, this`exportEpoch, this`imports, this`calls, this`eqLogSeen, this`diagnostics
      reads atoms, sharedTerms, eqshareTrace
      requires old(Valid()) && old(RoundReady())
    {
      var epoch := old(exportEpoch);
      var view := old(NextView());
      var ds := old(RoundDeliveries());
      var dbg := old(config.debugEq);
      var stats := StatsLines(dbg, epoch, view.shared);
      && sharedTerms.View() == view
      && lastAtomCount == |atoms.atoms|
      && exportEpoch == WrappingInc(epoch)
      && eqshareTrace.events == old(eqshareTrace.events) + EventsOf(ds, epoch)
      && ImportState(theories, ds, old(imports), old(calls) + ExportCalls(theories, view, epoch, |theories|),
                     view, imports, calls)
      && LogState(dbg, epoch, old(reasons.reasons), ds, old(eqLogSeen), old(diagnostics) + stats,
                  eqLogSeen, diagnostics)
    }

    /** `maybe_recompute_shared_terms`: rebuild the shared set only when the
        atom table grew since the last time. */
    method MaybeRecomputeSharedTerms()
      requires |atoms.atoms| != lastAtomCount ==> AtomsOwned(atoms.atoms, theories)
      modifies this`lastAtomCount, sharedTerms
      ensures lastAtomCount == |atoms.atoms|
      ensures sharedTerms.View() == old(NextView())
      ensures sharedTerms.epoch != old(sharedTerms.epoch) <==> old(|atoms.atoms| != lastAtomCount)
    {
      var n := atoms.Len();
      if n != lastAtomCount {
        sharedTerms.Recompute(atoms, theories);
        lastAtomCount := n;
      }
    }

    /** The export phase: every theory with the sharing capability, in
        registration order, exports against the same oracle state. */
    method ExportPhase() returns (xs: seq<Tagged>)
      modifies this`calls
      ensures xs == Exported(theories, sharedTerms.View(), exportEpoch, |theories|)
      ensures calls == old(calls) + ExportCalls(theories, sharedTerms.View(), exportEpoch, |theories|)
    {
      var view := sharedTerms.View();
      xs := [];
      var i := 0;
      while i < |theories|
        invariant i <= |theories|
        invariant xs == Exported(theories, view, exportEpoch, i)
        invariant calls == old(calls) + ExportCalls(theories, view, exportEpoch, i)
      {
        var th := theories[i];
        if th.hasSharing {
          var eqs := th.exports(view, exportEpoch);
          calls := calls + [ExportCall(i, view, exportEpoch)];
          ghost var xs0 := xs;
          var k := 0;
          while k < |eqs|
            invariant k <= |eqs|
            invariant xs == xs0 + TagAll(i, eqs[..k])
            invariant calls == old(calls) + ExportCalls(theories, view, exportEpoch, i + 1)
          {
            assert eqs[..k + 1][..k] == eqs[..k];
            xs := xs + [Tagged(i, eqs[k])];
            k := k + 1;
          }
          assert eqs[..k] == eqs;
        }
        i := i + 1;
      }
    }

    /** The trace holds one event per delivery made so far. */
    ghost predicate TraceAccount(done: seq<Delivery>, t0: seq<EqShareEvent>)
      reads this`exportEpoch, eqshareTrace
    {
      eqshareTrace.events == t0 + EventsOf(done, exportEpoch)
    }

    /** Each importer has been handed the deliveries addressed to it. */
    ghost predicate ImportAccount(done: seq<Delivery>, i0: seq<seq<SharedEq>>, c0: seq<Call>, view: OracleView)
      reads this`imports, this`calls
    {
      ImportState(theories, done, i0, c0, view, imports, calls)
    }

    /** The first delivery of each key has been logged, when logging is on. */
    ghost predicate LogAccount(done: seq<Delivery>, s0: set<EdgeKey>, d0: seq<Diagnostic>)
      reads this`config, this`eqLogSeen, this`exportEpoch, this`diagnostics, reasons
    {
      LogState(config.debugEq, exportEpoch, reasons.reasons, done, s0, d0, eqLogSeen, diagnostics)
    }

    /** The round's account after the deliveries `done`, against the state
        `t0`, `i0`, `s0`, `d0`, `c0` the broadcast started from. */
    ghost predicate Broadcasted(done: seq<Delivery>, t0: seq<EqShareEvent>, i0: seq<seq<SharedEq>>,
                                s0: set<EdgeKey>, d0: seq<Diagnostic>, c0: seq<Call>, view: OracleView)
      reads this`imports, this`calls, this`config, this`eqLogSeen, this`exportEpoch, this`diagnostics
      reads reasons, eqshareTrace
    {
      && Valid()
      && TraceAccount(done, t0)
      && ImportAccount(done, i0, c0, view)
      && LogAccount(done, s0, d0)
    }

    /** The diagnostic line of a delivery, its reason expanded and cut to
        `maxLits` literals. */
    method EqLineFor(d: Delivery, maxLits: nat) returns (line: Diagnostic)
      requires reasons.Valid() && d.eq.explain < |reasons.reasons|
      ensures line == EqLineOf(reasons.reasons, d, exportEpoch, maxLits)
    {
      var lits := reasons.ExpandLits(d.eq.explain);
      line := EqLine(exportEpoch, d.src, d.dst, d.eq.a, d.eq.b, Take(lits, maxLits), |lits| > maxLits);
    }

    /** Logs a delivery the first time its key is met. */
    method LogDelivery(d: Delivery, ghost done: seq<Delivery>, ghost s0: set<EdgeKey>, ghost d0: seq<Diagnostic>)
      requires reasons.Valid() && LogAccount(done, s0, d0)
      requires LogOn(config.debugEq) ==> ExplainsBelow(Logged(done + [d], s0, exportEpoch), |reasons.reasons|)
      modifies this`eqLogSeen, this`diagnostics
      ensures LogAccount(done + [d], s0, d0)
    {
      var dbg := config.debugEq;
      if dbg.enabled && (dbg.logExports || dbg.logImports) {
        var key := KeyOf(d.src, d.dst, d.eq.a, d.eq.b, exportEpoch);
        if key !in eqLogSeen {
          LogStateFresh(dbg, exportEpoch, reasons.reasons, done, d, s0, d0, eqLogSeen, diagnostics);
          var line := EqLineFor(d, dbg.maxReasonLits);
          diagnostics := diagnostics + [line];
        } else {
          LogStateRepeat(dbg, exportEpoch, reasons.reasons, done, d, s0, d0, eqLogSeen, diagnostics);
        }
        eqLogSeen := eqLogSeen + {key};
      } else {
        LogStateRepeat(dbg, exportEpoch, reasons.reasons, done, d, s0, d0, eqLogSeen, diagnostics);
      }
    }

    /** Hands a delivery to its importer, if the importer has the capability. */
    method ImportDelivery(d: Delivery, ghost done: seq<Delivery>, ghost i0: seq<seq<SharedEq>>, ghost c0: seq<Call>,
                          ghost view: OracleView)
      requires ImportAccount(done, i0, c0, view) && d.dst < |theories| && view == sharedTerms.View()
      modifies this`imports, this`calls
      ensures ImportAccount(done + [d], i0, c0, view)
    {
      ImportStateStep(theories, done, d, i0, c0, view, imports, calls);
      if theories[d.dst].hasSharing {
        imports := imports[d.dst := imports[d.dst] + [d.eq]];
        calls := calls + [ImportCall(d.dst, sharedTerms.View(), d.eq)];
      }
    }

    /** One delivery: record the trace event, log it the first time its key
        is met, and hand it to the importer. */
    method Deliver(d: Delivery, ghost done: seq<Delivery>, ghost next: seq<Delivery>, ghost t0: seq<EqShareEvent>,
                   ghost i0: seq<seq<SharedEq>>, ghost s0: set<EdgeKey>, ghost d0: seq<Diagnostic>, ghost c0: seq<Call>,
                   ghost view: OracleView)
      requires Broadcasted(done, t0, i0, s0, d0, c0, view) && view == sharedTerms.View()
      requires d.dst < |theories| && next == done + [d]
      requires LogOn(config.debugEq) ==> ExplainsBelow(Logged(next, s0, exportEpoch), |reasons.reasons|)
      modifies this`eqLogSeen, this`diagnostics, this`imports, this`calls, eqshareTrace
      ensures Broadcasted(next, t0, i0, s0, d0, c0, view)
    {
      RecordEvent(d, done, t0);
      LogDelivery(d, done, s0, d0);
      ImportDelivery(d, done, i0, c0, view);
    }

    /** Pushes the trace event of a delivery. */
    method RecordEvent(d: Delivery, ghost done: seq<Delivery>, ghost t0: seq<EqShareEvent>)
      requires TraceAccount(done, t0)
      modifies eqshareTrace
      ensures TraceAccount(done + [d], t0)
    {
      assert (done + [d])[..|done|] == done;
      eqshareTrace.Push(EqShareEvent(exportEpoch, d.src, d.dst, d.eq.a, d.eq.b, d.eq.explain));
    }

    /** One turn of the inner broadcast loop: offer `x` to theory `j`
        unless `j` exported it or the policy blocks the pair. */
    method OfferTo(x: Tagged, j: TheoryId, ghost cur: seq<Delivery>, ghost next: seq<Delivery>,
                   ghost t0: seq<EqShareEvent>, ghost i0: seq<seq<SharedEq>>, ghost s0: set<EdgeKey>,
                   ghost d0: seq<Diagnostic>, ghost c0: seq<Call>, ghost view: OracleView)
      requires j < |theories|
      requires Broadcasted(cur, t0, i0, s0, d0, c0, view) && view == sharedTerms.View()
      requires next == if j != x.src && Allowed(RoundPolicy(), x.src, j) then cur + [Delivery(x.src, j, x.eq)] else cur
      requires LogOn(config.debugEq) ==> ExplainsBelow(Logged(next, s0, exportEpoch), |reasons.reasons|)
      modifies this`eqLogSeen, this`diagnostics, this`imports, this`calls, eqshareTrace
      ensures Broadcasted(next, t0, i0, s0, d0, c0, view)
    {
      var allow := if x.src == ufId && j == dlId then config.sharing.ufToDl
                   else if x.src == dlId && j == ufId then config.sharing.dlToUf
                   else true;
      if j != x.src && allow {
        Deliver(Delivery(x.src, j, x.eq), cur, next, t0, i0, s0, d0, c0, view);
      }
    }

    /** One turn of the inner broadcast loop, stated on the deliveries made
        for `x` so far: offering to theory `j` extends them to `j + 1`. */
    method OfferNext(x: Tagged, j: TheoryId, ghost done: seq<Delivery>, ghost cur: seq<Delivery>,
                     ghost t0: seq<EqShareEvent>, ghost i0: seq<seq<SharedEq>>, ghost s0: set<EdgeKey>,
                     ghost d0: seq<Diagnostic>, ghost c0: seq<Call>, ghost view: OracleView)
      returns (ghost next: seq<Delivery>)
      requires j < |theories| && cur == done + Targets(RoundPolicy(), x, j)
      requires Broadcasted(cur, t0, i0, s0, d0, c0, view) && view == sharedTerms.View()
      requires LogOn(config.debugEq) ==>
        ExplainsBelow(Logged(done + Targets(RoundPolicy(), x, |theories|), s0, exportEpoch), |reasons.reasons|)
      modifies this`eqLogSeen, this`diagnostics, this`imports, this`calls, eqshareTrace
      ensures next == done + Targets(RoundPolicy(), x, j + 1)
      ensures Broadcasted(next, t0, i0, s0, d0, c0, view)
    {
      ghost var p := RoundPolicy();
      next := done + Targets(p, x, j + 1);
      TargetsNext(p, x, j, done);
      if LogOn(config.debugEq) {
        ExplainsForTarget(p, x, j, |theories|, done, s0, exportEpoch, |reasons.reasons|);
      }
      OfferTo(x, j, cur, next, t0, i0, s0, d0, c0, view);
    }

    /** The inner broadcast loop: offer one exported equality to every
        other theory the policy allows, in theory order. */
    method BroadcastOne(x: Tagged, ghost done: seq<Delivery>, ghost t0: seq<EqShareEvent>, ghost i0: seq<seq<SharedEq>>,
                        ghost s0: set<EdgeKey>, ghost d0: seq<Diagnostic>, ghost c0: seq<Call>, ghost view: OracleView)
      requires Broadcasted(done, t0, i0, s0, d0, c0, view) && view == sharedTerms.View()
      requires LogOn(config.debugEq) ==>
        ExplainsBelow(Logged(done + Targets(RoundPolicy(), x, |theories|), s0, exportEpoch), |reasons.reasons|)
      modifies this`eqLogSeen, this`diagnostics, this`imports, this`calls, eqshareTrace
      ensures Broadcasted(done + Targets(RoundPolicy(), x, |theories|), t0, i0, s0, d0, c0, view)
    {
      ghost var p := RoundPolicy();
      ghost var cur := done;
      assert done + Targets(p, x, 0) == done;
      var j := 0;
      while j < |theories|
        invariant j <= |theories| && cur == done + Targets(p, x, j)
        invariant Broadcasted(cur, t0, i0, s0, d0, c0, view)
      {
        cur := OfferNext(x, j, done, cur, t0, i0, s0, d0, c0, view);
        j := j + 1;
      }
    }

    /** The broadcast phase: each exported equality in export order, each
        importer in theory order. */
    method BroadcastPhase(xs: seq<Tagged>, ghost view: OracleView)
      requires Valid() && view == sharedTerms.View()
      requires LogOn(config.debugEq) ==>
        ExplainsBelow(Logged(Deliveries(RoundPolicy(), |theories|, xs), eqLogSeen, exportEpoch), |reasons.reasons|)
      modifies this`eqLogSeen, this`diagnostics, this`imports, this`calls, eqshareTrace
      ensures Broadcasted(Deliveries(RoundPolicy(), |theories|, xs), old(eqshareTrace.events), old(imports),
                          old(eqLogSeen), old(diagnostics), old(calls), view)
    {
      ghost var p := RoundPolicy();
      ghost var t0, i0, s0, d0, c0 := eqshareTrace.events, imports, eqLogSeen, diagnostics, calls;
      var k := 0;
      while k < |xs|
        invariant k <= |xs|
        invariant Broadcasted(Deliveries(p, |theories|, xs[..k]), t0, i0, s0, d0, c0, view)
      {
        DeliveriesStep(p, |theories|, xs, k);
        if LogOn(config.debugEq) {
          LoggedMonotone(Deliveries(p, |theories|, xs[..k + 1]), Deliveries(p, |theories|, xs), s0, exportEpoch);
          ExplainsBelowPrefix(Logged(Deliveries(p, |theories|, xs[..k + 1]), s0, exportEpoch),
                              Logged(Deliveries(p, |theories|, xs), s0, exportEpoch), |reasons.reasons|);
        }
        BroadcastOne(xs[k], Deliveries(p, |theories|, xs[..k]), t0, i0, s0, d0, c0, view);
        k := k + 1;
      }
      assert xs[..k] == xs;
    }

    /** The deliveries of a round run against the current oracle state. */
    ghost function CurrentDeliveries(): seq<Delivery>
      reads this`config, this`ufId, this`dlId, this`exportEpoch, sharedTerms
    {
      Deliveries(RoundPolicy(), |theories|, Exported(theories, sharedTerms.View(), exportEpoch, |theories|))
    }

    /** The shared-term count line that opens a round. */
    method LogSharedStats()
      modifies this`diagnostics
      ensures diagnostics == old(diagnostics) + StatsLines(config.debugEq, exportEpoch, sharedTerms.shared)
    {
      var dbg := config.debugEq;
      if dbg.enabled && dbg.logSharedStats {
        diagnostics := diagnostics + [SharedStats(exportEpoch, |sharedTerms.SharedSet()|)];
      }
    }

    /** The export and broadcast phases of a round, and the epoch bump. */
    method ExchangeEqualities(ghost ds: seq<Delivery>, ghost view: OracleView)
      requires Valid() && view == sharedTerms.View() && ds == CurrentDeliveries()
      requires LogOn(config.debugEq) ==> ExplainsBelow(Logged(ds, eqLogSeen, exportEpoch), |reasons.reasons|)
      modifies this`exportEpoch, this`eqLogSeen, this`imports, this`diagnostics, this`calls, eqshareTrace
      ensures Valid()
      ensures exportEpoch == WrappingInc(old(exportEpoch))
      ensures eqshareTrace.events == old(eqshareTrace.events) + EventsOf(ds, old(exportEpoch))
      ensures ImportState(theories, ds, old(imports), old(calls) + ExportCalls(theories, view, old(exportEpoch), |theories|),
                          view, imports, calls)
      ensures LogState(config.debugEq, old(exportEpoch), reasons.reasons, ds, old(eqLogSeen), old(diagnostics),
                       eqLogSeen, diagnostics)
    {
      var xs := ExportPhase();
      BroadcastPhase(xs, view);
      exportEpoch := WrappingInc(exportEpoch);
    }

    /** `equality_sharing_round`. */
    method EqualitySharingRound()
      requires Valid() && RoundReady()
      modifies this`exportEpoch, this`eqLogSeen, this`lastAtomCount, this`imports, this`diagnostics, this`calls
      modifies sharedTerms, eqshareTrace
      ensures Valid()
      ensures RoundEffect()
    {
      ghost var view, ds := NextView(), RoundDeliveries();
      ghost var d0 := diagnostics;
      MaybeRecomputeSharedTerms();
      assert sharedTerms.View() == view;
      LogSharedStats();
      assert diagnostics == d0 + StatsLines(config.debugEq, exportEpoch, view.shared);
      ExchangeEqualities(ds, view);
    }

    /** `check_sat`: one sharing round, then `Unknown`. */
    method CheckSat() returns (r: CheckSat)
      requires Valid() && RoundReady()
      modifies this`exportEpoch, this`eqLogSeen, this`lastAtomCount, this`imports, this`diagnostics, this`calls
      modifies sharedTerms, eqshareTrace
      ensures Valid()
      ensures RoundEffect()
      ensures r == Unknown
    {
      EqualitySharingRound();
      r := Unknown;
    }

    /** `take_eqshare_events`. */
    method TakeEqshareEvents() returns (events: seq<EqShareEvent>)
      modifies eqshareTrace
      ensures events == old(eqshareTrace.events) && eqshareTrace.events == []
    {
      events := eqshareTrace.Take();
    }

    /** `dump_conflict_reason_dot`, with the default limits. */
    method DumpConflictReasonDot(root: ReasonId) returns (g: ReasonDot.ReasonGraph)
      requires reasons.Valid() && root < |reasons.reasons|
      ensures ReasonDot.IsBfsOrder(reasons.reasons, root, 300, g.order)
      ensures |g.order| >= 1 && g.order[0] == root && |g.order| <= 300 && ReasonDot.Distinct(g.order)
      ensures forall i :: 0 <= i < |g.order| ==> ReasonDot.Reachable(reasons.reasons, root, g.order[i])
      ensures |g.order| < 300 ==> forall x :: ReasonDot.Reachable(reasons.reasons, root, x) ==> x in g.order
      ensures g.shapes == ReasonDot.Shapes(reasons.reasons, g.order)
      ensures forall e :: e in g.edges <==>
        e.from < |g.order| && e.to < |g.order| && g.order[e.to] in Kids(reasons.reasons[g.order[e.from]])
      ensures forall name :: ReasonDot.NamesOf(g.order, name) ==>
        g.edges == ReasonDot.Edges(reasons.reasons, g.order, name, |g.order|)
    {
      g := ReasonDot.ReasonToDot(reasons, root, ReasonDot.DefaultDotLimits());
    }

    /** `dump_eqshare_dot`, with the default limits. */
    method DumpEqshareDot() returns (g: EqShareDot.EqShareGraph)
      requires reasons.Valid()
      requires EqShareDot.ExplainsValid(EqShareDot.Kept(Take(eqshareTrace.events, 300)), |reasons.reasons|)
      ensures g.truncated <==> |eqshareTrace.events| > 300
      ensures |g.edges| <= 300
      ensures g.termNodes == EqShareDot.Numbering(EqShareDot.EndpointSeq(Take(eqshareTrace.events, 300)))
      ensures EqShareDot.Numbered(EqShareDot.Kept(Take(eqshareTrace.events, 300)), g.termNodes)
      ensures g.edges == EqShareDot.EqEdges(reasons.reasons, EqShareDot.Kept(Take(eqshareTrace.events, 300)),
                                            g.termNodes, EqShareDot.DefaultEqDotLimits())
      ensures forall i :: 0 <= i < |g.edges| ==> !g.edges[i].reasonBox && |g.edges[i].lits| <= 6
    {
      var limits := EqShareDot.DefaultEqDotLimits();
      g := EqShareDot.EqShareToDot(reasons, eqshareTrace.events, limits);
      EqShareDot.EqEdgesMembers(reasons.reasons, EqShareDot.Kept(Take(eqshareTrace.events, 300)),
                                g.termNodes, limits);
    }
  }
}
