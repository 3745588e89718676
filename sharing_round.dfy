/** What one equality-sharing round does, as functions of its inputs: the
    export list, the policy-filtered deliveries, the trace events, the
    per-theory import logs, the deduplicated diagnostics and the order of
    the calls made on the theories. */
module SharingRound {
  import opened Core
  import opened Iter
  import opened Atoms
  import opened Sat
  import opened Reasons
  import opened Wrapping
  import opened Config
  import opened Theories
  import opened Trace

  /** The sharing policy: the two direction flags and the theories they name. */
  datatype Policy = Policy(sharing: SharingConfig, ufId: TheoryId, dlId: TheoryId)

  /** Only the UF-to-DL and DL-to-UF directions can be switched off; every
      other pair of theories is allowed. */
  predicate Allowed(p: Policy, src: TheoryId, dst: TheoryId)
  {
    if src == p.ufId && dst == p.dlId then p.sharing.ufToDl
    else if src == p.dlId && dst == p.ufId then p.sharing.dlToUf
    else true
  }

  /** With two distinct slots, a pair is blocked exactly when it is one of
      the two switched directions and its switch is off. */
  lemma AllowedSwitchedPairsOnly(p: Policy, src: TheoryId, dst: TheoryId)
    requires p.ufId != p.dlId
    ensures !Allowed(p, src, dst) <==>
      (src == p.ufId && dst == p.dlId && !p.sharing.ufToDl) || (src == p.dlId && dst == p.ufId && !p.sharing.dlToUf)
  {
  }

  /** An exported equality tagged with the index of its exporter. */
  datatype Tagged = Tagged(src: TheoryId, eq: SharedEq)

  /** One (exported equality, importing theory) pair that passed the policy. */
  datatype Delivery = Delivery(src: TheoryId, dst: TheoryId, eq: SharedEq)

  // ---------------------------------------------------------------------
  // Export phase

  function TagAll(src: TheoryId, eqs: seq<SharedEq>): seq<Tagged>
  {
    if eqs == [] then []
    else TagAll(src, eqs[..|eqs| - 1]) + [Tagged(src, eqs[|eqs| - 1])]
  }

  lemma {:induction false} TagAllIndex(src: TheoryId, eqs: seq<SharedEq>)
    ensures |TagAll(src, eqs)| == |eqs|
    ensures forall i :: 0 <= i < |eqs| ==> TagAll(src, eqs)[i] == Tagged(src, eqs[i])
  {
    if eqs != [] {
      TagAllIndex(src, eqs[..|eqs| - 1]);
    }
  }

  lemma TagAllMembers(src: TheoryId, eqs: seq<SharedEq>, x: Tagged)
    ensures x in TagAll(src, eqs) <==> x.src == src && x.eq in eqs
  {
    TagAllIndex(src, eqs);
    if x.src == src && x.eq in eqs {
      var i :| 0 <= i < |eqs| && eqs[i] == x.eq;
      assert TagAll(src, eqs)[i] == x;
    }
  }

  /** The equalities exported by the first `n` theories, in registration
      order, each theory's list in the order it returned it. Theories
      without the sharing capability contribute nothing. */
  function Exported(theories: seq<Theory>, view: OracleView, epoch: U64, n: nat): seq<Tagged>
    requires n <= |theories|
  {
    if n == 0 then []
    else
      Exported(theories, view, epoch, n - 1)
      + (if theories[n - 1].hasSharing then TagAll(n - 1, theories[n - 1].exports(view, epoch)) else [])
  }

  /** An entry of the export list is an equality that a theory with the
      sharing capability exported, tagged with that theory. */
  lemma {:induction false} ExportedMembers(theories: seq<Theory>, view: OracleView, epoch: U64, n: nat, x: Tagged)
    requires n <= |theories|
    ensures x in Exported(theories, view, epoch, n) <==>
      x.src < n && theories[x.src].hasSharing && x.eq in theories[x.src].exports(view, epoch)
  {
    if n > 0 {
      ExportedMembers(theories, view, epoch, n - 1, x);
      TagAllMembers(n - 1, theories[n - 1].exports(view, epoch), x);
    }
  }

  /** A tagged list whose exporters never decrease along it. */
  predicate SrcOrdered(xs: seq<Tagged>)
  {
    forall a, b :: 0 <= a <= b < |xs| ==> xs[a].src <= xs[b].src
  }

  predicate SrcBelow(xs: seq<Tagged>, n: nat)
  {
    forall a :: 0 <= a < |xs| ==> xs[a].src < n
  }

  /** Appending a block tagged `m` to an ordered list of exporters below `m`. */
  lemma SrcAppend(prev: seq<Tagged>, tail: seq<Tagged>, m: nat)
    requires SrcOrdered(prev) && SrcBelow(prev, m)
    requires forall a :: 0 <= a < |tail| ==> tail[a].src == m
    ensures SrcOrdered(prev + tail) && SrcBelow(prev + tail, m + 1)
  {
    var all := prev + tail;
    forall a | 0 <= a < |all|
      ensures all[a].src <= m
      ensures a < |prev| ==> all[a].src < m
      ensures a >= |prev| ==> all[a].src == m
    {
      if a < |prev| {
        assert all[a] == prev[a];
      } else {
        assert all[a] == tail[a - |prev|];
      }
    }
  }

  /** The export list is grouped by exporter in registration order, and
      every exporter is one of the first `n` theories. */
  lemma {:induction false} ExportedInRegistrationOrder(theories: seq<Theory>, view: OracleView, epoch: U64, n: nat)
    requires n <= |theories|
    ensures SrcOrdered(Exported(theories, view, epoch, n))
    ensures SrcBelow(Exported(theories, view, epoch, n), n)
  {
    if n > 0 {
      ExportedInRegistrationOrder(theories, view, epoch, n - 1);
      var eqs := theories[n - 1].exports(view, epoch);
      TagAllIndex(n - 1, eqs);
      var tail := if theories[n - 1].hasSharing then TagAll(n - 1, eqs) else [];
      SrcAppend(Exported(theories, view, epoch, n - 1), tail, n - 1);
    }
  }

  // ---------------------------------------------------------------------
  // Broadcast phase

  /** The deliveries of one exported equality to the theories below `j`, in
      theory order, skipping its exporter and the pairs the policy blocks. */
  function Targets(p: Policy, x: Tagged, j: nat): seq<Delivery>
  {
    if j == 0 then []
    else
      Targets(p, x, j - 1)
      + (if j - 1 != x.src && Allowed(p, x.src, j - 1) then [Delivery(x.src, j - 1, x.eq)] else [])
  }

  /** The deliveries of a whole export list to `m` theories: export order
      first, theory order second. */
  function Deliveries(p: Policy, m: nat, xs: seq<Tagged>): seq<Delivery>
  {
    if xs == [] then []
    else Deliveries(p, m, xs[..|xs| - 1]) + Targets(p, xs[|xs| - 1], m)
  }

  lemma {:induction false} TargetsMembers(p: Policy, x: Tagged, j: nat, d: Delivery)
    ensures d in Targets(p, x, j) <==>
      d.src == x.src && d.eq == x.eq && d.dst < j && d.dst != x.src && Allowed(p, x.src, d.dst)
  {
    if j > 0 {
      TargetsMembers(p, x, j - 1, d);
    }
  }

  /** One equality reaches each importer at most once, in increasing theory
      order. */
  lemma {:induction false} TargetsIncreasing(p: Policy, x: Tagged, j: nat)
    ensures forall d :: d in Targets(p, x, j) ==> d.dst < j
    ensures forall a, b :: 0 <= a < b < |Targets(p, x, j)| ==> Targets(p, x, j)[a].dst < Targets(p, x, j)[b].dst
  {
    if j > 0 {
      TargetsIncreasing(p, x, j - 1);
      var prev := Targets(p, x, j - 1);
      var all := Targets(p, x, j);
      forall d | d in all
        ensures d.dst < j
      {
        TargetsMembers(p, x, j, d);
      }
      forall a, b | 0 <= a < b < |all|
        ensures all[a].dst < all[b].dst
      {
        if b >= |prev| {
          assert all[b].dst == j - 1;
          assert all[a] == prev[a];
          assert all[a] in prev;
        } else {
          assert all[a] == prev[a] && all[b] == prev[b];
        }
      }
    }
  }

  /** Under a policy that blocks nothing, an equality exported by one of `m`
      theories reaches each of the other `m - 1`. */
  lemma {:induction false} PermissiveTargetsCount(p: Policy, x: Tagged, j: nat)
    requires p.sharing.ufToDl && p.sharing.dlToUf
    ensures |Targets(p, x, j)| == if x.src < j then j - 1 else j
  {
    if j > 0 {
      PermissiveTargetsCount(p, x, j - 1);
    }
  }

  lemma {:induction false} DeliveriesAppend(p: Policy, m: nat, xs: seq<Tagged>, ys: seq<Tagged>)
    ensures Deliveries(p, m, xs + ys) == Deliveries(p, m, xs) + Deliveries(p, m, ys)
  {
    if ys == [] {
      assert xs + ys == xs;
    } else {
      var init := ys[..|ys| - 1];
      assert (xs + ys)[..|xs + ys| - 1] == xs + init;
      assert (xs + ys)[|xs + ys| - 1] == ys[|ys| - 1];
      DeliveriesAppend(p, m, xs, init);
    }
  }

  /** A delivery is exactly an exported equality, a different importer among
      the `m` theories and a pair the policy allows: nothing goes back to its
      exporter, nothing the policy blocks goes anywhere, and everything else
      goes everywhere. */
  lemma {:induction false} DeliveryMembers(p: Policy, m: nat, xs: seq<Tagged>, d: Delivery)
    ensures d in Deliveries(p, m, xs) <==>
      Tagged(d.src, d.eq) in xs && d.dst < m && d.dst != d.src && Allowed(p, d.src, d.dst)
  {
    if xs != [] {
      var init := xs[..|xs| - 1];
      var last := xs[|xs| - 1];
      assert xs == init + [last];
      DeliveryMembers(p, m, init, d);
      TargetsMembers(p, last, m, d);
    }
  }

  /** An exporter never receives its own equality back. */
  lemma NoSelfDelivery(p: Policy, m: nat, xs: seq<Tagged>)
    ensures forall d :: d in Deliveries(p, m, xs) ==> d.src != d.dst
  {
    forall d | d in Deliveries(p, m, xs)
      ensures d.src != d.dst
    {
      DeliveryMembers(p, m, xs, d);
    }
  }

  // ---------------------------------------------------------------------
  // Trace events

  function EventOf(d: Delivery, epoch: U64): EqShareEvent
  {
    EqShareEvent(epoch, d.src, d.dst, d.eq.a, d.eq.b, d.eq.explain)
  }

  function EventsOf(ds: seq<Delivery>, epoch: U64): seq<EqShareEvent>
  {
    if ds == [] then []
    else EventsOf(ds[..|ds| - 1], epoch) + [EventOf(ds[|ds| - 1], epoch)]
  }

  /** One trace event per delivery, in delivery order, whatever the
      importer's capabilities. */
  lemma {:induction false} EventsOfIndex(ds: seq<Delivery>, epoch: U64)
    ensures |EventsOf(ds, epoch)| == |ds|
    ensures forall i :: 0 <= i < |ds| ==> EventsOf(ds, epoch)[i] == EventOf(ds[i], epoch)
  {
    if ds != [] {
      EventsOfIndex(ds[..|ds| - 1], epoch);
    }
  }

  // ---------------------------------------------------------------------
  // Imports

  /** The equalities theory `j` imports from a delivery list: those
      addressed to it, in order, when it has the sharing capability. */
  function ImportsTo(theories: seq<Theory>, ds: seq<Delivery>, j: TheoryId): seq<SharedEq>
  {
    if ds == [] then []
    else
      var last := ds[|ds| - 1];
      ImportsTo(theories, ds[..|ds| - 1], j)
      + (if last.dst == j && j < |theories| && theories[j].hasSharing then [last.eq] else [])
  }

  /** A theory without the sharing capability imports nothing. */
  lemma {:induction false} ImportsToWithoutSharing(theories: seq<Theory>, ds: seq<Delivery>, j: TheoryId)
    requires j >= |theories| || !theories[j].hasSharing
    ensures ImportsTo(theories, ds, j) == []
  {
    if ds != [] {
      ImportsToWithoutSharing(theories, ds[..|ds| - 1], j);
    }
  }

  /** An equality is imported by `j` iff some delivery carries it to `j`
      and `j` has the sharing capability. */
  lemma {:induction false} ImportsToMembers(theories: seq<Theory>, ds: seq<Delivery>, j: TheoryId, eq: SharedEq)
    ensures eq in ImportsTo(theories, ds, j) <==>
      j < |theories| && theories[j].hasSharing && exists i :: 0 <= i < |ds| && ds[i].dst == j && ds[i].eq == eq
  {
    if ds != [] {
      var init := ds[..|ds| - 1];
      ImportsToMembers(theories, init, j, eq);
      if exists i :: 0 <= i < |ds| && ds[i].dst == j && ds[i].eq == eq {
        var i :| 0 <= i < |ds| && ds[i].dst == j && ds[i].eq == eq;
        if i < |ds| - 1 {
          assert init[i] == ds[i];
        }
      }
      if exists i :: 0 <= i < |init| && init[i].dst == j && init[i].eq == eq {
        var i :| 0 <= i < |init| && init[i].dst == j && init[i].eq == eq;
        assert ds[i] == init[i];
      }
    }
  }

  /** A theory no delivery is addressed to imports nothing. */
  lemma {:induction false} ImportsToUnaddressed(theories: seq<Theory>, ds: seq<Delivery>, j: TheoryId)
    requires forall d :: d in ds ==> d.dst != j
    ensures ImportsTo(theories, ds, j) == []
  {
    if ds != [] {
      assert ds[|ds| - 1] in ds;
      ImportsToUnaddressed(theories, ds[..|ds| - 1], j);
    }
  }

  lemma {:induction false} ImportsToAppend(theories: seq<Theory>, ds: seq<Delivery>, es: seq<Delivery>, j: TheoryId)
    ensures ImportsTo(theories, ds + es, j) == ImportsTo(theories, ds, j) + ImportsTo(theories, es, j)
  {
    if es == [] {
      assert ds + es == ds;
    } else {
      var init := es[..|es| - 1];
      assert (ds + es)[..|ds + es| - 1] == ds + init;
      assert (ds + es)[|ds + es| - 1] == es[|es| - 1];
      ImportsToAppend(theories, ds, init, j);
    }
  }

  // ---------------------------------------------------------------------
  // Deduplicated diagnostics

  /** The display key of a delivery in a round. */
  function DeliveryKey(d: Delivery, epoch: U64): EdgeKey
  {
    KeyOf(d.src, d.dst, d.eq.a, d.eq.b, epoch)
  }

  /** The key set after the deliveries of a round are logged. */
  function LogSeen(ds: seq<Delivery>, seen0: set<EdgeKey>, epoch: U64): set<EdgeKey>
  {
    if ds == [] then seen0
    else LogSeen(ds[..|ds| - 1], seen0, epoch) + {DeliveryKey(ds[|ds| - 1], epoch)}
  }

  /** The deliveries that produce a diagnostic line: those whose key is not
      yet in the key set. */
  function Logged(ds: seq<Delivery>, seen0: set<EdgeKey>, epoch: U64): seq<Delivery>
  {
    if ds == [] then []
    else
      var last := ds[|ds| - 1];
      Logged(ds[..|ds| - 1], seen0, epoch)
      + (if DeliveryKey(last, epoch) in LogSeen(ds[..|ds| - 1], seen0, epoch) then [] else [last])
  }

  /** The key set only grows, by the keys of the deliveries. */
  lemma {:induction false} LogSeenKeys(ds: seq<Delivery>, seen0: set<EdgeKey>, epoch: U64)
    ensures LogSeen(ds, seen0, epoch) == seen0 + (set d | d in ds :: DeliveryKey(d, epoch))
  {
    if ds != [] {
      var init := ds[..|ds| - 1];
      LogSeenKeys(init, seen0, epoch);
      assert ds == init + [ds[|ds| - 1]];
      assert (set d | d in ds :: DeliveryKey(d, epoch))
          == (set d | d in init :: DeliveryKey(d, epoch)) + {DeliveryKey(ds[|ds| - 1], epoch)};
    }
  }

  /** The logged deliveries come from the list and carry keys that were
      not seen before the round and are seen after it. */
  lemma {:induction false} LoggedFresh(ds: seq<Delivery>, seen0: set<EdgeKey>, epoch: U64)
    ensures forall i :: 0 <= i < |Logged(ds, seen0, epoch)| ==>
      Logged(ds, seen0, epoch)[i] in ds
      && DeliveryKey(Logged(ds, seen0, epoch)[i], epoch) !in seen0
      && DeliveryKey(Logged(ds, seen0, epoch)[i], epoch) in LogSeen(ds, seen0, epoch)
  {
    if ds != [] {
      var init := ds[..|ds| - 1];
      var last := ds[|ds| - 1];
      LoggedFresh(init, seen0, epoch);
      var prev := Logged(init, seen0, epoch);
      var all := Logged(ds, seen0, epoch);
      forall i | 0 <= i < |all|
        ensures all[i] in ds
        ensures DeliveryKey(all[i], epoch) !in seen0
        ensures DeliveryKey(all[i], epoch) in LogSeen(ds, seen0, epoch)
      {
        if i < |prev| {
          assert all[i] == prev[i];
          assert prev[i] in init;
        } else {
          assert all[i] == last;
          LogSeenKeys(init, seen0, epoch);
        }
      }
    }
  }

  /** No two diagnostic lines of a round share a key. */
  lemma {:induction false} LoggedDistinct(ds: seq<Delivery>, seen0: set<EdgeKey>, epoch: U64)
    ensures forall i, k :: 0 <= i < k < |Logged(ds, seen0, epoch)| ==>
      DeliveryKey(Logged(ds, seen0, epoch)[i], epoch) != DeliveryKey(Logged(ds, seen0, epoch)[k], epoch)
  {
    if ds != [] {
      var init := ds[..|ds| - 1];
      var last := ds[|ds| - 1];
      LoggedDistinct(init, seen0, epoch);
      LoggedFresh(init, seen0, epoch);
      var prev := Logged(init, seen0, epoch);
      var all := Logged(ds, seen0, epoch);
      forall i, k | 0 <= i < k < |all|
        ensures DeliveryKey(all[i], epoch) != DeliveryKey(all[k], epoch)
      {
        assert all[i] == prev[i];
        if k >= |prev| {
          assert all[k] == last;
        } else {
          assert all[k] == prev[k];
        }
      }
    }
  }

  /** Every delivery whose key is new gets a line with its key: the key
      decides what is printed and nothing else. */
  lemma {:induction false} LoggedComplete(ds: seq<Delivery>, seen0: set<EdgeKey>, epoch: U64, d: Delivery)
    requires d in ds && DeliveryKey(d, epoch) !in seen0
    ensures exists i :: 0 <= i < |Logged(ds, seen0, epoch)| && DeliveryKey(Logged(ds, seen0, epoch)[i], epoch) == DeliveryKey(d, epoch)
  {
    var init := ds[..|ds| - 1];
    var last := ds[|ds| - 1];
    assert ds == init + [last];
    var prev := Logged(init, seen0, epoch);
    var all := Logged(ds, seen0, epoch);
    assert all[..|prev|] == prev;
    if d in init {
      LoggedComplete(init, seen0, epoch, d);
      var i :| 0 <= i < |prev| && DeliveryKey(prev[i], epoch) == DeliveryKey(d, epoch);
      assert all[i] == prev[i];
    } else if DeliveryKey(last, epoch) !in LogSeen(init, seen0, epoch) {
      assert all[|prev|] == last;
    } else {
      LogSeenKeys(init, seen0, epoch);
      var e :| e in init && DeliveryKey(e, epoch) == DeliveryKey(d, epoch);
      LoggedComplete(init, seen0, epoch, e);
      var i :| 0 <= i < |prev| && DeliveryKey(prev[i], epoch) == DeliveryKey(e, epoch);
      assert all[i] == prev[i];
    }
  }

  /** A diagnostic line of the engine: the shared-set size at the start of
      a round, or one delivery with the first literals of its reason and
      whether more were cut off. */
  datatype Diagnostic =
    | SharedStats(epoch: U64, count: nat)
    | EqLine(epoch: U64, src: TheoryId, dst: TheoryId, a: TermId, b: TermId, lits: seq<Lit>, more: bool)

  /** All handles of a delivery list name arena entries. */
  predicate ExplainsBelow(ds: seq<Delivery>, n: nat)
  {
    forall i :: 0 <= i < |ds| ==> ds[i].eq.explain < n
  }

  ghost function EqLineOf(rs: seq<Reason>, d: Delivery, epoch: U64, maxLits: nat): Diagnostic
    requires WellFormed(rs) && d.eq.explain < |rs|
  {
    var lits := Expansion(rs, d.eq.explain);
    EqLine(epoch, d.src, d.dst, d.eq.a, d.eq.b, Take(lits, maxLits), |lits| > maxLits)
  }

  /** A line lists at most `maxLits` literals of the expansion, in order,
      and is marked iff the expansion is longer. */
  lemma EqLineLiterals(rs: seq<Reason>, d: Delivery, epoch: U64, maxLits: nat)
    requires WellFormed(rs) && d.eq.explain < |rs|
    ensures |EqLineOf(rs, d, epoch, maxLits).lits| <= maxLits
    ensures EqLineOf(rs, d, epoch, maxLits).lits <= Expansion(rs, d.eq.explain)
    ensures EqLineOf(rs, d, epoch, maxLits).more <==> |Expansion(rs, d.eq.explain)| > maxLits
    ensures !EqLineOf(rs, d, epoch, maxLits).more ==> EqLineOf(rs, d, epoch, maxLits).lits == Expansion(rs, d.eq.explain)
  {
  }

  ghost function EqLines(rs: seq<Reason>, ds: seq<Delivery>, epoch: U64, maxLits: nat): seq<Diagnostic>
    requires WellFormed(rs) && ExplainsBelow(ds, |rs|)
  {
    if ds == [] then []
    else EqLines(rs, ds[..|ds| - 1], epoch, maxLits) + [EqLineOf(rs, ds[|ds| - 1], epoch, maxLits)]
  }

  // ---------------------------------------------------------------------
  // Calls on the theories

  /** A call the engine makes on a theory, with the oracle state it can see. */
  datatype Call =
    | ExportCall(theory: TheoryId, view: OracleView, epoch: U64)
    | ImportCall(theory: TheoryId, view: OracleView, eq: SharedEq)

  function ExportCalls(theories: seq<Theory>, view: OracleView, epoch: U64, n: nat): seq<Call>
    requires n <= |theories|
  {
    if n == 0 then []
    else
      ExportCalls(theories, view, epoch, n - 1)
      + (if theories[n - 1].hasSharing then [ExportCall(n - 1, view, epoch)] else [])
  }

  function ImportCalls(theories: seq<Theory>, ds: seq<Delivery>, view: OracleView): seq<Call>
  {
    if ds == [] then []
    else
      var last := ds[|ds| - 1];
      ImportCalls(theories, ds[..|ds| - 1], view)
      + (if last.dst < |theories| && theories[last.dst].hasSharing then [ImportCall(last.dst, view, last.eq)] else [])
  }

  lemma {:induction false} ExportCallsShape(theories: seq<Theory>, view: OracleView, epoch: U64, n: nat)
    requires n <= |theories|
    ensures forall i :: 0 <= i < |ExportCalls(theories, view, epoch, n)| ==>
      ExportCalls(theories, view, epoch, n)[i].ExportCall?
      && ExportCalls(theories, view, epoch, n)[i].view == view
      && ExportCalls(theories, view, epoch, n)[i].epoch == epoch
  {
    if n > 0 {
      ExportCallsShape(theories, view, epoch, n - 1);
    }
  }

  lemma {:induction false} ImportCallsShape(theories: seq<Theory>, ds: seq<Delivery>, view: OracleView)
    ensures forall i :: 0 <= i < |ImportCalls(theories, ds, view)| ==>
      ImportCalls(theories, ds, view)[i].ImportCall? && ImportCalls(theories, ds, view)[i].view == view
  {
    if ds != [] {
      ImportCallsShape(theories, ds[..|ds| - 1], view);
    }
  }

  /** Phase separation: in the calls of a round no export follows an import,
      and every call sees the same oracle state. */
  lemma PhaseSeparation(theories: seq<Theory>, view: OracleView, epoch: U64, ds: seq<Delivery>)
    ensures var cs := ExportCalls(theories, view, epoch, |theories|) + ImportCalls(theories, ds, view);
      (forall a, b :: 0 <= a < b < |cs| && cs[a].ImportCall? ==> cs[b].ImportCall?)
      && (forall i :: 0 <= i < |cs| ==> cs[i].view == view)
  {
    var ex := ExportCalls(theories, view, epoch, |theories|);
    var im := ImportCalls(theories, ds, view);
    ExportCallsShape(theories, view, epoch, |theories|);
    ImportCallsShape(theories, ds, view);
    var cs := ex + im;
    forall i | 0 <= i < |cs|
      ensures (i < |ex| ==> cs[i].ExportCall?) && (i >= |ex| ==> cs[i].ImportCall?)
      ensures cs[i].view == view
    {
      if i < |ex| {
        assert cs[i] == ex[i];
      } else {
        assert cs[i] == im[i - |ex|];
      }
    }
  }

  // ---------------------------------------------------------------------
  // Logging switches

  /** Per-delivery lines are produced, and the key set updated, only when
      diagnostics are on and exports or imports are logged. */
  predicate LogOn(dbg: DebugEqSharing)
  {
    dbg.enabled && (dbg.logExports || dbg.logImports)
  }

  /** The shared-term count line that opens a round, if any. */
  function StatsLines(dbg: DebugEqSharing, epoch: U64, shared: set<TermId>): (ls: seq<Diagnostic>)
    ensures |ls| <= 1
    ensures ls != [] <==> dbg.enabled && dbg.logSharedStats
    ensures forall i :: 0 <= i < |ls| ==> ls[i] == SharedStats(epoch, |shared|)
  {
    if dbg.enabled && dbg.logSharedStats then [SharedStats(epoch, |shared|)] else []
  }

  // ---------------------------------------------------------------------
  // One delivery at a time

  /** What one more delivery adds to each per-round account. */
  lemma DeliveryStep(theories: seq<Theory>, done: seq<Delivery>, d: Delivery, seen0: set<EdgeKey>,
                     epoch: U64, view: OracleView)
    ensures EventsOf(done + [d], epoch) == EventsOf(done, epoch) + [EventOf(d, epoch)]
    ensures forall j: TheoryId :: (ImportsTo(theories, done + [d], j)
      == ImportsTo(theories, done, j) + (if d.dst == j && j < |theories| && theories[j].hasSharing then [d.eq] else []))
    ensures LogSeen(done + [d], seen0, epoch) == LogSeen(done, seen0, epoch) + {DeliveryKey(d, epoch)}
    ensures Logged(done + [d], seen0, epoch)
      == Logged(done, seen0, epoch) + (if DeliveryKey(d, epoch) in LogSeen(done, seen0, epoch) then [] else [d])
    ensures ImportCalls(theories, done + [d], view)
      == ImportCalls(theories, done, view)
         + (if d.dst < |theories| && theories[d.dst].hasSharing then [ImportCall(d.dst, view, d.eq)] else [])
  {
    assert (done + [d])[..|done|] == done;
  }

  lemma EqLinesStep(rs: seq<Reason>, ds: seq<Delivery>, d: Delivery, epoch: U64, maxLits: nat)
    requires WellFormed(rs) && ExplainsBelow(ds + [d], |rs|)
    ensures ExplainsBelow(ds, |rs|) && d.eq.explain < |rs|
    ensures EqLines(rs, ds + [d], epoch, maxLits) == EqLines(rs, ds, epoch, maxLits) + [EqLineOf(rs, d, epoch, maxLits)]
  {
    assert (ds + [d])[..|ds|] == ds;
    assert forall i :: 0 <= i < |ds| ==> ds[i] == (ds + [d])[i];
    assert (ds + [d])[|ds|] == d;
  }

  lemma ExplainsBelowPrefix(ds: seq<Delivery>, es: seq<Delivery>, n: nat)
    requires ds <= es && ExplainsBelow(es, n)
    ensures ExplainsBelow(ds, n)
  {
    assert forall i :: 0 <= i < |ds| ==> ds[i] == es[i];
  }

  /** The theories below `j` come first among those below `m`. */
  lemma {:induction false} TargetsPrefix(p: Policy, x: Tagged, j: nat, m: nat)
    requires j <= m
    ensures Targets(p, x, j) <= Targets(p, x, m)
    decreases m
  {
    if j < m {
      TargetsPrefix(p, x, j, m - 1);
    }
  }

  /** Logging more deliveries only appends diagnostic lines. */
  lemma {:induction false} LoggedPrefix(ds: seq<Delivery>, es: seq<Delivery>, seen0: set<EdgeKey>, epoch: U64)
    ensures Logged(ds, seen0, epoch) <= Logged(ds + es, seen0, epoch)
    decreases |es|
  {
    if es == [] {
      assert ds + es == ds;
    } else {
      var init := es[..|es| - 1];
      assert (ds + es)[..|ds + es| - 1] == ds + init;
      LoggedPrefix(ds, init, seen0, epoch);
    }
  }

  lemma LoggedMonotone(ds: seq<Delivery>, es: seq<Delivery>, seen0: set<EdgeKey>, epoch: U64)
    requires ds <= es
    ensures Logged(ds, seen0, epoch) <= Logged(es, seen0, epoch)
  {
    LoggedPrefix(ds, es[|ds|..], seen0, epoch);
    assert ds + es[|ds|..] == es;
  }

  /** The deliveries of the first `k + 1` exported equalities: those of the
      first `k`, then the targets of the next. */
  lemma DeliveriesStep(p: Policy, m: nat, xs: seq<Tagged>, k: nat)
    requires k < |xs|
    ensures Deliveries(p, m, xs[..k + 1]) == Deliveries(p, m, xs[..k]) + Targets(p, xs[k], m)
    ensures Deliveries(p, m, xs[..k + 1]) <= Deliveries(p, m, xs)
  {
    var pre := xs[..k + 1];
    assert pre[..|pre| - 1] == xs[..k] && pre[|pre| - 1] == xs[k];
    DeliveriesAppend(p, m, pre, xs[k + 1..]);
    assert pre + xs[k + 1..] == xs;
  }

  // ---------------------------------------------------------------------
  // The broadcast loop's account, as values

  /** After the deliveries `done`, the importers' logs and the import calls
      have grown, from `i0` and `c0`, by exactly what was addressed to
      importers with the capability. */
  ghost predicate ImportState(theories: seq<Theory>, done: seq<Delivery>, i0: seq<seq<SharedEq>>, c0: seq<Call>,
                              view: OracleView, imports: seq<seq<SharedEq>>, calls: seq<Call>)
  {
    && |imports| == |theories| && |i0| == |theories|
    && (forall j :: 0 <= j < |theories| ==> imports[j] == i0[j] + ImportsTo(theories, done, j))
    && calls == c0 + ImportCalls(theories, done, view)
  }

  lemma ImportStateStep(theories: seq<Theory>, done: seq<Delivery>, d: Delivery, i0: seq<seq<SharedEq>>,
                        c0: seq<Call>, view: OracleView, imports: seq<seq<SharedEq>>, calls: seq<Call>)
    requires ImportState(theories, done, i0, c0, view, imports, calls) && d.dst < |theories|
    ensures theories[d.dst].hasSharing ==>
      ImportState(theories, done + [d], i0, c0, view, imports[d.dst := imports[d.dst] + [d.eq]],
                  calls + [ImportCall(d.dst, view, d.eq)])
    ensures !theories[d.dst].hasSharing ==> ImportState(theories, done + [d], i0, c0, view, imports, calls)
  {
    ImportCallsStep(theories, done, d, view);
    var imports' := if theories[d.dst].hasSharing then imports[d.dst := imports[d.dst] + [d.eq]] else imports;
    forall j | 0 <= j < |theories|
      ensures imports'[j] == i0[j] + ImportsTo(theories, done + [d], j)
    {
      ImportsToStep(theories, done, d, j);
    }
  }

  lemma ImportsToStep(theories: seq<Theory>, done: seq<Delivery>, d: Delivery, j: TheoryId)
    ensures ImportsTo(theories, done + [d], j)
      == ImportsTo(theories, done, j) + (if d.dst == j && j < |theories| && theories[j].hasSharing then [d.eq] else [])
  {
    assert (done + [d])[..|done|] == done;
  }

  lemma ImportCallsStep(theories: seq<Theory>, done: seq<Delivery>, d: Delivery, view: OracleView)
    ensures ImportCalls(theories, done + [d], view)
      == ImportCalls(theories, done, view)
         + (if d.dst < |theories| && theories[d.dst].hasSharing then [ImportCall(d.dst, view, d.eq)] else [])
  {
    assert (done + [d])[..|done|] == done;
  }

  /** After the deliveries `done`, the key set and the diagnostic lines have
      grown, from `s0` and `d0`, by the deliveries whose key was new, when
      logging is on; otherwise they are untouched. */
  ghost predicate LogState(dbg: DebugEqSharing, epoch: U64, rs: seq<Reason>, done: seq<Delivery>,
                           s0: set<EdgeKey>, d0: seq<Diagnostic>, seen: set<EdgeKey>, diags: seq<Diagnostic>)
  {
    if LogOn(dbg)
    then && seen == LogSeen(done, s0, epoch)
         && WellFormed(rs)
         && ExplainsBelow(Logged(done, s0, epoch), |rs|)
         && diags == d0 + EqLines(rs, Logged(done, s0, epoch), epoch, dbg.maxReasonLits)
    else seen == s0 && diags == d0
  }

  lemma LogStateFresh(dbg: DebugEqSharing, epoch: U64, rs: seq<Reason>, done: seq<Delivery>, d: Delivery,
                      s0: set<EdgeKey>, d0: seq<Diagnostic>, seen: set<EdgeKey>, diags: seq<Diagnostic>)
    requires LogState(dbg, epoch, rs, done, s0, d0, seen, diags) && LogOn(dbg)
    requires DeliveryKey(d, epoch) !in seen
    requires ExplainsBelow(Logged(done + [d], s0, epoch), |rs|)
    ensures WellFormed(rs) && d.eq.explain < |rs|
    ensures LogState(dbg, epoch, rs, done + [d], s0, d0, seen + {DeliveryKey(d, epoch)},
                     diags + [EqLineOf(rs, d, epoch, dbg.maxReasonLits)])
  {
    DeliveryStep([], done, d, s0, epoch, OracleView({}, 0));
    EqLinesStep(rs, Logged(done, s0, epoch), d, epoch, dbg.maxReasonLits);
  }

  lemma LogStateRepeat(dbg: DebugEqSharing, epoch: U64, rs: seq<Reason>, done: seq<Delivery>, d: Delivery,
                       s0: set<EdgeKey>, d0: seq<Diagnostic>, seen: set<EdgeKey>, diags: seq<Diagnostic>)
    requires LogState(dbg, epoch, rs, done, s0, d0, seen, diags)
    requires LogOn(dbg) ==> DeliveryKey(d, epoch) in seen
    ensures LogState(dbg, epoch, rs, done + [d], s0, d0, if LogOn(dbg) then seen + {DeliveryKey(d, epoch)} else seen, diags)
  {
    DeliveryStep([], done, d, s0, epoch, OracleView({}, 0));
    if LogOn(dbg) {
      assert Logged(done + [d], s0, epoch) == Logged(done, s0, epoch);
    }
  }

  /** The reasons logged by a prefix of one equality's targets are among
      those logged by all of them. */
  lemma ExplainsForTarget(p: Policy, x: Tagged, j: nat, m: nat, done: seq<Delivery>, s0: set<EdgeKey>,
                          epoch: U64, n: nat)
    requires j < m
    requires ExplainsBelow(Logged(done + Targets(p, x, m), s0, epoch), n)
    ensures ExplainsBelow(Logged(done + Targets(p, x, j + 1), s0, epoch), n)
  {
    TargetsPrefix(p, x, j + 1, m);
    LoggedMonotone(done + Targets(p, x, j + 1), done + Targets(p, x, m), s0, epoch);
    ExplainsBelowPrefix(Logged(done + Targets(p, x, j + 1), s0, epoch), Logged(done + Targets(p, x, m), s0, epoch), n);
  }

  /** Offering to one more theory adds at most the delivery to that theory. */
  lemma TargetsNext(p: Policy, x: Tagged, j: nat, done: seq<Delivery>)
    ensures done + Targets(p, x, j + 1) ==
      if j != x.src && Allowed(p, x.src, j) then (done + Targets(p, x, j)) + [Delivery(x.src, j, x.eq)]
      else done + Targets(p, x, j)
  {
  }

  // ---------------------------------------------------------------------
  // Two-theory scenarios

  /** With a blocked direction between two theories, the UF theory's
      equalities neither reach the DL theory nor leave a trace there. */
  lemma BlockedDirectionDeliversNothing(theories: seq<Theory>, p: Policy, xs: seq<Tagged>, epoch: U64)
    requires |theories| == 2 && p.ufId == 0 && p.dlId == 1 && !p.sharing.ufToDl
    requires forall i :: 0 <= i < |xs| ==> xs[i].src < 2
    ensures forall d :: d in Deliveries(p, 2, xs) ==> d.dst != 1
    ensures ImportsTo(theories, Deliveries(p, 2, xs), 1) == []
    ensures forall e :: e in EventsOf(Deliveries(p, 2, xs), epoch) ==> e.dst != 1
  {
    var ds := Deliveries(p, 2, xs);
    forall d | d in ds
      ensures d.dst != 1
    {
      DeliveryMembers(p, 2, xs, d);
    }
    ImportsToUnaddressed(theories, ds, 1);
    EventsOfIndex(ds, epoch);
    forall e | e in EventsOf(ds, epoch)
      ensures e.dst != 1
    {
      var i :| 0 <= i < |ds| && EventsOf(ds, epoch)[i] == e;
      assert ds[i] in ds;
    }
  }

  /** The same delivery twice gives two imports and two trace events, but
      one diagnostic line. */
  lemma DedupDoesNotSuppressDelivery(theories: seq<Theory>, d: Delivery, seen0: set<EdgeKey>, epoch: U64)
    requires d.dst < |theories| && theories[d.dst].hasSharing
    requires DeliveryKey(d, epoch) !in seen0
    ensures ImportsTo(theories, [d, d], d.dst) == [d.eq, d.eq]
    ensures EventsOf([d, d], epoch) == [EventOf(d, epoch), EventOf(d, epoch)]
    ensures Logged([d, d], seen0, epoch) == [d]
  {
    var ds := [d, d];
    assert ds[..1] == [d] && ds[..1][..0] == [];
    assert ImportsTo(theories, [d], d.dst) == [d.eq];
    assert EventsOf([d], epoch) == [EventOf(d, epoch)];
    assert LogSeen([d], seen0, epoch) == seen0 + {DeliveryKey(d, epoch)};
    assert Logged([d], seen0, epoch) == [d];
  }

  /** The deliveries of an equality UF exports twice, when UF-to-DL is on. */
  lemma UfTwiceToDl(p: Policy, x: Tagged)
    requires p.ufId == 0 && p.dlId == 1 && p.sharing.ufToDl && x.src == 0
    ensures Deliveries(p, 2, [x, x]) == [Delivery(0, 1, x.eq), Delivery(0, 1, x.eq)]
  {
    var d := Delivery(0, 1, x.eq);
    assert Targets(p, x, 1) == [];
    assert Targets(p, x, 2) == [d];
    assert Deliveries(p, 2, [x]) == [d] by {
      assert [x][..0] == [];
    }
    DeliveriesAppend(p, 2, [x], [x]);
    assert [x] + [x] == [x, x];
  }

  /** The export list when only UF exports, and exports one equality. */
  lemma ExportedOnlyUf(theories: seq<Theory>, view: OracleView, epoch: U64, eq: SharedEq)
    requires |theories| == 2
    requires theories[0].hasSharing && theories[0].exports(view, epoch) == [eq]
    requires theories[1].exports(view, epoch) == []
    ensures Exported(theories, view, epoch, 2) == [Tagged(0, eq)]
  {
    assert [eq][..0] == [];
    assert TagAll(0, [eq]) == [Tagged(0, eq)];
    assert Exported(theories, view, epoch, 1) == [Tagged(0, eq)];
    assert TagAll(1, []) == [];
  }

  /** With UF-to-DL on, a UF export is delivered to DL alone. */
  lemma UfOnceToDl(p: Policy, eq: SharedEq)
    requires p.ufId == 0 && p.dlId == 1 && p.sharing.ufToDl
    ensures Deliveries(p, 2, [Tagged(0, eq)]) == [Delivery(0, 1, eq)]
  {
    var x := Tagged(0, eq);
    assert Targets(p, x, 1) == [];
    assert Targets(p, x, 2) == [Delivery(0, 1, eq)];
    assert [x][..0] == [];
  }

  /** One round between UF and DL with both directions on, where UF exports
      one equality justified by a leaf and DL exports nothing: the round
      delivers exactly that equality to DL, DL imports it once, UF imports
      nothing, and DL's import expands to the leaf's literal. */
  lemma UfExportReachesDl(theories: seq<Theory>, p: Policy, view: OracleView, epoch: U64, eq: SharedEq,
                          rs: seq<Reason>, lit: Lit)
    requires |theories| == 2 && p.ufId == 0 && p.dlId == 1 && p.sharing.ufToDl && p.sharing.dlToUf
    requires theories[0].hasSharing && theories[0].exports(view, epoch) == [eq]
    requires theories[1].hasSharing && theories[1].exports(view, epoch) == []
    requires WellFormed(rs) && eq.explain < |rs| && rs[eq.explain].Atom? && rs[eq.explain].lit == lit
    ensures Exported(theories, view, epoch, 2) == [Tagged(0, eq)]
    ensures Deliveries(p, 2, Exported(theories, view, epoch, 2)) == [Delivery(0, 1, eq)]
    ensures ImportsTo(theories, Deliveries(p, 2, Exported(theories, view, epoch, 2)), 1) == [eq]
    ensures ImportsTo(theories, Deliveries(p, 2, Exported(theories, view, epoch, 2)), 0) == []
    ensures Expansion(rs, ImportsTo(theories, Deliveries(p, 2, Exported(theories, view, epoch, 2)), 1)[0].explain) == [lit]
  {
    var d := Delivery(0, 1, eq);
    ExportedOnlyUf(theories, view, epoch, eq);
    UfOnceToDl(p, eq);
    assert [d][..0] == [];
    assert ImportsTo(theories, [d], 1) == [eq];
    assert ImportsTo(theories, [d], 0) == [];
    ExpansionAtom(rs, eq.explain);
  }
}
