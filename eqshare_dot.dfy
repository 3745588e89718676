/** The Graphviz exporter for equality-sharing events, modelled as the graph
    it describes: one edge per distinct (exporter, importer, unordered pair,
    epoch) among the first `maxEvents` events, term nodes numbered in order
    of first appearance, and a truncation note. */
module EqShareDot {
  import opened Sat
  import opened Core
  import opened Iter
  import opened Reasons
  import opened Trace
  import opened Atoms
  import opened Wrapping

  datatype EqDotLimits = EqDotLimits(maxEvents: nat, maxReasonLits: nat, includeReasonNodes: bool)

  function DefaultEqDotLimits(): (l: EqDotLimits)
    ensures l.maxEvents == 300 && l.maxReasonLits == 6 && !l.includeReasonNodes
  {
    EqDotLimits(300, 6, false)
  }

  /** One drawn equality: node `t<from>` to node `t<to>`, labelled with the
      two theories, the epoch and the first reason literals; `more` is the
      ",..." marker and `reasonBox` the dashed reason node with its two
      dotted links. */
  datatype EqEdge = EqEdge(
    from: nat,
    to: nat,
    src: TheoryId,
    dst: TheoryId,
    epoch: U64,
    explain: ReasonId,
    lits: seq<Lit>,
    more: bool,
    reasonBox: bool)

  /** `termNodes[t] == k` is the ellipse `t<k>` for term `t`. */
  datatype EqShareGraph = EqShareGraph(edges: seq<EqEdge>, termNodes: map<TermId, nat>, truncated: bool)

  /** The keys of all events seen so far. */
  function SeenKeys(evs: seq<EqShareEvent>): (s: set<EdgeKey>)
  {
    if evs == [] then {} else SeenKeys(evs[..|evs| - 1]) + {EventKey(evs[|evs| - 1])}
  }

  /** The events that draw an edge: each one whose key no earlier event had. */
  function Kept(evs: seq<EqShareEvent>): seq<EqShareEvent>
  {
    if evs == [] then []
    else
      var init := evs[..|evs| - 1];
      var ev := evs[|evs| - 1];
      if EventKey(ev) in SeenKeys(init) then Kept(init) else Kept(init) + [ev]
  }

  /** The terms in the order the exporter looks them up: `a`, then `b`, per event. */
  function EndpointSeq(evs: seq<EqShareEvent>): seq<TermId>
  {
    if evs == [] then [] else EndpointSeq(evs[..|evs| - 1]) + [evs[|evs| - 1].a, evs[|evs| - 1].b]
  }

  /** The `term_nodes` map after looking up every term of `ts`: an unseen
      term gets the next free number. */
  function Numbering(ts: seq<TermId>): map<TermId, nat>
  {
    if ts == [] then map[] else NumberStep(Numbering(ts[..|ts| - 1]), ts[|ts| - 1])
  }

  function NumberStep(m: map<TermId, nat>, t: TermId): map<TermId, nat>
  {
    if t in m then m else m[t := |m|]
  }

  predicate ExplainsValid(evs: seq<EqShareEvent>, n: nat)
  {
    forall i :: 0 <= i < |evs| ==> evs[i].explain < n
  }

  predicate Numbered(evs: seq<EqShareEvent>, num: map<TermId, nat>)
  {
    forall i :: 0 <= i < |evs| ==> evs[i].a in num && evs[i].b in num
  }

  /** Every pair `t` numbered in `m` keeps its number in `m'`. */
  predicate Extends(m: map<TermId, nat>, m': map<TermId, nat>)
  {
    forall t :: t in m ==> t in m' && m'[t] == m[t]
  }

  ghost function EdgeOf(rs: seq<Reason>, ev: EqShareEvent, num: map<TermId, nat>, limits: EqDotLimits): EqEdge
    requires WellFormed(rs) && ev.explain < |rs| && ev.a in num && ev.b in num
  {
    var lits := Expansion(rs, ev.explain);
    EqEdge(num[ev.a], num[ev.b], ev.src, ev.dst, ev.epoch, ev.explain,
           Take(lits, limits.maxReasonLits), |lits| > limits.maxReasonLits, limits.includeReasonNodes)
  }

  /** The edges drawn for the kept events, in event order. */
  ghost function EqEdges(rs: seq<Reason>, kept: seq<EqShareEvent>, num: map<TermId, nat>, limits: EqDotLimits): seq<EqEdge>
    requires WellFormed(rs) && ExplainsValid(kept, |rs|) && Numbered(kept, num)
  {
    if kept == [] then []
    else EqEdges(rs, kept[..|kept| - 1], num, limits) + [EdgeOf(rs, kept[|kept| - 1], num, limits)]
  }

  // ---------------------------------------------------------------------
  // Deduplication

  lemma {:induction false} SeenKeysMembers(evs: seq<EqShareEvent>)
    ensures forall i :: 0 <= i < |evs| ==> EventKey(evs[i]) in SeenKeys(evs)
    ensures forall k :: k in SeenKeys(evs) ==> exists i :: 0 <= i < |evs| && EventKey(evs[i]) == k
  {
    if evs != [] {
      var init := evs[..|evs| - 1];
      SeenKeysMembers(init);
      assert forall i :: 0 <= i < |init| ==> evs[i] == init[i];
    }
  }

  /** The kept events, in order, are a selection of the input events. */
  lemma {:induction false} KeptFromEvents(evs: seq<EqShareEvent>)
    ensures |Kept(evs)| <= |evs|
    ensures forall k :: 0 <= k < |Kept(evs)| ==> exists i :: 0 <= i < |evs| && evs[i] == Kept(evs)[k]
  {
    if evs != [] {
      var init := evs[..|evs| - 1];
      KeptFromEvents(init);
      assert forall i :: 0 <= i < |init| ==> evs[i] == init[i];
    }
  }

  /** No two edges are drawn for the same key. */
  lemma {:induction false} KeptDistinct(evs: seq<EqShareEvent>)
    ensures forall k, l :: 0 <= k < l < |Kept(evs)| ==> EventKey(Kept(evs)[k]) != EventKey(Kept(evs)[l])
  {
    if evs != [] {
      var init := evs[..|evs| - 1];
      var ev := evs[|evs| - 1];
      KeptDistinct(init);
      if EventKey(ev) !in SeenKeys(init) {
        KeptFromEvents(init);
        SeenKeysMembers(init);
        forall k | 0 <= k < |Kept(init)|
          ensures EventKey(Kept(init)[k]) != EventKey(ev)
        {
          var i :| 0 <= i < |init| && init[i] == Kept(init)[k];
        }
      }
    }
  }

  /** Every input event's key is drawn: `k` is the kept event carrying
      the key of event `i`. */
  lemma {:induction false} KeptCovers(evs: seq<EqShareEvent>, i: nat) returns (k: nat)
    requires i < |evs|
    ensures k < |Kept(evs)| && EventKey(Kept(evs)[k]) == EventKey(evs[i])
    decreases |evs|
  {
    var init := evs[..|evs| - 1];
    var ev := evs[|evs| - 1];
    assert Kept(init) <= Kept(evs);
    if i < |init| {
      assert evs[i] == init[i];
      k := KeptCovers(init, i);
    } else if EventKey(ev) in SeenKeys(init) {
      SeenKeysMembers(init);
      var j :| 0 <= j < |init| && EventKey(init[j]) == EventKey(ev);
      k := KeptCovers(init, j);
    } else {
      k := |Kept(evs)| - 1;
    }
  }

  /** Processing more events only appends to the kept list. */
  lemma {:induction false} KeptPrefix(evs: seq<EqShareEvent>, i: nat)
    requires i <= |evs|
    ensures Kept(evs[..i]) <= Kept(evs)
    decreases |evs|
  {
    if i < |evs| {
      var init := evs[..|evs| - 1];
      assert evs[..i] == init[..i];
      KeptPrefix(init, i);
    } else {
      assert evs[..i] == evs;
    }
  }

  // ---------------------------------------------------------------------
  // Term numbering

  lemma {:induction false} NumberingShape(ts: seq<TermId>)
    ensures forall i :: 0 <= i < |ts| ==> ts[i] in Numbering(ts)
    ensures forall t :: t in Numbering(ts) ==> exists i :: 0 <= i < |ts| && ts[i] == t
    ensures forall t :: t in Numbering(ts) ==> Numbering(ts)[t] < |Numbering(ts)|
  {
    if ts != [] {
      var init := ts[..|ts| - 1];
      NumberingShape(init);
      assert forall i :: 0 <= i < |init| ==> ts[i] == init[i];
    }
  }

  /** Distinct terms get distinct node numbers. */
  lemma {:induction false} NumberingInjective(ts: seq<TermId>)
    ensures forall t, u :: t in Numbering(ts) && u in Numbering(ts) && t != u ==> Numbering(ts)[t] != Numbering(ts)[u]
  {
    if ts != [] {
      var init := ts[..|ts| - 1];
      NumberingInjective(init);
      NumberingShape(init);
    }
  }

  /** A number, once given, is never changed. */
  lemma {:induction false} NumberingExtends(ts: seq<TermId>, i: nat)
    requires i <= |ts|
    ensures Extends(Numbering(ts[..i]), Numbering(ts))
    decreases |ts|
  {
    if i < |ts| {
      var init := ts[..|ts| - 1];
      assert ts[..i] == init[..i];
      NumberingExtends(init, i);
    } else {
      assert ts[..i] == ts;
    }
  }

  /** Numbers follow first appearance: a term met for the first time at
      position `j` gets a larger number than every term met before it. */
  lemma NumberingFirstOccurrence(ts: seq<TermId>, i: nat, j: nat)
    requires i < j < |ts| && ts[j] !in ts[..j]
    ensures ts[i] in Numbering(ts) && ts[j] in Numbering(ts)
    ensures Numbering(ts)[ts[i]] < Numbering(ts)[ts[j]]
  {
    var before := Numbering(ts[..j]);
    NumberingShape(ts[..j]);
    assert ts[..j+1][..j] == ts[..j];
    assert ts[..j+1][j] == ts[j];
    assert ts[j] !in before;
    assert Numbering(ts[..j+1]) == before[ts[j] := |before|];
    assert ts[..j][i] == ts[i];
    NumberingExtends(ts, j + 1);
  }

  lemma NumberingPair(ts: seq<TermId>, a: TermId, b: TermId)
    ensures Numbering(ts + [a, b]) == NumberStep(NumberStep(Numbering(ts), a), b)
  {
    var s := ts + [a, b];
    assert s[..|s| - 1] == ts + [a];
    assert (ts + [a])[..|ts|] == ts;
  }

  lemma EndpointSeqSnoc(evs: seq<EqShareEvent>, ev: EqShareEvent)
    ensures EndpointSeq(evs + [ev]) == EndpointSeq(evs) + [ev.a, ev.b]
  {
    assert (evs + [ev])[..|evs|] == evs;
  }

  lemma {:induction false} EndpointSeqShape(evs: seq<EqShareEvent>)
    ensures |EndpointSeq(evs)| == 2 * |evs|
    ensures forall k :: 0 <= k < |evs| ==> EndpointSeq(evs)[2 * k] == evs[k].a && EndpointSeq(evs)[2 * k + 1] == evs[k].b
  {
    if evs != [] {
      var init := evs[..|evs| - 1];
      EndpointSeqShape(init);
      assert forall k :: 0 <= k < |init| ==> evs[k] == init[k];
    }
  }

  /** Every endpoint of every event has a term node. */
  lemma EndpointsNumbered(evs: seq<EqShareEvent>)
    ensures Numbered(evs, Numbering(EndpointSeq(evs)))
  {
    EndpointSeqShape(evs);
    NumberingShape(EndpointSeq(evs));
    forall k | 0 <= k < |evs|
      ensures evs[k].a in Numbering(EndpointSeq(evs)) && evs[k].b in Numbering(EndpointSeq(evs))
    {
      assert EndpointSeq(evs)[2 * k] == evs[k].a;
      assert EndpointSeq(evs)[2 * k + 1] == evs[k].b;
    }
  }

  /** The endpoints of an event whose key was already seen are numbered already. */
  lemma SeenEndpointsNumbered(init: seq<EqShareEvent>, ev: EqShareEvent)
    requires EventKey(ev) in SeenKeys(init)
    ensures ev.a in Numbering(EndpointSeq(init)) && ev.b in Numbering(EndpointSeq(init))
  {
    SeenKeysMembers(init);
    var i :| 0 <= i < |init| && EventKey(init[i]) == EventKey(ev);
    EndpointSeqShape(init);
    NumberingShape(EndpointSeq(init));
    assert EndpointSeq(init)[2 * i] == init[i].a;
    assert EndpointSeq(init)[2 * i + 1] == init[i].b;
    assert {ev.a, ev.b} == {init[i].a, init[i].b};
    assert ev.a in {init[i].a, init[i].b} && ev.b in {init[i].a, init[i].b};
  }

  /** Dropping an event whose key was seen adds no term: both of its terms
      already belong to the earlier event with that key. So the node
      numbering of the kept events is that of all shown events. */
  lemma {:induction false} KeptNumbering(evs: seq<EqShareEvent>)
    ensures Numbering(EndpointSeq(Kept(evs))) == Numbering(EndpointSeq(evs))
  {
    if evs != [] {
      var init := evs[..|evs| - 1];
      var ev := evs[|evs| - 1];
      KeptNumbering(init);
      EndpointSeqSnoc(init, ev);
      assert init + [ev] == evs;
      NumberingPair(EndpointSeq(init), ev.a, ev.b);
      if EventKey(ev) in SeenKeys(init) {
        SeenEndpointsNumbered(init, ev);
      } else {
        EndpointSeqSnoc(Kept(init), ev);
        NumberingPair(EndpointSeq(Kept(init)), ev.a, ev.b);
      }
    }
  }

  // ---------------------------------------------------------------------
  // Edges

  lemma {:induction false} EqEdgesExtend(rs: seq<Reason>, kept: seq<EqShareEvent>, num: map<TermId, nat>,
                                         num': map<TermId, nat>, limits: EqDotLimits)
    requires WellFormed(rs) && ExplainsValid(kept, |rs|) && Numbered(kept, num) && Extends(num, num')
    ensures Numbered(kept, num')
    ensures EqEdges(rs, kept, num, limits) == EqEdges(rs, kept, num', limits)
  {
    if kept != [] {
      EqEdgesExtend(rs, kept[..|kept| - 1], num, num', limits);
    }
  }

  /** The edge drawn for the `k`-th kept event joins its two terms' nodes and
      shows at most `maxReasonLits` literals of its reason, with the marker
      exactly when some were left out. */
  lemma {:induction false} EqEdgesMembers(rs: seq<Reason>, kept: seq<EqShareEvent>, num: map<TermId, nat>, limits: EqDotLimits)
    requires WellFormed(rs) && ExplainsValid(kept, |rs|) && Numbered(kept, num)
    ensures |EqEdges(rs, kept, num, limits)| == |kept|
    ensures forall k :: 0 <= k < |kept| ==>
      var e := EqEdges(rs, kept, num, limits)[k];
      var lits := Expansion(rs, kept[k].explain);
      e.from == num[kept[k].a] && e.to == num[kept[k].b] &&
      e.src == kept[k].src && e.dst == kept[k].dst && e.epoch == kept[k].epoch &&
      e.explain == kept[k].explain && |e.lits| <= limits.maxReasonLits && e.lits <= lits &&
      (e.more <==> |lits| > limits.maxReasonLits) &&
      (!e.more ==> e.lits == lits) && (e.reasonBox <==> limits.includeReasonNodes)
  {
    if kept != [] {
      var init := kept[..|kept| - 1];
      EqEdgesMembers(rs, init, num, limits);
      assert forall k :: 0 <= k < |init| ==> kept[k] == init[k];
    }
  }

  // ---------------------------------------------------------------------
  // The exporter loop

  /** What one more event does to the seen keys and the kept events. */
  lemma EventStep(pre: seq<EqShareEvent>, i: nat)
    requires i < |pre|
    ensures SeenKeys(pre[..i + 1]) == SeenKeys(pre[..i]) + {EventKey(pre[i])}
    ensures Kept(pre[..i + 1]) == if EventKey(pre[i]) in SeenKeys(pre[..i]) then Kept(pre[..i]) else Kept(pre[..i]) + [pre[i]]
    ensures Kept(pre[..i + 1]) <= Kept(pre)
  {
    assert pre[..i + 1][..i] == pre[..i] && pre[..i + 1][i] == pre[i];
    KeptPrefix(pre, i + 1);
  }

  lemma ExplainsValidPrefix(a: seq<EqShareEvent>, b: seq<EqShareEvent>, n: nat)
    requires a <= b && ExplainsValid(b, n)
    ensures ExplainsValid(a, n)
  {
    assert forall i :: 0 <= i < |a| ==> a[i] == b[i];
  }

  /** Drawing one new event keeps the loop's account of the kept events. */
  lemma KeepStep(rs: seq<Reason>, kept: seq<EqShareEvent>, ev: EqShareEvent, edges: seq<EqEdge>,
                 num: map<TermId, nat>, num': map<TermId, nat>, limits: EqDotLimits)
    requires WellFormed(rs) && ExplainsValid(kept, |rs|) && ev.explain < |rs|
    requires num == Numbering(EndpointSeq(kept)) && Numbered(kept, num)
    requires edges == EqEdges(rs, kept, num, limits)
    requires num' == NumberStep(NumberStep(num, ev.a), ev.b)
    ensures num' == Numbering(EndpointSeq(kept + [ev]))
    ensures Numbered(kept + [ev], num')
    ensures edges + [EdgeOf(rs, ev, num', limits)] == EqEdges(rs, kept + [ev], num', limits)
  {
    assert Extends(num, num');
    EqEdgesExtend(rs, kept, num, num', limits);
    EndpointSeqSnoc(kept, ev);
    NumberingPair(EndpointSeq(kept), ev.a, ev.b);
    EqEdgesSnoc(rs, kept, ev, num', limits);
  }

  lemma NumberedSnoc(kept: seq<EqShareEvent>, ev: EqShareEvent, num: map<TermId, nat>)
    requires Numbered(kept, num) && ev.a in num && ev.b in num
    ensures Numbered(kept + [ev], num)
  {
    assert forall i :: 0 <= i < |kept| ==> (kept + [ev])[i] == kept[i];
  }

  lemma EqEdgesSnoc(rs: seq<Reason>, kept: seq<EqShareEvent>, ev: EqShareEvent, num: map<TermId, nat>,
                    limits: EqDotLimits)
    requires WellFormed(rs) && ExplainsValid(kept, |rs|) && ev.explain < |rs|
    requires Numbered(kept, num) && ev.a in num && ev.b in num
    ensures Numbered(kept + [ev], num) && ExplainsValid(kept + [ev], |rs|)
    ensures EqEdges(rs, kept + [ev], num, limits) == EqEdges(rs, kept, num, limits) + [EdgeOf(rs, ev, num, limits)]
  {
    NumberedSnoc(kept, ev, num);
    assert forall i :: 0 <= i < |kept| ==> (kept + [ev])[i] == kept[i];
    assert (kept + [ev])[..|kept|] == kept;
  }

  /** The body of the event loop for an event with a new key: look up (or
      number) its two terms, expand its reason and draw the edge. */
  method DrawEvent(reasons: ReasonArena, ev: EqShareEvent, limits: EqDotLimits,
                   termNodes: map<TermId, nat>, nextTerm: nat, edges: seq<EqEdge>, ghost kept: seq<EqShareEvent>)
    returns (termNodes': map<TermId, nat>, nextTerm': nat, edges': seq<EqEdge>)
    requires reasons.Valid() && ExplainsValid(kept, |reasons.reasons|) && ev.explain < |reasons.reasons|
    requires termNodes == Numbering(EndpointSeq(kept)) && nextTerm == |termNodes| && Numbered(kept, termNodes)
    requires edges == EqEdges(reasons.reasons, kept, termNodes, limits)
    ensures termNodes' == Numbering(EndpointSeq(kept + [ev])) && nextTerm' == |termNodes'|
    ensures Numbered(kept + [ev], termNodes')
    ensures edges' == EqEdges(reasons.reasons, kept + [ev], termNodes', limits)
  {
    termNodes', nextTerm' := termNodes, nextTerm;
    if ev.a !in termNodes' {
      termNodes' := termNodes'[ev.a := nextTerm'];
      nextTerm' := nextTerm' + 1;
    }
    if ev.b !in termNodes' {
      termNodes' := termNodes'[ev.b := nextTerm'];
      nextTerm' := nextTerm' + 1;
    }
    var na := termNodes'[ev.a];
    var nb := termNodes'[ev.b];
    var lits := reasons.ExpandLits(ev.explain);
    KeepStep(reasons.reasons, kept, ev, edges, termNodes, termNodes', limits);
    edges' := edges + [EqEdge(na, nb, ev.src, ev.dst, ev.epoch, ev.explain,
                              Take(lits, limits.maxReasonLits), |lits| > limits.maxReasonLits,
                              limits.includeReasonNodes)];
  }

  /** The loop's account of the first `i` shown events. */
  ghost predicate LoopState(rs: seq<Reason>, pre: seq<EqShareEvent>, i: nat, limits: EqDotLimits,
                            edgeSeen: set<EdgeKey>, termNodes: map<TermId, nat>, nextTerm: nat,
                            edges: seq<EqEdge>, kept: seq<EqShareEvent>)
  {
    && WellFormed(rs) && ExplainsValid(Kept(pre), |rs|)
    && i <= |pre|
    && edgeSeen == SeenKeys(pre[..i])
    && kept == Kept(pre[..i]) && kept <= Kept(pre)
    && termNodes == Numbering(EndpointSeq(kept)) && nextTerm == |termNodes|
    && Numbered(kept, termNodes)
    && ExplainsValid(kept, |rs|)
    && edges == EqEdges(rs, kept, termNodes, limits)
  }

  /** One turn of the event loop: skip an event whose key was seen, draw the rest. */
  method StepEvent(reasons: ReasonArena, pre: seq<EqShareEvent>, i: nat, limits: EqDotLimits,
                   edgeSeen: set<EdgeKey>, termNodes: map<TermId, nat>, nextTerm: nat,
                   edges: seq<EqEdge>, ghost kept: seq<EqShareEvent>)
    returns (edgeSeen': set<EdgeKey>, termNodes': map<TermId, nat>, nextTerm': nat,
             edges': seq<EqEdge>, ghost kept': seq<EqShareEvent>)
    requires reasons.Valid() && i < |pre|
    requires LoopState(reasons.reasons, pre, i, limits, edgeSeen, termNodes, nextTerm, edges, kept)
    ensures LoopState(reasons.reasons, pre, i + 1, limits, edgeSeen', termNodes', nextTerm', edges', kept')
  {
    var ev := pre[i];
    EventStep(pre, i);
    edgeSeen', termNodes', nextTerm', edges', kept' := edgeSeen, termNodes, nextTerm, edges, kept;
    if EventKey(ev) !in edgeSeen {
      edgeSeen' := edgeSeen + {EventKey(ev)};
      ExplainsValidPrefix(kept + [ev], Kept(pre), |reasons.reasons|);
      assert (kept + [ev])[|kept|] == ev;
      termNodes', nextTerm', edges' := DrawEvent(reasons, ev, limits, termNodes, nextTerm, edges, kept);
      kept' := kept + [ev];
    }
  }

  /** The event loop over the shown events `pre`. */
  method DrawEvents(reasons: ReasonArena, pre: seq<EqShareEvent>, limits: EqDotLimits)
    returns (edges: seq<EqEdge>, termNodes: map<TermId, nat>)
    requires reasons.Valid() && ExplainsValid(Kept(pre), |reasons.reasons|)
    ensures termNodes == Numbering(EndpointSeq(Kept(pre)))
    ensures Numbered(Kept(pre), termNodes)
    ensures edges == EqEdges(reasons.reasons, Kept(pre), termNodes, limits)
  {
    var edgeSeen: set<EdgeKey> := {};
    termNodes := map[];
    var nextTerm: nat := 0;
    edges := [];
    ghost var kept: seq<EqShareEvent> := [];
    var i := 0;
    while i < |pre|
      invariant i <= |pre|
      invariant LoopState(reasons.reasons, pre, i, limits, edgeSeen, termNodes, nextTerm, edges, kept)
    {
      edgeSeen, termNodes, nextTerm, edges, kept := StepEvent(reasons, pre, i, limits, edgeSeen, termNodes, nextTerm, edges, kept);
      i := i + 1;
    }
    assert pre[..i] == pre;
  }

  /** `eqshare_to_dot`: the graph drawn for `events`. Term labels and theory
      names are text only and are not modelled. */
  method EqShareToDot(reasons: ReasonArena, events: seq<EqShareEvent>, limits: EqDotLimits) returns (g: EqShareGraph)
    requires reasons.Valid()
    requires ExplainsValid(Kept(Take(events, limits.maxEvents)), |reasons.reasons|)
    ensures g.truncated <==> |events| > limits.maxEvents
    ensures g.termNodes == Numbering(EndpointSeq(Take(events, limits.maxEvents)))
    ensures Numbered(Kept(Take(events, limits.maxEvents)), g.termNodes)
    ensures g.edges == EqEdges(reasons.reasons, Kept(Take(events, limits.maxEvents)), g.termNodes, limits)
    ensures |g.edges| <= limits.maxEvents
  {
    var pre := Take(events, limits.maxEvents);
    var edges, termNodes := DrawEvents(reasons, pre, limits);
    KeptNumbering(pre);
    KeptFromEvents(pre);
    EqEdgesMembers(reasons.reasons, Kept(pre), termNodes, limits);
    g := EqShareGraph(edges, termNodes, |events| > limits.maxEvents);
  }
}
