/** The bounded breadth-first export of a reason DAG as a graph: node order,
    node naming by visit index, node shapes and the edges between named
    nodes. The text of the DOT output is not modelled. */
module ReasonDot {
  import opened Sat
  import opened Reasons

  datatype DotLimits = DotLimits(maxReasonNodes: nat, maxLitLabelLen: nat)

  function DefaultDotLimits(): (l: DotLimits)
    ensures l.maxReasonNodes == 300 && l.maxLitLabelLen == 64
  {
    DotLimits(300, 64)
  }

  /** The visit order never exceeds `max(1, maxReasonNodes)`: the root is
      recorded before the cap is checked. */
  function NodeCap(maxNodes: nat): (c: nat)
    ensures c >= 1 && c >= maxNodes
    ensures maxNodes >= 1 ==> c == maxNodes
  {
    if maxNodes < 1 then 1 else maxNodes
  }

  predicate Distinct(ids: seq<ReasonId>)
  {
    forall i, j :: 0 <= i < j < |ids| ==> ids[i] != ids[j]
  }

  /** Every entry after the first was reached as child number `pos[i]` of
      the entry `par[i]`, where `par[i] < done` (already visited), and the
      pairs (par, pos) strictly increase: children are queued parent by
      parent in visit order, each parent's children in list order. */
  ghost predicate BfsShape(rs: seq<Reason>, vis: seq<ReasonId>, par: seq<nat>, pos: seq<nat>, done: nat)
  {
    && Below(vis, |rs|)
    && |par| == |vis| && |pos| == |vis|
    && (forall i :: 1 <= i < |vis| ==>
          par[i] < done && par[i] < i
          && pos[i] < |Kids(rs[vis[par[i]]])| && vis[i] == Kids(rs[vis[par[i]]])[pos[i]])
    && (forall i, j :: 1 <= i < j < |vis| ==> par[i] < par[j] || (par[i] == par[j] && pos[i] < pos[j]))
  }

  /** Every child that comes before slot (`p0`, `c0`) in (parent, position)
      order, among the parents in `pre`, is already in `pre`. */
  ghost predicate SightedBefore(rs: seq<Reason>, pre: seq<ReasonId>, p0: nat, c0: nat)
  {
    Below(pre, |rs|)
    && forall p, c :: 0 <= p < |pre| && 0 <= c < |Kids(rs[pre[p]])| && (p < p0 || (p == p0 && c < c0))
         ==> Kids(rs[pre[p]])[c] in pre
  }

  /** Every entry after the first is the first child not yet listed: no
      child in an earlier (parent, position) slot was left out before it. */
  ghost predicate FirstSighting(rs: seq<Reason>, vis: seq<ReasonId>, par: seq<nat>, pos: seq<nat>)
  {
    |par| == |vis| && |pos| == |vis|
    && forall i :: 1 <= i < |vis| ==> SightedBefore(rs, vis[..i], par[i], pos[i])
  }

  /** Every child of every node in `order` is in `order`. */
  ghost predicate Closed(rs: seq<Reason>, order: seq<ReasonId>)
    requires Below(order, |rs|)
  {
    forall i, c :: 0 <= i < |order| && 0 <= c < |Kids(rs[order[i]])| ==> Kids(rs[order[i]])[c] in order
  }

  /** A chain of handles each of which is a child of the one before. */
  ghost predicate IsPath(rs: seq<Reason>, path: seq<ReasonId>)
  {
    |path| >= 1 && Below(path, |rs|)
    && forall i :: 0 <= i < |path| - 1 ==> path[i + 1] in Kids(rs[path[i]])
  }

  ghost predicate Reachable(rs: seq<Reason>, root: ReasonId, x: ReasonId)
  {
    exists path :: IsPath(rs, path) && path[0] == root && path[|path| - 1] == x
  }

  /** Every node of a breadth-first order is reachable from its first node. */
  lemma BfsReachable(rs: seq<Reason>, vis: seq<ReasonId>, par: seq<nat>, pos: seq<nat>, done: nat, i: nat)
    requires BfsShape(rs, vis, par, pos, done) && i < |vis|
    ensures Reachable(rs, vis[0], vis[i])
    decreases i
  {
    if i == 0 {
      assert IsPath(rs, [vis[0]]);
    } else {
      BfsReachable(rs, vis, par, pos, done, par[i]);
      var path :| IsPath(rs, path) && path[0] == vis[0] && path[|path| - 1] == vis[par[i]];
      var path' := path + [vis[i]];
      assert path'[|path'| - 2] == vis[par[i]];
      assert IsPath(rs, path');
    }
  }

  /** A closed order that holds the root holds everything reachable. */
  lemma ClosedHoldsReachable(rs: seq<Reason>, order: seq<ReasonId>, root: ReasonId, x: ReasonId)
    requires Below(order, |rs|) && Closed(rs, order) && root in order
    requires Reachable(rs, root, x)
    ensures x in order
  {
    var path :| IsPath(rs, path) && path[0] == root && path[|path| - 1] == x;
    var k := 0;
    while k < |path| - 1
      invariant 0 <= k < |path|
      invariant path[k] in order
    {
      var i :| 0 <= i < |order| && order[i] == path[k];
      var kids := Kids(rs[order[i]]);
      assert path[k + 1] in kids;
      var c :| 0 <= c < |kids| && kids[c] == path[k + 1];
      k := k + 1;
    }
  }

  /** The unvisited handles, the first component of the BFS measure. */
  ghost function Unseen(n: nat, seen: set<ReasonId>): set<ReasonId>
  {
    set x | 0 <= x < n && x !in seen
  }

  /** The loop state of the traversal: `vis` is every handle ever queued,
      the visited ones first, each once; `seen` is the set of them. */
  ghost predicate BfsState(rs: seq<Reason>, root: ReasonId, order: seq<ReasonId>, queue: seq<ReasonId>,
                           seen: set<ReasonId>, vis: seq<ReasonId>, par: seq<nat>, pos: seq<nat>)
  {
    && vis == order + queue && |vis| >= 1 && vis[0] == root
    && Below(order, |rs|) && Below(queue, |rs|)
    && BfsShape(rs, vis, par, pos, |order|)
    && FirstSighting(rs, vis, par, pos)
    && Distinct(vis)
    && seen == set x | x in vis
  }

  /** The children of the first `m` visited nodes have all been queued. */
  ghost predicate KidsSeen(rs: seq<Reason>, order: seq<ReasonId>, m: nat, seen: set<ReasonId>)
    requires Below(order, |rs|) && m <= |order|
  {
    forall i, c :: 0 <= i < m && 0 <= c < |Kids(rs[order[i]])| ==> Kids(rs[order[i]])[c] in seen
  }

  /** Visiting the head of the queue keeps the loop state. */
  lemma PopKeepsState(rs: seq<Reason>, root: ReasonId, order: seq<ReasonId>, queue: seq<ReasonId>,
                      seen: set<ReasonId>, vis: seq<ReasonId>, par: seq<nat>, pos: seq<nat>)
    requires BfsState(rs, root, order, queue, seen, vis, par, pos) && queue != []
    ensures BfsState(rs, root, order + [queue[0]], queue[1..], seen, vis, par, pos)
  {
    assert vis == (order + [queue[0]]) + queue[1..];
  }

  /** Appending child number `c` of node `p` keeps the breadth-first shape
      when every earlier entry came from an earlier parent or an earlier
      child of `p`. */
  lemma ShapePush(rs: seq<Reason>, vis: seq<ReasonId>, par: seq<nat>, pos: seq<nat>, done: nat, p: nat, c: nat)
    requires BfsShape(rs, vis, par, pos, done)
    requires p < done && p < |vis| && c < |Kids(rs[vis[p]])| && Kids(rs[vis[p]])[c] < |rs|
    requires forall i :: 1 <= i < |vis| ==> par[i] < p || (par[i] == p && pos[i] < c)
    ensures BfsShape(rs, vis + [Kids(rs[vis[p]])[c]], par + [p], pos + [c], done)
  {
    var k := Kids(rs[vis[p]])[c];
    ShapePushLinks(rs, vis, par, pos, done, p, c);
    ShapePushOrder(vis, par, pos, p, c, k);
  }

  lemma ShapePushLinks(rs: seq<Reason>, vis: seq<ReasonId>, par: seq<nat>, pos: seq<nat>, done: nat, p: nat, c: nat)
    requires BfsShape(rs, vis, par, pos, done)
    requires p < done && p < |vis| && c < |Kids(rs[vis[p]])| && Kids(rs[vis[p]])[c] < |rs|
    ensures var vis', par', pos' := vis + [Kids(rs[vis[p]])[c]], par + [p], pos + [c];
      Below(vis', |rs|)
      && forall i :: 1 <= i < |vis'| ==>
        par'[i] < done && par'[i] < i
        && pos'[i] < |Kids(rs[vis'[par'[i]]])| && vis'[i] == Kids(rs[vis'[par'[i]]])[pos'[i]]
  {
    var k := Kids(rs[vis[p]])[c];
    var vis', par', pos' := vis + [k], par + [p], pos + [c];
    forall i | 1 <= i < |vis'|
      ensures par'[i] < done && par'[i] < i
      ensures pos'[i] < |Kids(rs[vis'[par'[i]]])| && vis'[i] == Kids(rs[vis'[par'[i]]])[pos'[i]]
    {
      if i == |vis| {
        assert vis'[par'[i]] == vis[p];
      } else {
        assert vis'[i] == vis[i] && par'[i] == par[i] && pos'[i] == pos[i];
        assert vis'[par[i]] == vis[par[i]];
      }
    }
  }

  lemma ShapePushOrder(vis: seq<ReasonId>, par: seq<nat>, pos: seq<nat>, p: nat, c: nat, k: ReasonId)
    requires |par| == |vis| && |pos| == |vis|
    requires forall i, j :: 1 <= i < j < |vis| ==> par[i] < par[j] || (par[i] == par[j] && pos[i] < pos[j])
    requires forall i :: 1 <= i < |vis| ==> par[i] < p || (par[i] == p && pos[i] < c)
    ensures var par', pos' := par + [p], pos + [c];
      forall i, j :: 1 <= i < j < |vis| + 1 ==> par'[i] < par'[j] || (par'[i] == par'[j] && pos'[i] < pos'[j])
  {
  }

  /** Queueing an unseen child, child number `c` of the node visited last,
      keeps the loop state and the (parent, position) order. */
  lemma PushKeepsState(rs: seq<Reason>, root: ReasonId, order: seq<ReasonId>, queue: seq<ReasonId>,
                       seen: set<ReasonId>, vis: seq<ReasonId>, par: seq<nat>, pos: seq<nat>, kids: seq<ReasonId>, c: nat)
    requires BfsState(rs, root, order, queue, seen, vis, par, pos) && order != []
    requires c < |Kids(rs[order[|order| - 1]])|
    requires Kids(rs[order[|order| - 1]])[c] !in seen && Kids(rs[order[|order| - 1]])[c] < |rs|
    requires forall i :: 1 <= i < |vis| ==> par[i] < |order| - 1 || (par[i] == |order| - 1 && pos[i] < c)
    requires KidsSeen(rs, order, |order| - 1, seen)
    requires kids == Kids(rs[order[|order| - 1]]) && forall c' :: 0 <= c' < c ==> kids[c'] in seen
    ensures var k := Kids(rs[order[|order| - 1]])[c];
      BfsState(rs, root, order, queue + [k], seen + {k}, vis + [k], par + [|order| - 1], pos + [c])
  {
    var p := |order| - 1;
    assert vis[p] == order[p];
    var k := Kids(rs[order[p]])[c];
    ShapePush(rs, vis, par, pos, |order|, p, c);
    SightingPush(rs, root, order, queue, seen, vis, par, pos, kids, c);
    var vis' := vis + [k];
    assert vis' == order + (queue + [k]);
    assert (set x | x in vis') == (set x | x in vis) + {k};
    assert k !in vis;
    forall i, j | 0 <= i < j < |vis'|
      ensures vis'[i] != vis'[j]
    {
      if j == |vis| {
        assert vis'[i] == vis[i];
      } else {
        assert vis'[i] == vis[i] && vis'[j] == vis[j];
      }
    }
  }

  /** Queueing child number `c` of the node visited last, when every earlier
      child slot has been seen, keeps every entry the first child not yet
      listed. */
  lemma SightingPush(rs: seq<Reason>, root: ReasonId, order: seq<ReasonId>, queue: seq<ReasonId>,
                     seen: set<ReasonId>, vis: seq<ReasonId>, par: seq<nat>, pos: seq<nat>, kids: seq<ReasonId>, c: nat)
    requires BfsState(rs, root, order, queue, seen, vis, par, pos) && order != []
    requires c < |Kids(rs[order[|order| - 1]])| && Kids(rs[order[|order| - 1]])[c] < |rs|
    requires KidsSeen(rs, order, |order| - 1, seen)
    requires kids == Kids(rs[order[|order| - 1]]) && forall c' :: 0 <= c' < c ==> kids[c'] in seen
    ensures FirstSighting(rs, vis + [Kids(rs[order[|order| - 1]])[c]], par + [|order| - 1], pos + [c])
  {
    var p0 := |order| - 1;
    var k := Kids(rs[order[p0]])[c];
    var vis', par', pos' := vis + [k], par + [p0], pos + [c];
    forall i | 1 <= i < |vis'|
      ensures SightedBefore(rs, vis'[..i], par'[i], pos'[i])
    {
      if i < |vis| {
        assert vis'[..i] == vis[..i];
        assert par'[i] == par[i] && pos'[i] == pos[i];
      } else {
        assert vis'[..i] == vis;
        forall p, c' | 0 <= p < |vis| && 0 <= c' < |Kids(rs[vis[p]])| && (p < p0 || (p == p0 && c' < c))
          ensures Kids(rs[vis[p]])[c'] in vis
        {
          assert vis[p] == order[p];
          assert Kids(rs[order[p]])[c'] in seen;
        }
      }
    }
  }

  /** After visiting `r`, the earlier nodes' children are still queued, and
      so are `r`'s once the caller has queued them. */
  lemma KidsSeenVisit(rs: seq<Reason>, order: seq<ReasonId>, r: ReasonId, seen0: set<ReasonId>, seen: set<ReasonId>)
    requires Below(order, |rs|) && r < |rs| && KidsSeen(rs, order, |order|, seen0) && seen0 <= seen
    ensures Below(order + [r], |rs|)
    ensures KidsSeen(rs, order + [r], |order|, seen)
    ensures (forall c :: 0 <= c < |Kids(rs[r])| ==> Kids(rs[r])[c] in seen) ==> KidsSeen(rs, order + [r], |order| + 1, seen)
  {
    var order' := order + [r];
    assert forall i :: 0 <= i < |order| ==> order'[i] == order[i];
    assert order'[|order|] == r;
  }

  /** The visited prefix of the loop state is a breadth-first order on its own. */
  lemma VisitedPrefix(rs: seq<Reason>, root: ReasonId, order: seq<ReasonId>, queue: seq<ReasonId>,
                      seen: set<ReasonId>, vis: seq<ReasonId>, par: seq<nat>, pos: seq<nat>)
    requires BfsState(rs, root, order, queue, seen, vis, par, pos)
    ensures Distinct(order)
    ensures BfsShape(rs, order, par[..|order|], pos[..|order|], |order|)
    ensures FirstSighting(rs, order, par[..|order|], pos[..|order|])
  {
    assert forall i :: 0 <= i < |order| ==> order[i] == vis[i];
    assert forall i :: 1 <= i < |order| ==> order[..i] == vis[..i];
  }

  /** The account of the inner loop once the first `c` children of the node
      visited last have been offered, against the queue and seen set it
      started from. */
  ghost predicate EnqueueInv(rs: seq<Reason>, root: ReasonId, order: seq<ReasonId>, kids: seq<ReasonId>, c: nat,
                             queue0: seq<ReasonId>, seen0: set<ReasonId>, queue: seq<ReasonId>, seen: set<ReasonId>,
                             vis: seq<ReasonId>, par: seq<nat>, pos: seq<nat>)
  {
    && BfsState(rs, root, order, queue, seen, vis, par, pos)
    && order != [] && KidsSeen(rs, order, |order| - 1, seen)
    && (forall i :: 1 <= i < |vis| ==> par[i] < |order| - 1 || (par[i] == |order| - 1 && pos[i] < c))
    && (forall c' :: 0 <= c' < c && c' < |kids| ==> kids[c'] in seen)
    && seen0 <= seen && Unseen(|rs|, seen) <= Unseen(|rs|, seen0)
    && (Unseen(|rs|, seen) == Unseen(|rs|, seen0) ==> queue == queue0)
  }

  /** Offering child number `c` when it was seen already: nothing is queued. */
  lemma EnqueueSkip(rs: seq<Reason>, root: ReasonId, order: seq<ReasonId>, kids: seq<ReasonId>, c: nat,
                    queue0: seq<ReasonId>, seen0: set<ReasonId>, queue: seq<ReasonId>, seen: set<ReasonId>,
                    vis: seq<ReasonId>, par: seq<nat>, pos: seq<nat>)
    requires order != [] && order[|order| - 1] < |rs|
    requires kids == Kids(rs[order[|order| - 1]]) && c < |kids| && kids[c] in seen
    requires EnqueueInv(rs, root, order, kids, c, queue0, seen0, queue, seen, vis, par, pos)
    ensures EnqueueInv(rs, root, order, kids, c + 1, queue0, seen0, queue, seen, vis, par, pos)
  {
  }

  /** Offering child number `c` when it is unseen: it is queued. */
  lemma EnqueuePush(rs: seq<Reason>, root: ReasonId, order: seq<ReasonId>, kids: seq<ReasonId>, c: nat,
                    queue0: seq<ReasonId>, seen0: set<ReasonId>, queue: seq<ReasonId>, seen: set<ReasonId>,
                    vis: seq<ReasonId>, par: seq<nat>, pos: seq<nat>)
    requires WellFormed(rs) && order != [] && order[|order| - 1] < |rs|
    requires kids == Kids(rs[order[|order| - 1]]) && c < |kids| && kids[c] !in seen
    requires EnqueueInv(rs, root, order, kids, c, queue0, seen0, queue, seen, vis, par, pos)
    ensures EnqueueInv(rs, root, order, kids, c + 1, queue0, seen0, queue + [kids[c]], seen + {kids[c]},
                       vis + [kids[c]], par + [|order| - 1], pos + [c])
  {
    var r := order[|order| - 1];
    assert ChildrenBefore(rs[r], r);
    var k := kids[c];
    assert k in Unseen(|rs|, seen);
    PushKeepsState(rs, root, order, queue, seen, vis, par, pos, kids, c);
    assert Unseen(|rs|, seen + {k}) == Unseen(|rs|, seen) - {k};
    assert KidsSeen(rs, order, |order| - 1, seen + {k});
  }

  /** The inner loop of `reason_to_dot`: queues, in list order, every child
      of the node just visited that was not seen before. */
  method EnqueueKids(arena: ReasonArena, root: ReasonId, kids: seq<ReasonId>, ghost order: seq<ReasonId>,
                     queue: seq<ReasonId>, seen: set<ReasonId>, ghost vis: seq<ReasonId>, ghost par: seq<nat>, ghost pos: seq<nat>)
    returns (queue': seq<ReasonId>, seen': set<ReasonId>, ghost vis': seq<ReasonId>, ghost par': seq<nat>, ghost pos': seq<nat>)
    requires arena.Valid() && order != [] && order[|order| - 1] < |arena.reasons|
    requires kids == Kids(arena.reasons[order[|order| - 1]])
    requires BfsState(arena.reasons, root, order, queue, seen, vis, par, pos)
    requires forall i :: 1 <= i < |vis| ==> par[i] < |order| - 1
    requires KidsSeen(arena.reasons, order, |order| - 1, seen)
    ensures BfsState(arena.reasons, root, order, queue', seen', vis', par', pos')
    ensures forall c :: 0 <= c < |kids| ==> kids[c] in seen'
    ensures seen <= seen' && Unseen(|arena.reasons|, seen') <= Unseen(|arena.reasons|, seen)
    ensures Unseen(|arena.reasons|, seen') == Unseen(|arena.reasons|, seen) ==> queue' == queue
  {
    ghost var rs := arena.reasons;
    queue', seen', vis', par', pos' := queue, seen, vis, par, pos;
    for c := 0 to |kids|
      invariant EnqueueInv(rs, root, order, kids, c, queue, seen, queue', seen', vis', par', pos')
    {
      var k := kids[c];
      if k in seen' {
        EnqueueSkip(rs, root, order, kids, c, queue, seen, queue', seen', vis', par', pos');
      } else {
        EnqueuePush(rs, root, order, kids, c, queue, seen, queue', seen', vis', par', pos');
        seen' := seen' + {k};
        queue' := queue' + [k];
        vis' := vis' + [k];
        par' := par' + [|order| - 1];
        pos' := pos' + [c];
      }
    }
  }

  /** The account of the outer loop: the BFS state, the cap, and which
      visited nodes have had their children queued (all of them, or all but
      the last once the cap stopped the loop). */
  ghost predicate BfsLoop(rs: seq<Reason>, root: ReasonId, maxNodes: nat, order: seq<ReasonId>, queue: seq<ReasonId>,
                          seen: set<ReasonId>, vis: seq<ReasonId>, par: seq<nat>, pos: seq<nat>, stop: bool)
  {
    && BfsState(rs, root, order, queue, seen, vis, par, pos)
    && |order| <= NodeCap(maxNodes)
    && (stop ==> order != [] && |order| >= maxNodes)
    && (!stop ==> order == [] || |order| < maxNodes)
    && KidsSeen(rs, order, if stop then |order| - 1 else |order|, seen)
  }

  /** One turn of the outer loop: visit the head of the queue, stop if the
      order reached the cap, otherwise queue its unseen children. */
  method VisitHead(arena: ReasonArena, root: ReasonId, maxNodes: nat, order: seq<ReasonId>, queue: seq<ReasonId>,
                   seen: set<ReasonId>, ghost vis: seq<ReasonId>, ghost par: seq<nat>, ghost pos: seq<nat>)
    returns (order': seq<ReasonId>, queue': seq<ReasonId>, seen': set<ReasonId>, stop': bool,
             ghost vis': seq<ReasonId>, ghost par': seq<nat>, ghost pos': seq<nat>)
    requires arena.Valid() && queue != []
    requires BfsLoop(arena.reasons, root, maxNodes, order, queue, seen, vis, par, pos, false)
    ensures BfsLoop(arena.reasons, root, maxNodes, order', queue', seen', vis', par', pos', stop')
    ensures Unseen(|arena.reasons|, seen') < Unseen(|arena.reasons|, seen)
      || (Unseen(|arena.reasons|, seen') == Unseen(|arena.reasons|, seen) && |queue'| < |queue|)
  {
    ghost var rs := arena.reasons;
    var r := queue[0];
    PopKeepsState(rs, root, order, queue, seen, vis, par, pos);
    queue', seen', vis', par', pos' := queue[1..], seen, vis, par, pos;
    order' := order + [r];
    stop' := |order'| >= maxNodes;
    KidsSeenVisit(rs, order, r, seen, seen);
    if !stop' {
      match arena.Get(r)
      case Atom(_) =>
      case And(kids) =>
        queue', seen', vis', par', pos' := EnqueueKids(arena, root, kids, order', queue', seen', vis', par', pos');
    }
    KidsSeenVisit(rs, order, r, seen, seen');
  }

  /** The node order of `reason_to_dot`: breadth-first from the root through
      the children lists, each handle at most once, stopping as soon as the
      order reaches the node cap. When the cap is not reached, the order is
      everything reachable from the root. */
  method BfsOrder(arena: ReasonArena, root: ReasonId, maxNodes: nat)
    returns (order: seq<ReasonId>, ghost par: seq<nat>, ghost pos: seq<nat>)
    requires arena.Valid() && root < |arena.reasons|
    ensures |order| >= 1 && order[0] == root
    ensures Distinct(order)
    ensures |order| <= NodeCap(maxNodes)
    ensures Below(order, |arena.reasons|)
    ensures BfsShape(arena.reasons, order, par, pos, |order|)
    ensures FirstSighting(arena.reasons, order, par, pos)
    ensures |order| < maxNodes ==> Closed(arena.reasons, order)
  {
    ghost var rs := arena.reasons;
    var n := |arena.reasons|;
    var queue := [root];
    var seen := {root};
    order := [];
    ghost var vis := [root];
    par := [0];
    pos := [0];
    var stop := false;
    while queue != [] && !stop
      invariant BfsLoop(rs, root, maxNodes, order, queue, seen, vis, par, pos, stop)
      decreases Unseen(n, seen), |queue|
    {
      order, queue, seen, stop, vis, par, pos := VisitHead(arena, root, maxNodes, order, queue, seen, vis, par, pos);
    }
    VisitedPrefix(rs, root, order, queue, seen, vis, par, pos);
    assert stop || vis == order;
    par := par[..|order|];
    pos := pos[..|order|];
  }

  /** What the node order of `reason_to_dot` is, stated without the queue:
      it starts at the root and holds each handle once; every later entry is
      the first child, in (parent, position) order, not listed before it;
      and it ends at the cap, or where no listed node has an unlisted child. */
  ghost predicate IsBfsOrder(rs: seq<Reason>, root: ReasonId, maxNodes: nat, order: seq<ReasonId>)
  {
    && |order| >= 1 && order[0] == root && Distinct(order) && Below(order, |rs|)
    && |order| <= NodeCap(maxNodes)
    && (exists par, pos :: BfsShape(rs, order, par, pos, |order|) && FirstSighting(rs, order, par, pos))
    && (|order| < maxNodes ==> Closed(rs, order))
  }

  /** A child in a slot before entry `i`'s own is listed before entry `i`. */
  lemma SightedKid(rs: seq<Reason>, o: seq<ReasonId>, par: seq<nat>, pos: seq<nat>, i: nat, p: nat, c: nat)
    requires FirstSighting(rs, o, par, pos) && 1 <= i < |o| && p < i
    requires c < |Kids(rs[o[..i][p]])| && (p < par[i] || (p == par[i] && c < pos[i]))
    ensures Kids(rs[o[..i][p]])[c] in o[..i]
  {
    assert SightedBefore(rs, o[..i], par[i], pos[i]);
  }

  /** Two breadth-first orders that agree before entry `i` agree at it: each
      entry is the first unlisted child, and the prefix fixes which that is. */
  lemma BfsStepAgrees(rs: seq<Reason>, o1: seq<ReasonId>, par1: seq<nat>, pos1: seq<nat>,
                      o2: seq<ReasonId>, par2: seq<nat>, pos2: seq<nat>, i: nat)
    requires BfsShape(rs, o1, par1, pos1, |o1|) && FirstSighting(rs, o1, par1, pos1) && Distinct(o1)
    requires BfsShape(rs, o2, par2, pos2, |o2|) && FirstSighting(rs, o2, par2, pos2) && Distinct(o2)
    requires 1 <= i < |o1| && i < |o2| && forall k :: 0 <= k < i ==> o1[k] == o2[k]
    ensures o1[i] == o2[i]
  {
    assert o1[..i] == o2[..i];
    var p1, c1, p2, c2 := par1[i], pos1[i], par2[i], pos2[i];
    assert o1[..i][p1] == o1[p1] && o1[..i][p2] == o2[p2];
    if p1 < p2 || (p1 == p2 && c1 < c2) {
      SightedKid(rs, o2, par2, pos2, i, p1, c1);
    }
    if p2 < p1 || (p2 == p1 && c2 < c1) {
      SightedKid(rs, o1, par1, pos1, i, p2, c2);
    }
  }

  /** A closed order that another breadth-first order extends already holds
      the other's next entry: its parent is listed, so its children are. */
  lemma NextEntryListed(rs: seq<Reason>, o1: seq<ReasonId>, o2: seq<ReasonId>, par2: seq<nat>, pos2: seq<nat>)
    returns (j: nat)
    requires BfsShape(rs, o2, par2, pos2, |o2|) && Below(o1, |rs|) && Closed(rs, o1)
    requires 1 <= |o1| < |o2| && o1 == o2[..|o1|]
    ensures j < |o1| && o2[j] == o2[|o1|]
  {
    var k := |o1|;
    var p := par2[k];
    assert o1[p] == o2[p];
    assert o2[k] == Kids(rs[o1[p]])[pos2[k]];
    assert o2[k] in o1;
    j :| 0 <= j < |o1| && o1[j] == o2[k];
  }

  /** A breadth-first order that is a prefix of another is all of it. */
  lemma BfsPrefixIsAll(rs: seq<Reason>, root: ReasonId, maxNodes: nat, o1: seq<ReasonId>,
                       o2: seq<ReasonId>, par2: seq<nat>, pos2: seq<nat>)
    requires IsBfsOrder(rs, root, maxNodes, o1)
    requires BfsShape(rs, o2, par2, pos2, |o2|) && Distinct(o2) && |o2| <= NodeCap(maxNodes)
    requires |o1| <= |o2| && o1 == o2[..|o1|]
    ensures |o2| == |o1|
  {
    if |o1| < |o2| && |o1| < maxNodes {
      var j := NextEntryListed(rs, o1, o2, par2, pos2);
      assert false;
    }
  }

  /** Two breadth-first orders from one root agree on their common length. */
  lemma {:induction false} BfsPrefixesAgree(rs: seq<Reason>, o1: seq<ReasonId>, par1: seq<nat>, pos1: seq<nat>,
                                            o2: seq<ReasonId>, par2: seq<nat>, pos2: seq<nat>, n: nat)
    requires BfsShape(rs, o1, par1, pos1, |o1|) && FirstSighting(rs, o1, par1, pos1) && Distinct(o1)
    requires BfsShape(rs, o2, par2, pos2, |o2|) && FirstSighting(rs, o2, par2, pos2) && Distinct(o2)
    requires 1 <= n <= |o1| && n <= |o2| && o1[0] == o2[0]
    ensures forall k :: 0 <= k < n ==> o1[k] == o2[k]
    decreases n
  {
    if n > 1 {
      BfsPrefixesAgree(rs, o1, par1, pos1, o2, par2, pos2, n - 1);
      BfsStepAgrees(rs, o1, par1, pos1, o2, par2, pos2, n - 1);
    }
  }

  /** A breadth-first order no longer than another is the other. */
  lemma BfsShorterIsSame(rs: seq<Reason>, root: ReasonId, maxNodes: nat, o1: seq<ReasonId>, o2: seq<ReasonId>)
    requires IsBfsOrder(rs, root, maxNodes, o1) && IsBfsOrder(rs, root, maxNodes, o2) && |o1| <= |o2|
    ensures o1 == o2
  {
    var par1, pos1 :| BfsShape(rs, o1, par1, pos1, |o1|) && FirstSighting(rs, o1, par1, pos1);
    var par2, pos2 :| BfsShape(rs, o2, par2, pos2, |o2|) && FirstSighting(rs, o2, par2, pos2);
    BfsPrefixesAgree(rs, o1, par1, pos1, o2, par2, pos2, |o1|);
    assert o1 == o2[..|o1|];
    BfsPrefixIsAll(rs, root, maxNodes, o1, o2, par2, pos2);
  }

  /** The description determines the order: at most one sequence is a
      breadth-first order from `root` under a given cap. */
  lemma BfsOrderUnique(rs: seq<Reason>, root: ReasonId, maxNodes: nat, o1: seq<ReasonId>, o2: seq<ReasonId>)
    requires IsBfsOrder(rs, root, maxNodes, o1) && IsBfsOrder(rs, root, maxNodes, o2)
    ensures o1 == o2
  {
    if |o1| <= |o2| {
      BfsShorterIsSame(rs, root, maxNodes, o1, o2);
    } else {
      BfsShorterIsSame(rs, root, maxNodes, o2, o1);
    }
  }

  /** A shared leaf under two conjunctions: the root 4 = AND(2, 3), with
      2 = AND(0, 1) and 3 = AND(0). */
  function Diamond(l0: Lit, l1: Lit): seq<Reason>
  {
    [Atom(l0), Atom(l1), And([0, 1]), And([0]), And([2, 3])]
  }

  lemma DiamondSighting(l0: Lit, l1: Lit)
    ensures FirstSighting(Diamond(l0, l1), [4, 2, 3, 0, 1], [0, 0, 0, 1, 1], [0, 0, 1, 0, 1])
  {
    var rs, o := Diamond(l0, l1), [4, 2, 3, 0, 1];
    var par, pos := [0, 0, 0, 1, 1], [0, 0, 1, 0, 1];
    forall i | 1 <= i < |o|
      ensures SightedBefore(rs, o[..i], par[i], pos[i])
    {
      var pre := o[..i];
      forall p, c | 0 <= p < |pre| && 0 <= c < |Kids(rs[pre[p]])| && (p < par[i] || (p == par[i] && c < pos[i]))
        ensures Kids(rs[pre[p]])[c] in pre
      {
        if p == 0 {
          assert pre[0] == 4 && Kids(rs[4]) == [2, 3];
          if c == 0 { assert pre[1] == 2; } else { assert pre[2] == 3; }
        } else {
          assert p == 1 && c == 0 && i == 4 && pre[1] == 2 && Kids(rs[2]) == [0, 1];
          assert pre[3] == 0;
        }
      }
    }
  }

  lemma DiamondShape(l0: Lit, l1: Lit)
    ensures BfsShape(Diamond(l0, l1), [4, 2, 3, 0, 1], [0, 0, 0, 1, 1], [0, 0, 1, 0, 1], 5)
  {
    var rs, o := Diamond(l0, l1), [4, 2, 3, 0, 1];
    var par, pos := [0, 0, 0, 1, 1], [0, 0, 1, 0, 1];
    forall i | 1 <= i < |o|
      ensures par[i] < 5 && par[i] < i && pos[i] < |Kids(rs[o[par[i]]])| && o[i] == Kids(rs[o[par[i]]])[pos[i]]
    {
      assert i == 1 || i == 2 || i == 3 || i == 4;
    }
    forall i, j | 1 <= i < j < |o|
      ensures par[i] < par[j] || (par[i] == par[j] && pos[i] < pos[j])
    {
      assert i == 1 || i == 2 || i == 3;
    }
  }

  lemma DiamondClosed(l0: Lit, l1: Lit)
    ensures Below([4, 2, 3, 0, 1], |Diamond(l0, l1)|) && Closed(Diamond(l0, l1), [4, 2, 3, 0, 1])
  {
  }

  lemma DiamondIsBfs(l0: Lit, l1: Lit)
    ensures IsBfsOrder(Diamond(l0, l1), 4, 300, [4, 2, 3, 0, 1])
  {
    var par, pos := [0, 0, 0, 1, 1], [0, 0, 1, 0, 1];
    DiamondShape(l0, l1);
    DiamondSighting(l0, l1);
    DiamondClosed(l0, l1);
    assert BfsShape(Diamond(l0, l1), [4, 2, 3, 0, 1], par, pos, 5);
  }

  /** Breadth first from the root of `Diamond`, the leaves come after both
      conjunctions and in the order their first parent lists them. */
  lemma DiamondBfsOrder(l0: Lit, l1: Lit, order: seq<ReasonId>)
    ensures IsBfsOrder(Diamond(l0, l1), 4, 300, order) <==> order == [4, 2, 3, 0, 1]
  {
    DiamondIsBfs(l0, l1);
    if IsBfsOrder(Diamond(l0, l1), 4, 300, order) {
      BfsOrderUnique(Diamond(l0, l1), 4, 300, order, [4, 2, 3, 0, 1]);
    }
  }

  /** At the cap, the first child survives: with room for two nodes and a
      root AND(0, 1), the order is the root and child 0. */
  lemma CapKeepsFirstChild(l0: Lit, l1: Lit, order: seq<ReasonId>)
    ensures var rs := [Atom(l0), Atom(l1), And([0, 1])];
      IsBfsOrder(rs, 2, 2, order) <==> order == [2, 0]
  {
    var rs := [Atom(l0), Atom(l1), And([0, 1])];
    var o := [2, 0];
    var par, pos := [0, 0], [0, 0];
    assert BfsShape(rs, o, par, pos, |o|);
    assert SightedBefore(rs, o[..1], par[1], pos[1]);
    assert FirstSighting(rs, o, par, pos);
    assert IsBfsOrder(rs, 2, 2, o);
    if IsBfsOrder(rs, 2, 2, order) {
      BfsOrderUnique(rs, 2, 2, order, o);
    }
  }

  /** The shape a visited reason is drawn with. */
  datatype NodeShape = Ellipse(lit: Lit) | AndBox(kidCount: nat)

  /** An edge between the nodes named `r{from}` and `r{to}`. */
  datatype DotEdge = DotEdge(from: nat, to: nat)

  datatype ReasonGraph = ReasonGraph(order: seq<ReasonId>, shapes: seq<NodeShape>, edges: seq<DotEdge>)

  function ShapeOf(r: Reason): NodeShape
  {
    match r
    case Atom(l) => Ellipse(l)
    case And(kids) => AndBox(|kids|)
  }

  /** Node `i` is drawn as the reason the order visits `i`-th. */
  function Shapes(rs: seq<Reason>, order: seq<ReasonId>): (s: seq<NodeShape>)
    requires Below(order, |rs|)
    ensures |s| == |order| && forall i :: 0 <= i < |order| ==> s[i] == ShapeOf(rs[order[i]])
  {
    if order == [] then []
    else Shapes(rs, order[..|order| - 1]) + [ShapeOf(rs[order[|order| - 1]])]
  }

  /** The visit index of every visited handle. */
  ghost predicate NamesOf(order: seq<ReasonId>, name: map<ReasonId, nat>)
  {
    name.Keys == (set x | x in order)
    && forall i :: 0 <= i < |order| ==> name[order[i]] == i
  }

  /** The visit index is a function of the order: two `name` maps that
      both number it agree. */
  lemma NamesOfUnique(order: seq<ReasonId>, n1: map<ReasonId, nat>, n2: map<ReasonId, nat>)
    requires NamesOf(order, n1) && NamesOf(order, n2)
    ensures n1 == n2
  {
    forall k | k in n1.Keys
      ensures n1[k] == n2[k]
    {
      var i :| 0 <= i < |order| && order[i] == k;
      assert n1[order[i]] == i == n2[order[i]];
    }
  }

  /** The edges out of node `i`: one per child that has a name, in list order. */
  function KidEdges(i: nat, kids: seq<ReasonId>, name: map<ReasonId, nat>): seq<DotEdge>
  {
    if kids == [] then []
    else
      var k := kids[|kids| - 1];
      KidEdges(i, kids[..|kids| - 1], name) + (if k in name then [DotEdge(i, name[k])] else [])
  }

  /** The edges out of the first `m` nodes of the order. */
  function Edges(rs: seq<Reason>, order: seq<ReasonId>, name: map<ReasonId, nat>, m: nat): seq<DotEdge>
    requires Below(order, |rs|) && m <= |order|
  {
    if m == 0 then []
    else Edges(rs, order, name, m - 1) + KidEdges(m - 1, Kids(rs[order[m - 1]]), name)
  }

  lemma {:induction false} KidEdgesMembers(i: nat, kids: seq<ReasonId>, name: map<ReasonId, nat>, e: DotEdge)
    ensures e in KidEdges(i, kids, name) <==> e.from == i && exists k :: k in kids && k in name && name[k] == e.to
  {
    if kids != [] {
      var init := kids[..|kids| - 1];
      assert kids == init + [kids[|kids| - 1]];
      KidEdgesMembers(i, init, name, e);
    }
  }

  /** An edge goes from node `i` to node `j` exactly when the `j`-th visited
      reason is a child of the `i`-th: edges only reach named nodes, and
      every parent-child pair among named nodes is drawn. */
  lemma {:induction false} EdgesMembers(rs: seq<Reason>, order: seq<ReasonId>, name: map<ReasonId, nat>, m: nat, e: DotEdge)
    requires Below(order, |rs|) && m <= |order| && NamesOf(order, name)
    ensures e in Edges(rs, order, name, m) <==>
      e.from < m && e.to < |order| && order[e.to] in Kids(rs[order[e.from]])
  {
    if m > 0 {
      EdgesMembers(rs, order, name, m - 1, e);
      var kids := Kids(rs[order[m - 1]]);
      KidEdgesMembers(m - 1, kids, name, e);
      if e.from == m - 1 && e.to < |order| && order[e.to] in kids {
        assert order[e.to] in name && name[order[e.to]] == e.to;
      }
      if e.from == m - 1 && exists k :: k in kids && k in name && name[k] == e.to {
        var k :| k in kids && k in name && name[k] == e.to;
        var i :| 0 <= i < |order| && order[i] == k;
        assert name[order[i]] == i;
      }
    }
  }

  /** The `name` map of `reason_to_dot`: each visited handle to its index. */
  method NameMap(order: seq<ReasonId>) returns (name: map<ReasonId, nat>)
    requires Distinct(order)
    ensures NamesOf(order, name)
  {
    name := map[];
    for i := 0 to |order|
      invariant name.Keys == (set x | x in order[..i])
      invariant forall i' :: 0 <= i' < i ==> name[order[i']] == i'
    {
      assert order[..i + 1] == order[..i] + [order[i]];
      name := name[order[i] := i];
    }
    assert order[..|order|] == order;
  }

  /** The two output loops of `reason_to_dot`: a node per visited reason,
      then the edges out of every conjunction to its named children. */
  method DrawNodes(arena: ReasonArena, order: seq<ReasonId>, name: map<ReasonId, nat>)
    returns (shapes: seq<NodeShape>, edges: seq<DotEdge>)
    requires Below(order, |arena.reasons|)
    ensures shapes == Shapes(arena.reasons, order)
    ensures edges == Edges(arena.reasons, order, name, |order|)
  {
    shapes := [];
    edges := [];
    for i := 0 to |order|
      invariant shapes == Shapes(arena.reasons, order[..i])
      invariant edges == Edges(arena.reasons, order, name, i)
    {
      var r := arena.Get(order[i]);
      assert order[..i + 1][..i] == order[..i];
      shapes := shapes + [ShapeOf(r)];
      edges := edges + KidEdges(i, Kids(r), name);
    }
    assert order[..|order|] == order;
  }

  /** `reason_to_dot` as a graph: the breadth-first order, one node per
      visited reason named by its index, and the edges between named nodes. */
  method ReasonToDot(arena: ReasonArena, root: ReasonId, limits: DotLimits) returns (g: ReasonGraph)
    requires arena.Valid() && root < |arena.reasons|
    ensures IsBfsOrder(arena.reasons, root, limits.maxReasonNodes, g.order)
    ensures |g.order| >= 1 && g.order[0] == root && Distinct(g.order)
    ensures |g.order| <= NodeCap(limits.maxReasonNodes)
    ensures Below(g.order, |arena.reasons|)
    ensures forall i :: 0 <= i < |g.order| ==> Reachable(arena.reasons, root, g.order[i])
    ensures |g.order| < limits.maxReasonNodes ==>
      forall x :: Reachable(arena.reasons, root, x) ==> x in g.order
    ensures g.shapes == Shapes(arena.reasons, g.order)
    ensures forall e :: e in g.edges <==>
      e.from < |g.order| && e.to < |g.order| && g.order[e.to] in Kids(arena.reasons[g.order[e.from]])
    ensures forall name :: NamesOf(g.order, name) ==> g.edges == Edges(arena.reasons, g.order, name, |g.order|)
  {
    ghost var par, pos;
    var order;
    order, par, pos := BfsOrder(arena, root, limits.maxReasonNodes);
    ghost var rs := arena.reasons;
    assert BfsShape(rs, order, par, pos, |order|) && FirstSighting(rs, order, par, pos);

    forall i | 0 <= i < |order|
      ensures Reachable(rs, root, order[i])
    {
      BfsReachable(rs, order, par, pos, |order|, i);
    }
    if |order| < limits.maxReasonNodes {
      forall x | Reachable(rs, root, x)
        ensures x in order
      {
        ClosedHoldsReachable(rs, order, root, x);
      }
    }

    var name := NameMap(order);
    var shapes, edges := DrawNodes(arena, order, name);
    g := ReasonGraph(order, shapes, edges);
    forall e
      ensures e in g.edges <==> e.from < |order| && e.to < |order| && order[e.to] in Kids(rs[order[e.from]])
    {
      EdgesMembers(rs, order, name, |order|, e);
    }
    forall name' | NamesOf(order, name')
      ensures edges == Edges(rs, order, name', |order|)
    {
      NamesOfUnique(order, name, name');
    }
  }
}
