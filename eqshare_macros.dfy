/** The vocabulary the equality-sharing tests state their expectations in:
    whether a trace holds an event in a given direction, or an event carrying
    a given pair of terms in either orientation; the capped dump shown when
    an expectation fails; and the two theory slots the tests name. */
module EqShareMacros {
  import opened Core
  import opened Iter
  import opened Atoms
  import opened Sat
  import opened Theories
  import opened Wrapping
  import opened Trace
  import opened SharingRound
  import Engine

  /** The UF slot and the DL slot the tests refer to. */
  const UF: TheoryId := 0
  const DL: TheoryId := 1

  /** How many events a failing expectation shows. */
  const DumpCap: nat := 40

  /** Event `e` goes from `src` to `dst`. */
  predicate DirMatch(e: EqShareEvent, src: TheoryId, dst: TheoryId)
  {
    e.src == src && e.dst == dst
  }

  /** Event `e` goes from `src` to `dst` and equates `a` and `b`, in either order. */
  predicate PairMatch(e: EqShareEvent, src: TheoryId, dst: TheoryId, a: TermId, b: TermId)
  {
    DirMatch(e, src, dst) && ((e.a == a && e.b == b) || (e.a == b && e.b == a))
  }

  /** `has_pair`: some event, scanned front to back, matches the pair. */
  predicate HasPair(events: seq<EqShareEvent>, src: TheoryId, dst: TheoryId, a: TermId, b: TermId)
    decreases |events|
  {
    if events == [] then false
    else PairMatch(events[0], src, dst, a, b) || HasPair(events[1..], src, dst, a, b)
  }

  /** `has_dir`: some event, scanned front to back, goes from `src` to `dst`. */
  predicate HasDir(events: seq<EqShareEvent>, src: TheoryId, dst: TheoryId)
    decreases |events|
  {
    if events == [] then false
    else DirMatch(events[0], src, dst) || HasDir(events[1..], src, dst)
  }

  /** The scan finds a pair event exactly when one sits at some index; in
      particular an empty trace has none. */
  lemma {:induction false} HasPairExists(events: seq<EqShareEvent>, src: TheoryId, dst: TheoryId, a: TermId, b: TermId)
    ensures HasPair(events, src, dst, a, b) <==>
      exists i :: 0 <= i < |events| && PairMatch(events[i], src, dst, a, b)
    decreases |events|
  {
    if events != [] {
      HasPairExists(events[1..], src, dst, a, b);
      if HasPair(events[1..], src, dst, a, b) {
        var i :| 0 <= i < |events[1..]| && PairMatch(events[1..][i], src, dst, a, b);
        assert PairMatch(events[i + 1], src, dst, a, b);
      }
      if i :| 0 <= i < |events| && PairMatch(events[i], src, dst, a, b) {
        if i > 0 {
          assert events[1..][i - 1] == events[i];
        }
      }
    }
  }

  /** The scan finds a direction event exactly when one sits at some index;
      in particular an empty trace has none. */
  lemma {:induction false} HasDirExists(events: seq<EqShareEvent>, src: TheoryId, dst: TheoryId)
    ensures HasDir(events, src, dst) <==>
      exists i :: 0 <= i < |events| && DirMatch(events[i], src, dst)
    decreases |events|
  {
    if events != [] {
      HasDirExists(events[1..], src, dst);
      if HasDir(events[1..], src, dst) {
        var i :| 0 <= i < |events[1..]| && DirMatch(events[1..][i], src, dst);
        assert DirMatch(events[i + 1], src, dst);
      }
      if i :| 0 <= i < |events| && DirMatch(events[i], src, dst) {
        if i > 0 {
          assert events[1..][i - 1] == events[i];
        }
      }
    }
  }

  /** The orientation of the pair does not matter. */
  lemma {:induction false} HasPairSymmetric(events: seq<EqShareEvent>, src: TheoryId, dst: TheoryId, a: TermId, b: TermId)
    ensures HasPair(events, src, dst, a, b) == HasPair(events, src, dst, b, a)
    decreases |events|
  {
    if events != [] {
      HasPairSymmetric(events[1..], src, dst, a, b);
    }
  }

  /** A hop in a direction is an event in that direction. */
  lemma {:induction false} HasPairImpliesHasDir(events: seq<EqShareEvent>, src: TheoryId, dst: TheoryId, a: TermId, b: TermId)
    ensures HasPair(events, src, dst, a, b) ==> HasDir(events, src, dst)
    decreases |events|
  {
    if events != [] {
      HasPairImpliesHasDir(events[1..], src, dst, a, b);
    }
  }

  /** The events a failing expectation renders, one line each: the first
      `DumpCap` of the trace, in trace order. */
  function Dump(events: seq<EqShareEvent>): (r: seq<EqShareEvent>)
    ensures |r| <= DumpCap
    ensures r <= events
    ensures |events| <= DumpCap ==> r == events
    ensures |events| > DumpCap ==> |r| == DumpCap
  {
    Take(events, DumpCap)
  }

  // ---------------------------------------------------------------------
  // Candidate lists

  datatype Option<T> = None | Some(value: T)

  /** The `hop_any` test: some candidate pair, scanned front to back, is a
      hop from `src` to `dst`. */
  predicate AnyHop(events: seq<EqShareEvent>, src: TheoryId, dst: TheoryId, cands: seq<(TermId, TermId)>)
    decreases |cands|
  {
    if cands == [] then false
    else HasPair(events, src, dst, cands[0].0, cands[0].1) || AnyHop(events, src, dst, cands[1..])
  }

  /** The `hop_none` search: the first candidate pair that is a hop from
      `src` to `dst`, if any. */
  function FirstHop(events: seq<EqShareEvent>, src: TheoryId, dst: TheoryId, cands: seq<(TermId, TermId)>): Option<(TermId, TermId)>
    decreases |cands|
  {
    if cands == [] then None
    else if HasPair(events, src, dst, cands[0].0, cands[0].1) then Some(cands[0])
    else FirstHop(events, src, dst, cands[1..])
  }

  /** The search answers a candidate exactly when `hop_any` holds, and what
      it answers is the first candidate that is a hop. */
  lemma {:induction false} FirstHopIsFirst(events: seq<EqShareEvent>, src: TheoryId, dst: TheoryId, cands: seq<(TermId, TermId)>)
    ensures FirstHop(events, src, dst, cands).Some? <==> AnyHop(events, src, dst, cands)
    ensures FirstHop(events, src, dst, cands).Some? ==>
      exists k :: 0 <= k < |cands| && cands[k] == FirstHop(events, src, dst, cands).value
        && HasPair(events, src, dst, cands[k].0, cands[k].1)
        && forall k' :: 0 <= k' < k ==> !HasPair(events, src, dst, cands[k'].0, cands[k'].1)
    decreases |cands|
  {
    if cands != [] && !HasPair(events, src, dst, cands[0].0, cands[0].1) {
      var tail := cands[1..];
      FirstHopIsFirst(events, src, dst, tail);
      if FirstHop(events, src, dst, tail).Some? {
        var k :| 0 <= k < |tail| && tail[k] == FirstHop(events, src, dst, tail).value
          && HasPair(events, src, dst, tail[k].0, tail[k].1)
          && forall k' :: 0 <= k' < k ==> !HasPair(events, src, dst, tail[k'].0, tail[k'].1);
        assert cands[k + 1] == tail[k];
        forall k' | 0 <= k' < k + 1
          ensures !HasPair(events, src, dst, cands[k'].0, cands[k'].1)
        {
          if k' > 0 {
            assert cands[k'] == tail[k' - 1];
          }
        }
      }
    }
  }

  // ---------------------------------------------------------------------
  // The vocabulary applied to one round's trace

  /** One round's trace holds an event from `s` to `d` exactly when `s`
      exported something, `d` is a different registered theory and the
      policy lets `s` share with `d`. */
  lemma RoundHasDirIff(p: Policy, m: nat, xs: seq<Tagged>, epoch: U64, s: TheoryId, d: TheoryId)
    ensures HasDir(EventsOf(Deliveries(p, m, xs), epoch), s, d) <==>
      s != d && d < m && Allowed(p, s, d) && exists x :: x in xs && x.src == s
  {
    var ds := Deliveries(p, m, xs);
    var evs := EventsOf(ds, epoch);
    HasDirExists(evs, s, d);
    EventsOfIndex(ds, epoch);
    if HasDir(evs, s, d) {
      var i :| 0 <= i < |evs| && DirMatch(evs[i], s, d);
      assert ds[i] in ds;
      DeliveryMembers(p, m, xs, ds[i]);
      assert Tagged(ds[i].src, ds[i].eq) in xs;
    }
    if s != d && d < m && Allowed(p, s, d) && exists x :: x in xs && x.src == s {
      var x :| x in xs && x.src == s;
      var dv := Delivery(s, d, x.eq);
      DeliveryMembers(p, m, xs, dv);
      var i :| 0 <= i < |ds| && ds[i] == dv;
      assert DirMatch(evs[i], s, d);
    }
  }

  /** With UF-to-DL switched off, no round's trace shows a UF=>DL event,
      whatever UF exports. */
  lemma BlockedUfToDlHasNoDir(p: Policy, m: nat, xs: seq<Tagged>, epoch: U64)
    requires p.ufId == UF && p.dlId == DL && !p.sharing.ufToDl
    ensures !HasDir(EventsOf(Deliveries(p, m, xs), epoch), UF, DL)
  {
    RoundHasDirIff(p, m, xs, epoch, UF, DL);
  }

  /** No round's trace shows an event from a theory to itself. */
  lemma RoundHasNoSelfDir(p: Policy, m: nat, xs: seq<Tagged>, epoch: U64, s: TheoryId)
    ensures !HasDir(EventsOf(Deliveries(p, m, xs), epoch), s, s)
  {
    RoundHasDirIff(p, m, xs, epoch, s, s);
  }

  /** A new engine puts UF in slot `UF` and DL in slot `DL`. */
  method NewEngineSlots(ctx: Core.Context, sat: DummySat, theories: seq<Theory>, debugToggle: bool)
    returns (uf: TheoryId, dl: TheoryId)
    ensures uf == UF && dl == DL
  {
    var e := new Engine.SmtEngine(ctx, sat, theories, debugToggle);
    uf, dl := e.ufId, e.dlId;
  }
}
