/** The Sequencer (internal/render/order/order.go): it buffers the step events of a concurrent run
    and releases them, lane by lane, in the order a serial run would have produced. */
module Sequencing {
  import opened Ordering
  import opened Wrappers

  /** lane: ordinal of the deploy; idx: position of the step; payload: everything else. Errors,
      warnings, info and begin events are out of band. */
  datatype Event =
    | Change(lane: nat, idx: nat, payload: nat)
    | Result(lane: nat, idx: nat, payload: nat)
    | OutOfBand(payload: nat)

  // Reading an event sequence
  // ---------------------------------------------------------------------------

  ghost function Keep(s: seq<Event>, p: Event -> bool): seq<Event> {
    if s == [] then []
    else Keep(s[..|s| - 1], p) + (if p(s[|s| - 1]) then [s[|s| - 1]] else [])
  }

  ghost function OnLane(l: nat): Event -> bool {
    (e: Event) => !e.OutOfBand? && e.lane == l
  }

  ghost function Loose(): Event -> bool {
    (e: Event) => e.OutOfBand?
  }

  ghost function ChangeOf(l: nat, i: nat): Event -> bool {
    (e: Event) => e.Change? && e.lane == l && e.idx == i
  }

  ghost function ResultOf(l: nat, i: nat): Event -> bool {
    (e: Event) => e.Result? && e.lane == l && e.idx == i
  }

  ghost predicate Finished(evs: seq<Event>, l: nat, i: nat) {
    Keep(evs, ResultOf(l, i)) != []
  }

  ghost predicate Touched(evs: seq<Event>, l: nat, i: nat) {
    Keep(evs, ChangeOf(l, i)) != [] || Finished(evs, l, i)
  }

  /** Nothing arrives about a step after its result; in particular each step has at most one. */
  ghost predicate Orderly(evs: seq<Event>) {
    forall k :: 0 <= k < |evs| && !evs[k].OutOfBand? ==> !Finished(evs[..k], evs[k].lane, evs[k].idx)
  }

  /** What a serial run prints for one step: its changes in order of arrival, then its result. */
  ghost function StepBlock(evs: seq<Event>, l: nat, i: nat): seq<Event> {
    Keep(evs, ChangeOf(l, i)) + Keep(evs, ResultOf(l, i))
  }

  /** The blocks of the listed steps, one after the other. */
  ghost function Blocks(evs: seq<Event>, l: nat, steps: seq<nat>): seq<Event> {
    if steps == [] then []
    else Blocks(evs, l, steps[..|steps| - 1]) + StepBlock(evs, l, steps[|steps| - 1])
  }

  ghost function UpTo(n: nat): (s: seq<nat>)
    ensures |s| == n && forall i :: 0 <= i < n ==> s[i] == i
  {
    seq(n, i requires 0 <= i < n => i)
  }

  lemma {:induction false} KeepAppend(s: seq<Event>, t: seq<Event>, p: Event -> bool)
    ensures Keep(s + t, p) == Keep(s, p) + Keep(t, p)
    decreases |t|
  {
    if t == [] {
      assert s + t == s;
    } else {
      KeepAppend(s, t[..|t| - 1], p);
      assert (s + t)[..|s + t| - 1] == s + t[..|t| - 1];
    }
  }

  lemma KeepOne(s: seq<Event>, e: Event, p: Event -> bool)
    ensures Keep(s + [e], p) == if p(e) then Keep(s, p) + [e] else Keep(s, p)
  {
    assert (s + [e])[..|s|] == s;
  }

  lemma {:induction false} BlocksSame(evs: seq<Event>, evs': seq<Event>, l: nat, steps: seq<nat>)
    requires forall i :: i in steps ==> StepBlock(evs, l, i) == StepBlock(evs', l, i)
    ensures Blocks(evs, l, steps) == Blocks(evs', l, steps)
    decreases |steps|
  {
    if steps != [] {
      BlocksSame(evs, evs', l, steps[..|steps| - 1]);
    }
  }

  lemma BlocksOne(evs: seq<Event>, l: nat, steps: seq<nat>, i: nat)
    ensures Blocks(evs, l, steps + [i]) == Blocks(evs, l, steps) + StepBlock(evs, l, i)
  {
    assert (steps + [i])[..|steps|] == steps;
  }

  // The buffer
  // ---------------------------------------------------------------------------

  datatype Block = Block(changes: seq<Event>, result: Option<Event>)   // done: the result is there

  datatype Lane = Lane(cursor: nat, pending: map<nat, Block>)

  /** The block of a step holds exactly what has arrived about it. */
  ghost predicate Holds(b: Block, evs: seq<Event>, l: nat, i: nat) {
    && b.changes == Keep(evs, ChangeOf(l, i))
    && Keep(evs, ResultOf(l, i)) == if b.result.Some? then [b.result.value] else []
  }

  /** A step before the cursor is finished; anything known about another step waits in its block. */
  ghost predicate StepOk(lane: Lane, evs: seq<Event>, l: nat, i: nat) {
    && (i in lane.pending <==> i >= lane.cursor && Touched(evs, l, i))
    && (i in lane.pending ==> Holds(lane.pending[i], evs, l, i))
    && (i < lane.cursor ==> Finished(evs, l, i))
  }

  /** Exactly the steps before the cursor have been released, in order. */
  ghost predicate Buffers(lane: Lane, evs: seq<Event>, l: nat, out: seq<Event>) {
    && (forall i: nat {:trigger StepOk(lane, evs, l, i)} :: StepOk(lane, evs, l, i))
    && Keep(out, OnLane(l)) == Blocks(evs, l, UpTo(lane.cursor))
  }

  // One event at a time
  // ---------------------------------------------------------------------------

  lemma OrderlyPrefix(evs: seq<Event>, e: Event)
    requires Orderly(evs + [e])
    ensures Orderly(evs)
    ensures !e.OutOfBand? ==> !Finished(evs, e.lane, e.idx)
  {
    var longer := evs + [e];
    assert longer[..|evs|] == evs && longer[|evs|] == e;
    forall k | 0 <= k < |evs| && !evs[k].OutOfBand? ensures !Finished(evs[..k], evs[k].lane, evs[k].idx) {
      assert longer[..k] == evs[..k] && longer[k] == evs[k];
    }
  }

  /** What an event changes about the steps of a lane. */
  lemma StepAfter(evs: seq<Event>, e: Event, l: nat, i: nat)
    ensures Keep(evs + [e], ChangeOf(l, i)) ==
      if e.Change? && e.lane == l && e.idx == i then Keep(evs, ChangeOf(l, i)) + [e] else Keep(evs, ChangeOf(l, i))
    ensures Keep(evs + [e], ResultOf(l, i)) ==
      if e.Result? && e.lane == l && e.idx == i then Keep(evs, ResultOf(l, i)) + [e] else Keep(evs, ResultOf(l, i))
  {
    KeepOne(evs, e, ChangeOf(l, i));
    KeepOne(evs, e, ResultOf(l, i));
  }

  function AddTo(b: Block, e: Event): Block {
    match e
    case Change(_, _, _) => b.(changes := b.changes + [e])
    case Result(_, _, _) => b.(result := Some(e))
    case OutOfBand(_) => b
  }

  const EMPTY := Block([], None)

  function Collected(lane: Lane, e: Event): Lane
    requires !e.OutOfBand?
  {
    var b := if e.idx in lane.pending then lane.pending[e.idx] else EMPTY;
    lane.(pending := lane.pending[e.idx := AddTo(b, e)])
  }

  lemma CollectKeepsBuffers(lane: Lane, evs: seq<Event>, e: Event, out: seq<Event>)
    requires !e.OutOfBand? && !Finished(evs, e.lane, e.idx) && Buffers(lane, evs, e.lane, out)
    ensures Buffers(Collected(lane, e), evs + [e], e.lane, out)
  {
    var l, evs', lane' := e.lane, evs + [e], Collected(lane, e);
    forall i: nat ensures StepOk(lane', evs', l, i) {
      StepAfter(evs, e, l, i);
      assert StepOk(lane, evs, l, i);
    }
    BlocksStay(lane, evs, e, l);
  }

  lemma BlocksStay(lane: Lane, evs: seq<Event>, e: Event, l: nat)
    requires forall i: nat {:trigger StepOk(lane, evs, l, i)} :: StepOk(lane, evs, l, i)
    requires !e.OutOfBand? ==> !Finished(evs, e.lane, e.idx)
    ensures Blocks(evs + [e], l, UpTo(lane.cursor)) == Blocks(evs, l, UpTo(lane.cursor))
  {
    forall i | i in UpTo(lane.cursor) ensures StepBlock(evs, l, i) == StepBlock(evs + [e], l, i) {
      StepAfter(evs, e, l, i);
      assert StepOk(lane, evs, l, i);
    }
    BlocksSame(evs, evs + [e], l, UpTo(lane.cursor));
  }

  lemma OtherLaneUntouched(lane: Lane, evs: seq<Event>, e: Event, l: nat, out: seq<Event>)
    requires Buffers(lane, evs, l, out) && (e.OutOfBand? || e.lane != l)
    requires !e.OutOfBand? ==> !Finished(evs, e.lane, e.idx)
    ensures Buffers(lane, evs + [e], l, out)
    ensures forall i: nat :: Finished(evs + [e], l, i) <==> Finished(evs, l, i)
  {
    forall i: nat
      ensures Finished(evs + [e], l, i) <==> Finished(evs, l, i)
      ensures StepOk(lane, evs + [e], l, i)
    {
      StepAfter(evs, e, l, i);
      assert StepOk(lane, evs, l, i);
    }
    BlocksStay(lane, evs, e, l);
  }

  // Releasing a block
  // ---------------------------------------------------------------------------

  ghost function Released(b: Block): seq<Event> {
    b.changes + (if b.result.Some? then [b.result.value] else [])
  }

  lemma {:induction false} KeepOnly(s: seq<Event>, p: Event -> bool, q: Event -> bool)
    requires forall e :: p(e) ==> q(e)
    ensures Keep(Keep(s, p), q) == Keep(s, p)
    decreases |s|
  {
    if s != [] {
      var t, x := s[..|s| - 1], s[|s| - 1];
      KeepOnly(t, p, q);
      KeepOne(Keep(t, p), x, q);
      assert Keep(s, p) == if p(x) then Keep(t, p) + [x] else Keep(t, p);
    }
  }

  lemma {:induction false} KeepNone(s: seq<Event>, p: Event -> bool, q: Event -> bool)
    requires forall e :: p(e) ==> !q(e)
    ensures Keep(Keep(s, p), q) == []
    decreases |s|
  {
    if s != [] {
      var t, x := s[..|s| - 1], s[|s| - 1];
      KeepNone(t, p, q);
      KeepOne(Keep(t, p), x, q);
      assert Keep(s, p) == if p(x) then Keep(t, p) + [x] else Keep(t, p);
    }
  }

  /** The events of a step lie on its lane and nowhere else. */
  lemma BlockOnItsLane(evs: seq<Event>, l: nat, i: nat, m: nat)
    ensures Keep(StepBlock(evs, l, i), OnLane(l)) == StepBlock(evs, l, i)
    ensures m != l ==> Keep(StepBlock(evs, l, i), OnLane(m)) == []
    ensures Keep(StepBlock(evs, l, i), Loose()) == []
  {
    var cs, rs := Keep(evs, ChangeOf(l, i)), Keep(evs, ResultOf(l, i));
    KeepAppend(cs, rs, OnLane(l));
    KeepAppend(cs, rs, OnLane(m));
    KeepAppend(cs, rs, Loose());
    KeepOnly(evs, ChangeOf(l, i), OnLane(l));
    KeepOnly(evs, ResultOf(l, i), OnLane(l));
    if m != l {
      KeepNone(evs, ChangeOf(l, i), OnLane(m));
      KeepNone(evs, ResultOf(l, i), OnLane(m));
    }
    KeepNone(evs, ChangeOf(l, i), Loose());
    KeepNone(evs, ResultOf(l, i), Loose());
  }

  /** Flushing the block of a finished step appends its serial block to its lane, and only there. */
  lemma FlushAppends(b: Block, evs: seq<Event>, l: nat, i: nat, out: seq<Event>, m: nat)
    requires Holds(b, evs, l, i) && b.result.Some?
    ensures Released(b) == StepBlock(evs, l, i)
    ensures Keep(out + Released(b), OnLane(l)) == Keep(out, OnLane(l)) + StepBlock(evs, l, i)
    ensures m != l ==> Keep(out + Released(b), OnLane(m)) == Keep(out, OnLane(m))
    ensures Keep(out + Released(b), Loose()) == Keep(out, Loose())
  {
    KeepAppend(out, Released(b), OnLane(l));
    KeepAppend(out, Released(b), OnLane(m));
    KeepAppend(out, Released(b), Loose());
    BlockOnItsLane(evs, l, i, m);
  }

  lemma AdvanceKeepsSteps(lane: Lane, evs: seq<Event>, l: nat, i: nat)
    requires StepOk(lane, evs, l, i) && StepOk(lane, evs, l, lane.cursor)
    requires lane.cursor in lane.pending && lane.pending[lane.cursor].result.Some?
    ensures StepOk(Lane(lane.cursor + 1, lane.pending - {lane.cursor}), evs, l, i)
  {
    hide Touched;
  }

  lemma BlocksGrow(evs: seq<Event>, l: nat, n: nat)
    ensures Blocks(evs, l, UpTo(n + 1)) == Blocks(evs, l, UpTo(n)) + StepBlock(evs, l, n)
  {
    assert UpTo(n + 1) == UpTo(n) + [n];
    BlocksOne(evs, l, UpTo(n), n);
  }

  lemma AdvanceKeepsBuffers(lane: Lane, evs: seq<Event>, l: nat, out: seq<Event>)
    requires Buffers(lane, evs, l, out)
    requires lane.cursor in lane.pending && lane.pending[lane.cursor].result.Some?
    ensures var next := Lane(lane.cursor + 1, lane.pending - {lane.cursor});
      Buffers(next, evs, l, out + Released(lane.pending[lane.cursor]))
  {
    hide Blocks, Keep, Touched, Finished, UpTo;
    var lane' := Lane(lane.cursor + 1, lane.pending - {lane.cursor});
    assert StepOk(lane, evs, l, lane.cursor);
    FlushAppends(lane.pending[lane.cursor], evs, l, lane.cursor, out, l);
    BlocksGrow(evs, l, lane.cursor);
    forall i: nat ensures StepOk(lane', evs, l, i) {
      assert StepOk(lane, evs, l, i);
      AdvanceKeepsSteps(lane, evs, l, i);
    }
  }

  // Draining what is left
  // ---------------------------------------------------------------------------

  /** What draining a lane releases: its finished blocks; the others are dropped. */
  ghost function LaneText(lane: Lane, idxs: seq<nat>): seq<Event> {
    if idxs == [] then [] else LaneText(lane, idxs[..|idxs| - 1]) + BlockText(lane, idxs[|idxs| - 1])
  }

  ghost function BlockText(lane: Lane, i: nat): seq<Event> {
    if i in lane.pending && lane.pending[i].result.Some? then Released(lane.pending[i]) else []
  }

  ghost function LaneDrain(lane: Lane): seq<Event> {
    LaneText(lane, Ascending(lane.pending.Keys))
  }

  ghost function DrainText(lanes: map<nat, Lane>, ords: seq<nat>): seq<Event> {
    if ords == [] then []
    else
      var l := ords[|ords| - 1];
      DrainText(lanes, ords[..|ords| - 1]) + (if l in lanes then LaneDrain(lanes[l]) else [])
  }

  lemma LaneTextNone(lane: Lane)
    ensures LaneText(lane, []) == []
  {
  }

  lemma LaneTextOne(lane: Lane, idxs: seq<nat>, i: nat)
    ensures LaneText(lane, idxs + [i]) == LaneText(lane, idxs) + BlockText(lane, i)
  {
    assert (idxs + [i])[..|idxs|] == idxs;
  }

  lemma DrainTextOne(lanes: map<nat, Lane>, ords: seq<nat>, l: nat)
    requires l in lanes
    ensures DrainText(lanes, ords + [l]) == DrainText(lanes, ords) + LaneDrain(lanes[l])
  {
    assert (ords + [l])[..|ords|] == ords;
  }

  ghost function FinishedOf(evs: seq<Event>, l: nat, idxs: seq<nat>): seq<nat> {
    if idxs == [] then []
    else
      var i := idxs[|idxs| - 1];
      FinishedOf(evs, l, idxs[..|idxs| - 1]) + (if Finished(evs, l, i) then [i] else [])
  }

  lemma {:induction false} FinishedOfMembers(evs: seq<Event>, l: nat, idxs: seq<nat>)
    requires Increasing(idxs)
    ensures Increasing(FinishedOf(evs, l, idxs))
    ensures forall i :: i in FinishedOf(evs, l, idxs) <==> i in idxs && Finished(evs, l, i)
    decreases |idxs|
  {
    if idxs != [] {
      var t, i := idxs[..|idxs| - 1], idxs[|idxs| - 1];
      assert idxs == t + [i];
      FinishedOfMembers(evs, l, t);
      forall k | k in FinishedOf(evs, l, t) ensures k < i {
        var a :| 0 <= a < |t| && t[a] == k;
        assert idxs[a] < idxs[|idxs| - 1];
      }
      IncreasingAppend(FinishedOf(evs, l, t), [i]);
    }
  }

  lemma {:induction false} LaneTextIsSerial(lane: Lane, evs: seq<Event>, l: nat, idxs: seq<nat>, m: nat)
    requires forall i :: i in idxs ==> i in lane.pending && Holds(lane.pending[i], evs, l, i)
    ensures Keep(LaneText(lane, idxs), OnLane(l)) == Blocks(evs, l, FinishedOf(evs, l, idxs))
    ensures m != l ==> Keep(LaneText(lane, idxs), OnLane(m)) == []
    ensures Keep(LaneText(lane, idxs), Loose()) == []
    decreases |idxs|
  {
    if idxs != [] {
      var t, i := idxs[..|idxs| - 1], idxs[|idxs| - 1];
      LaneTextIsSerial(lane, evs, l, t, m);
      assert Holds(lane.pending[i], evs, l, i);
      if lane.pending[i].result.Some? {
        FlushAppends(lane.pending[i], evs, l, i, LaneText(lane, t), m);
        BlocksOne(evs, l, FinishedOf(evs, l, t), i);
        assert FinishedOf(evs, l, idxs) == FinishedOf(evs, l, t) + [i];
        LaneTextOne(lane, t, i);
      } else {
        assert FinishedOf(evs, l, idxs) == FinishedOf(evs, l, t);
        LaneTextOne(lane, t, i);
        assert LaneText(lane, t) + [] == LaneText(lane, t);
      }
    }
  }

  ghost predicate AllBuffered(lanes: map<nat, Lane>, evs: seq<Event>) {
    forall l, i :: l in lanes && i in lanes[l].pending ==> Holds(lanes[l].pending[i], evs, l, i)
  }

  lemma LaneDrainIsSerial(lanes: map<nat, Lane>, evs: seq<Event>, l: nat, m: nat)
    requires AllBuffered(lanes, evs) && l in lanes
    ensures Keep(LaneDrain(lanes[l]), OnLane(l)) == Blocks(evs, l, FinishedOf(evs, l, Ascending(lanes[l].pending.Keys)))
    ensures m != l ==> Keep(LaneDrain(lanes[l]), OnLane(m)) == []
    ensures Keep(LaneDrain(lanes[l]), Loose()) == []
  {
    hide Keep, Blocks, FinishedOf, LaneText, Ascending;
    AscendingSorts(lanes[l].pending.Keys);
    LaneTextIsSerial(lanes[l], evs, l, Ascending(lanes[l].pending.Keys), m);
  }

  lemma {:induction false} DrainTextIsSerial(lanes: map<nat, Lane>, evs: seq<Event>, ords: seq<nat>, m: nat)
    requires AllBuffered(lanes, evs) && Increasing(ords) && forall l :: l in ords ==> l in lanes
    ensures Keep(DrainText(lanes, ords), OnLane(m)) ==
      if m in ords then Blocks(evs, m, FinishedOf(evs, m, Ascending(lanes[m].pending.Keys))) else []
    ensures Keep(DrainText(lanes, ords), Loose()) == []
    decreases |ords|
  {
    hide Blocks, FinishedOf, Ascending, LaneDrain;
    if ords != [] {
      var t, l := ords[..|ords| - 1], ords[|ords| - 1];
      assert ords == t + [l];
      assert l !in t;
      DrainTextIsSerial(lanes, evs, t, m);
      LaneDrainIsSerial(lanes, evs, l, m);
      DrainTextOne(lanes, t, l);
      KeepAppend(DrainText(lanes, t), LaneDrain(lanes[l]), OnLane(m));
      KeepAppend(DrainText(lanes, t), LaneDrain(lanes[l]), Loose());
    }
  }

  /** The output restricted to lane l is what a serial run prints: the blocks of exactly the finished
      steps, each once, in ascending order. */
  ghost predicate SerialOn(evs: seq<Event>, l: nat, out: seq<Event>) {
    exists steps: seq<nat> ::
      && Increasing(steps)
      && (forall i :: i in steps <==> Finished(evs, l, i))
      && Keep(out, OnLane(l)) == Blocks(evs, l, steps)
  }

  lemma {:induction false} BlocksAppend(evs: seq<Event>, l: nat, s: seq<nat>, t: seq<nat>)
    ensures Blocks(evs, l, s + t) == Blocks(evs, l, s) + Blocks(evs, l, t)
    decreases |t|
  {
    hide StepBlock;
    if t == [] {
      assert s + t == s;
    } else {
      var u, x := t[..|t| - 1], t[|t| - 1];
      BlocksAppend(evs, l, s, u);
      BlocksOne(evs, l, s + u, x);
      BlocksOne(evs, l, u, x);
      assert t == u + [x] && s + t == s + u + [x];
      assert Blocks(evs, l, s) + (Blocks(evs, l, u) + StepBlock(evs, l, x)) ==
        Blocks(evs, l, s) + Blocks(evs, l, u) + StepBlock(evs, l, x);
    }
  }

  /** Released steps and drained steps together. */
  lemma DrainedIsSerial(lane: Lane, evs: seq<Event>, l: nat, out: seq<Event>, drained: seq<Event>)
    requires Buffers(lane, evs, l, out)
    requires Keep(drained, OnLane(l)) == Blocks(evs, l, FinishedOf(evs, l, Ascending(lane.pending.Keys)))
    ensures SerialOn(evs, l, out + drained)
  {
    hide Keep, Blocks, FinishedOf, Finished, Ascending;
    var released, rest := UpTo(lane.cursor), FinishedOf(evs, l, Ascending(lane.pending.Keys));
    KeepAppend(out, drained, OnLane(l));
    BlocksAppend(evs, l, released, rest);
    StepsTogether(lane, evs, l, out);
  }

  lemma StepsTogether(lane: Lane, evs: seq<Event>, l: nat, out: seq<Event>)
    requires Buffers(lane, evs, l, out)
    ensures var steps := UpTo(lane.cursor) + FinishedOf(evs, l, Ascending(lane.pending.Keys));
      Increasing(steps) && forall i :: i in steps <==> Finished(evs, l, i)
  {
    hide Keep, Blocks, FinishedOf, Finished, Ascending;
    var released, rest := UpTo(lane.cursor), FinishedOf(evs, l, Ascending(lane.pending.Keys));
    AscendingSorts(lane.pending.Keys);
    FinishedOfMembers(evs, l, Ascending(lane.pending.Keys));
    forall i: nat ensures i in released + rest <==> Finished(evs, l, i) {
      assert StepOk(lane, evs, l, i);
      assert i < lane.cursor ==> released[i] == i;
    }
    forall i, k | i in released && k in rest ensures i < k {
      assert StepOk(lane, evs, l, k);
    }
    IncreasingAppend(released, rest);
  }

  const NO_LANE := Lane(0, map[])

  /** The lanes with the listed ones drained. */
  ghost function Emptied(lanes: map<nat, Lane>, ords: seq<nat>): map<nat, Lane> {
    map l | l in lanes :: if l in ords then Lane(lanes[l].cursor, map[]) else lanes[l]
  }

  lemma NoneEmptied(lanes: map<nat, Lane>)
    ensures Emptied(lanes, []) == lanes
  {
  }

  lemma AllEmptied(lanes: map<nat, Lane>, ords: seq<nat>)
    requires forall l :: l in lanes ==> l in ords
    ensures forall l :: l in Emptied(lanes, ords) ==> Emptied(lanes, ords)[l].pending == map[]
  {
  }

  lemma NotEmptiedYet(lanes: map<nat, Lane>, ords: seq<nat>, k: nat)
    requires k < |ords| && Increasing(ords) && ords[k] in lanes
    ensures var before := Emptied(lanes, ords[..k]);
      && ords[k] in before && before[ords[k]] == lanes[ords[k]]
      && Emptied(lanes, ords[..k + 1]) == before[ords[k] := Lane(lanes[ords[k]].cursor, map[])]
  {
    assert ords[..k + 1] == ords[..k] + [ords[k]];
    assert forall j :: 0 <= j < k ==> ords[j] < ords[k];
  }

  class Sequencer {
    var lanes: map<nat, Lane>
    var out: seq<Event>          // what the wrapped output has been given
    ghost var evs: seq<Event>    // what has been received

    ghost function LaneOf(l: nat): Lane
      reads this`lanes
    {
      if l in lanes then lanes[l] else NO_LANE
    }

    ghost predicate LaneOk(l: nat)
      reads this
    {
      Buffers(LaneOf(l), evs, l, out) && !Finished(evs, l, LaneOf(l).cursor)
    }

    /** As long as the events are orderly, no lane has a finished step at its cursor, everything
        released is serial, and out-of-band events have passed in their order. */
    ghost predicate Valid()
      reads this
    {
      Orderly(evs) ==>
        && (forall l: nat {:trigger LaneOk(l)} :: LaneOk(l))
        && Keep(out, Loose()) == Keep(evs, Loose())
    }

    constructor ()
      ensures Valid() && evs == [] && out == []
    {
      lanes, out, evs := map[], [], [];
    }

    /** Replays one block: its changes, then its verdict. */
    method FlushBlock(b: Block)
      modifies this`out
      ensures out == old(out) + Released(b)
    {
      for k := 0 to |b.changes|
        invariant out == old(out) + b.changes[..k]
      {
        assert b.changes[..k + 1] == b.changes[..k] + [b.changes[k]];
        out := out + [b.changes[k]];
      }
      assert b.changes[..|b.changes|] == b.changes;
      if b.result.Some? {
        out := out + [b.result.value];
      }
    }

    /** collect: routes a step event into the block of its step. */
    method Collect(e: Event)
      requires !e.OutOfBand?
      modifies this`lanes
      ensures lanes == old(lanes)[e.lane := Collected(old(LaneOf(e.lane)), e)]
    {
      var lane := if e.lane in lanes then lanes[e.lane] else NO_LANE;
      lanes := lanes[e.lane := Collected(lane, e)];
    }

    /** The released events of lane l, and what the output keeps of everything else. */
    ghost predicate OthersKept(l: nat, before: seq<Event>)
      reads this`out
    {
      && Keep(out, Loose()) == Keep(before, Loose())
      && forall m: nat {:trigger OnLane(m)} :: m != l ==> Keep(out, OnLane(m)) == Keep(before, OnLane(m))
    }

    /** One turn of advance: the finished block at the cursor is flushed and dropped. */
    method ReleaseAtCursor(l: nat)
      requires l in lanes
      requires lanes[l].cursor in lanes[l].pending && lanes[l].pending[lanes[l].cursor].result.Some?
      modifies this`lanes, this`out
      ensures l in lanes && lanes == old(lanes)[l := lanes[l]]
      ensures |lanes[l].pending| < |old(lanes[l].pending)| && old(out) <= out
      ensures old(Buffers(lanes[l], evs, l, out)) ==> Buffers(lanes[l], evs, l, out) && OthersKept(l, old(out))
    {
      var lane := lanes[l];
      var b := lane.pending[lane.cursor];
      if Buffers(lane, evs, l, out) {
        AdvanceKeepsBuffers(lane, evs, l, out);
        assert StepOk(lane, evs, l, lane.cursor);
        forall m: nat {:trigger OnLane(m)} | m != l ensures Keep(out + Released(b), OnLane(m)) == Keep(out, OnLane(m)) {
          FlushAppends(b, evs, l, lane.cursor, out, m);
        }
        FlushAppends(b, evs, l, lane.cursor, out, l);
      }
      FlushBlock(b);
      var rest := lane.pending - {lane.cursor};
      assert lane.pending.Keys == rest.Keys + {lane.cursor};
      lanes := lanes[l := Lane(lane.cursor + 1, rest)];
    }

    /** advance: releases finished blocks contiguously from the cursor of lane l. */
    method Advance(l: nat)
      requires l in lanes
      modifies this`lanes, this`out
      ensures l in lanes && lanes == old(lanes)[l := lanes[l]] && old(out) <= out
      ensures old(Buffers(lanes[l], evs, l, out)) ==>
        Buffers(lanes[l], evs, l, out) && !Finished(evs, l, lanes[l].cursor) && OthersKept(l, old(out))
    {
      ghost var ok := Buffers(lanes[l], evs, l, out);
      while lanes[l].cursor in lanes[l].pending && lanes[l].pending[lanes[l].cursor].result.Some?
        invariant l in lanes && lanes == old(lanes)[l := lanes[l]] && old(out) <= out
        invariant ok ==> Buffers(lanes[l], evs, l, out) && OthersKept(l, old(out))
        decreases |lanes[l].pending|
      {
        ReleaseAtCursor(l);
      }
      assert ok ==> StepOk(lanes[l], evs, l, lanes[l].cursor);
    }

    /** Out-of-band events pass straight through. */
    method RenderLoose(e: Event)
      requires Valid() && e.OutOfBand?
      modifies this`out, this`evs
      ensures Valid() && evs == old(evs) + [e] && out == old(out) + [e]
    {
      ghost var evs0, out0 := evs, out;
      out := out + [e];
      evs := evs + [e];
      if Orderly(evs) {
        OrderlyPrefix(evs0, e);
        KeepOne(evs0, e, Loose());
        KeepOne(out0, e, Loose());
        forall l: nat ensures LaneOk(l) {
          assert old(LaneOk(l));
          OtherLaneUntouched(LaneOf(l), evs0, e, l, out0);
          KeepOne(out0, e, OnLane(l));
        }
      }
    }

    /** Step events wait in their block; a result may set its lane going. */
    method RenderStep(e: Event)
      requires Valid() && !e.OutOfBand?
      modifies this
      ensures Valid() && evs == old(evs) + [e] && old(out) <= out
    {
      hide Keep, Blocks, Touched, Holds, UpTo, StepOk;
      var l0 := e.lane;
      ghost var evs0 := evs;
      ghost var ok := Orderly(evs + [e]);
      if ok {
        OrderlyPrefix(evs, e);
        KeepOne(evs, e, Loose());
        assert LaneOk(l0);
        CollectKeepsBuffers(LaneOf(l0), evs, e, out);
        StepAfter(evs, e, l0, LaneOf(l0).cursor);
      }
      Collect(e);
      evs := evs + [e];
      assert ok ==> Buffers(lanes[l0], evs, l0, out);
      if e.Result? {
        Advance(l0);
      }
      forall l: nat | ok ensures LaneOk(l) {
        if l != l0 {
          assert old(LaneOk(l));
          OtherLaneUntouched(old(LaneOf(l)), evs0, e, l, old(out));
          assert LaneOf(l) == old(LaneOf(l));
          assert Keep(out, OnLane(l)) == Keep(old(out), OnLane(l));
        }
      }
    }

    method RenderEvent(e: Event)
      requires Valid()
      modifies this
      ensures Valid() && evs == old(evs) + [e] && old(out) <= out
    {
      if e.OutOfBand? {
        RenderLoose(e);
      } else {
        RenderStep(e);
      }
    }

    method DrainLane(l: nat)
      requires l in lanes
      modifies this`lanes, this`out
      ensures lanes == old(lanes)[l := Lane(old(lanes[l].cursor), map[])]
      ensures out == old(out) + LaneDrain(old(lanes[l]))
    {
      hide Ascending, LaneText, Released, Increasing;
      var lane := lanes[l];
      var idxs := SortKeys(lane.pending.Keys);
      ghost var text: seq<Event> := [];
      assert LaneText(lane, []) == [] by {
        LaneTextNone(lane);
      }
      for k := 0 to |idxs|
        invariant text == LaneText(lane, idxs[..k]) && out == old(out) + text && lanes == old(lanes)
      {
        LaneTextOne(lane, idxs[..k], idxs[k]);
        assert idxs[..k + 1] == idxs[..k] + [idxs[k]];
        var b := lane.pending[idxs[k]];
        if b.result.Some? {
          FlushBlock(b);
        }
        text := text + BlockText(lane, idxs[k]);
      }
      assert idxs[..|idxs|] == idxs;
      lanes := lanes[l := Lane(lane.cursor, map[])];
    }

    ghost predicate Drained()
      reads this`lanes
    {
      forall l :: l in lanes ==> lanes[l].pending == map[]
    }

    /** drain: finished blocks of all lanes, by lane ordinal and step index; the rest is discarded. */
    method Drain()
      modifies this`lanes, this`out
      ensures Drained()
      ensures out == old(out) + DrainText(old(lanes), Ascending(old(lanes.Keys)))
    {
      hide Ascending, LaneDrain, DrainText, Increasing, Emptied;
      var ords := SortKeys(lanes.Keys);
      ghost var text: seq<Event> := [];
      NothingLeft(lanes, []);
      NoneEmptied(lanes);
      assert ords[..0] == [];
      for k := 0 to |ords|
        invariant lanes == Emptied(old(lanes), ords[..k])
        invariant text == DrainText(old(lanes), ords[..k]) && out == old(out) + text
      {
        NotEmptiedYet(old(lanes), ords, k);
        DrainTextOne(old(lanes), ords[..k], ords[k]);
        assert ords[..k + 1] == ords[..k] + [ords[k]];
        DrainLane(ords[k]);
        text := text + LaneDrain(old(lanes)[ords[k]]);
      }
      assert ords[..|ords|] == ords;
      AllEmptied(old(lanes), ords);
    }

    /** Flush: whatever the interleaving was and whichever steps never finished, every lane's output
        is serial afterwards, nothing is buffered any more, and out-of-band events kept their order. With
        nothing buffered, as after another Flush, it emits nothing. */
    method Flush()
      requires Valid()
      modifies this`lanes, this`out
      ensures Drained() && out == old(out) + DrainText(old(lanes), Ascending(old(lanes.Keys)))
      ensures old(Drained()) ==> out == old(out)
      ensures Orderly(evs) ==> (forall l: nat :: SerialOn(evs, l, out)) && Keep(out, Loose()) == Keep(evs, Loose())
    {
      hide Keep, Blocks, Ascending, FinishedOf, Finished, DrainText;
      ghost var text := DrainText(lanes, Ascending(lanes.Keys));
      AscendingSorts(lanes.Keys);
      if Drained() {
        NothingLeft(lanes, Ascending(lanes.Keys));
      }
      Drain();
      if Orderly(evs) {
        forall l, i | l in old(lanes) && i in old(lanes)[l].pending ensures Holds(old(lanes)[l].pending[i], evs, l, i) {
          assert old(LaneOk(l));
          assert StepOk(old(lanes)[l], evs, l, i);
        }
        AscendingSorts(old(lanes).Keys);
        forall l: nat ensures SerialOn(evs, l, out) {
          assert old(LaneOk(l));
          DrainTextIsSerial(old(lanes), evs, Ascending(old(lanes).Keys), l);
          NothingPending(evs, l);
          DrainedIsSerial(old(LaneOf(l)), evs, l, old(out), text);
        }
        DrainTextIsSerial(old(lanes), evs, Ascending(old(lanes).Keys), 0);
        KeepAppend(old(out), text, Loose());
        assert Keep(old(out), Loose()) + [] == Keep(old(out), Loose());
      }
    }
  }

  lemma NothingPending(evs: seq<Event>, l: nat)
    ensures Blocks(evs, l, FinishedOf(evs, l, Ascending(NO_LANE.pending.Keys))) == []
  {
    assert NO_LANE.pending.Keys == {};
  }

  lemma {:induction false} NothingLeft(lanes: map<nat, Lane>, ords: seq<nat>)
    requires forall l :: l in ords ==> l in lanes && lanes[l].pending == map[]
    ensures DrainText(lanes, ords) == []
    decreases |ords|
  {
    if ords != [] {
      NothingLeft(lanes, ords[..|ords| - 1]);
      assert lanes[ords[|ords| - 1]].pending.Keys == {};
    }
  }

  /** A lane whose steps 0..k-1 have all finished is released completely, before any flush. */
  lemma CompleteLaneIsReleased(s: Sequencer, l: nat, k: nat)
    requires s.Valid() && Orderly(s.evs)
    requires forall i: nat :: Finished(s.evs, l, i) <==> i < k
    ensures Keep(s.out, OnLane(l)) == Blocks(s.evs, l, UpTo(k))
  {
    assert s.LaneOk(l);
    var c := s.LaneOf(l).cursor;
    assert StepOk(s.LaneOf(l), s.evs, l, k);
    assert c == k;
  }
}
