/**
 * The drag tracker of composables/useDrag.ts: pointer events on a target
 * surface drive one drag at a time; each handled event remaps the pointer into
 * the virtual square `[-1, 1] x [-5/4, 5/4]` and reports a snapshot of the
 * drag data to the `onDrag` callback.
 */
module Drag {
  import opened Wrappers
  import opened Linearly

  /** The target's bounding client rectangle. */
  datatype Box = Box(left: real, top: real, right: real, bottom: real)

  /** A box with a positive width and height, for which the remap is defined. */
  predicate ValidBox(b: Box)
  {
    b.left < b.right && b.top < b.bottom
  }

  /** The drag data reported to `onDrag` (composables/useDrag.ts:4-9). */
  datatype DragData = DragData(initial: Vec2, delta: Vec2, current: Vec2, prev: Vec2)

  const ZeroData: DragData := DragData(Zero2, Zero2, Zero2, Zero2)

  /** Corners of the virtual space the box is mapped onto. */
  const VirtualMin: Vec2 := Vec2(-1.0, -5.0 / 4.0)
  const VirtualMax: Vec2 := Vec2(1.0, 5.0 / 4.0)

  /** The client point mapped linearly from the box onto the virtual space. */
  function Remap(client: Vec2, box: Box): Vec2
    requires ValidBox(box)
  {
    Efit2(client, Vec2(box.left, box.top), Vec2(box.right, box.bottom), VirtualMin, VirtualMax)
  }

  /** The inverse map, from the virtual space back to client coordinates. */
  function Unmap(v: Vec2, box: Box): Vec2
    requires ValidBox(box)
  {
    Efit2(v, VirtualMin, VirtualMax, Vec2(box.left, box.top), Vec2(box.right, box.bottom))
  }

  /** Multiplying by `d` and then dividing by it gives back the number. */
  lemma MulDivCancel(x: real, d: real)
    requires d != 0.0
    ensures x * d / d == x
  {
  }

  lemma MulDivSwap(x: real, y: real, d: real)
    requires d != 0.0
    ensures x * y / d == x / d * y
  {
  }

  /** `efit` sends its input range onto its output range: the end points and the midpoint go to their counterparts. */
  lemma EfitEnds(i0: real, i1: real, o0: real, o1: real)
    requires i0 != i1
    ensures Efit(i0, i0, i1, o0, o1) == o0
    ensures Efit(i1, i0, i1, o0, o1) == o1
    ensures Efit((i0 + i1) / 2.0, i0, i1, o0, o1) == (o0 + o1) / 2.0
  {
    var d := i1 - i0;
    MulDivSwap(d, o1 - o0, d);
    MulDivCancel(1.0, d);
    MulDivSwap((i0 + i1) / 2.0 - i0, o1 - o0, d);
    assert (i0 + i1) / 2.0 - i0 == 0.5 * d;
    MulDivCancel(0.5, d);
  }

  /** `efit` with an increasing input and output range keeps points of the input range inside the output range. */
  lemma EfitWithin(a: real, i0: real, i1: real, o0: real, o1: real)
    requires i0 < i1 && o0 < o1 && i0 <= a <= i1
    ensures o0 <= Efit(a, i0, i1, o0, o1) <= o1
  {
    var t := (a - i0) / (i1 - i0);
    UnitFraction(a - i0, i1 - i0);
    MulDivSwap(a - i0, o1 - o0, i1 - i0);
    NonNegProduct(t, o1 - o0);
    NonNegProduct(1.0 - t, o1 - o0);
    assert (o1 - o0) - t * (o1 - o0) == (1.0 - t) * (o1 - o0);
    assert Efit(a, i0, i1, o0, o1) == o0 + t * (o1 - o0);
  }

  lemma UnitFraction(x: real, d: real)
    requires 0.0 < d && 0.0 <= x <= d
    ensures 0.0 <= x / d <= 1.0
  {
  }

  /** Mapping back with the swapped ranges recovers the input. */
  lemma EfitRoundTrip(a: real, i0: real, i1: real, o0: real, o1: real)
    requires i0 != i1 && o0 != o1
    ensures Efit(Efit(a, i0, i1, o0, o1), o0, o1, i0, i1) == a
  {
    var t := (a - i0) / (i1 - i0);
    MulDivSwap(a - i0, o1 - o0, i1 - i0);
    var b := Efit(a, i0, i1, o0, o1);
    assert b - o0 == t * (o1 - o0);
    MulDivSwap(t * (o1 - o0), i1 - i0, o1 - o0);
    assert t * (o1 - o0) / (o1 - o0) == t by {
      MulDivCancel(t, o1 - o0);
    }
    assert t * (i1 - i0) == a - i0 by {
      MulDivSwap(a - i0, 1.0, i1 - i0);
      assert (a - i0) / (i1 - i0) * (i1 - i0) == a - i0;
    }
  }

  /** The remap sends the box's top-left corner, bottom-right corner and centre to those of the virtual space. */
  lemma RemapLandmarks(box: Box)
    requires ValidBox(box)
    ensures Remap(Vec2(box.left, box.top), box) == VirtualMin
    ensures Remap(Vec2(box.right, box.bottom), box) == VirtualMax
    ensures Remap(Vec2((box.left + box.right) / 2.0, (box.top + box.bottom) / 2.0), box) == Zero2
  {
    EfitEnds(box.left, box.right, -1.0, 1.0);
    EfitEnds(box.top, box.bottom, -5.0 / 4.0, 5.0 / 4.0);
  }

  /** A point inside the box lands inside the virtual space. */
  lemma RemapInsideBox(client: Vec2, box: Box)
    requires ValidBox(box)
    requires box.left <= client.x <= box.right && box.top <= client.y <= box.bottom
    ensures VirtualMin.x <= Remap(client, box).x <= VirtualMax.x
    ensures VirtualMin.y <= Remap(client, box).y <= VirtualMax.y
  {
    EfitWithin(client.x, box.left, box.right, -1.0, 1.0);
    EfitWithin(client.y, box.top, box.bottom, -5.0 / 4.0, 5.0 / 4.0);
  }

  /** The remap is exact and invertible: no point of the client plane is clamped or merged with another. */
  lemma RemapRoundTrip(client: Vec2, box: Box)
    requires ValidBox(box)
    ensures Unmap(Remap(client, box), box) == client
  {
    EfitRoundTrip(client.x, box.left, box.right, -1.0, 1.0);
    EfitRoundTrip(client.y, box.top, box.bottom, -5.0 / 4.0, 5.0 / 4.0);
  }

  /** A pointer event on the target; `Up` stands for up, cancel, out and leave, which share one handler. */
  datatype PointerEvent = Down(client: Vec2, box: Box) | Move(client: Vec2, box: Box) | Up

  /** The tracker's state: whether a drag is active, and the drag data. */
  datatype DragState = DragState(isDragging: bool, data: DragData)

  const Idle: DragState := DragState(false, ZeroData)

  /**
   * The events whose handling reads the box: a pointer-down, and a move while a
   * drag is active. Only these need a box with positive width and height; an
   * idle move is dropped before any box is read.
   */
  predicate HandledWithBox(s: DragState, e: PointerEvent)
  {
    e.Down? || (e.Move? && s.isDragging)
  }

  predicate WellFormedAt(s: DragState, e: PointerEvent)
  {
    HandledWithBox(s, e) ==> ValidBox(e.box)
  }

  /**
   * The snapshot `handlePointerMove` hands to `onDrag`: the remapped point as
   * `current`; on pointer-down also as `initial` and `prev`; `delta` from `prev`.
   */
  function Snapshot(data: DragData, client: Vec2, box: Box, setInitial: bool): (snap: DragData)
    requires ValidBox(box)
    ensures snap.current == Remap(client, box)
    ensures snap.delta == Sub2(snap.current, snap.prev)
    ensures setInitial ==> snap.initial == snap.prev == snap.current && snap.delta == Zero2
    ensures !setInitial ==> snap.initial == data.initial && snap.prev == data.prev
  {
    var current := Remap(client, box);
    var prev := if setInitial then current else data.prev;
    var initial := if setInitial then current else data.initial;
    DragData(initial, Sub2(current, prev), current, prev)
  }

  /** The drag data left behind once `onDrag` returns: `prev` catches up with `current`. */
  function Settled(snap: DragData): DragData
  {
    snap.(prev := snap.current)
  }

  /** One pointer event: the new state and the snapshot passed to `onDrag`, if any. */
  function Step(s: DragState, e: PointerEvent): (DragState, Option<DragData>)
    requires WellFormedAt(s, e)
  {
    match e
    case Down(client, box) =>
      var snap := Snapshot(s.data, client, box, true);
      (DragState(true, Settled(snap)), Some(snap))
    case Move(client, box) =>
      if !s.isDragging then (s, None)
      else
        var snap := Snapshot(s.data, client, box, false);
        (s.(data := Settled(snap)), Some(snap))
    case Up =>
      (s.(isDragging := false), None)
  }

  function OptionToSeq<T>(o: Option<T>): seq<T>
  {
    if o.Some? then [o.value] else []
  }

  /** Every event of the sequence that reads the box, read in the state replay reaches before it, has a proper box. */
  predicate Replayable(evs: seq<PointerEvent>)
    decreases |evs|, 0
  {
    evs == [] || (Replayable(evs[..|evs| - 1]) && WellFormedAt(Replay(evs[..|evs| - 1]).0, evs[|evs| - 1]))
  }

  /** The state after a sequence of events from a fresh tracker, and every snapshot reported, oldest first. */
  function Replay(evs: seq<PointerEvent>): (DragState, seq<DragData>)
    requires Replayable(evs)
    decreases |evs|, 1
  {
    if evs == [] then (Idle, [])
    else
      var r := Replay(evs[..|evs| - 1]);
      var step := Step(r.0, evs[|evs| - 1]);
      (step.0, r.1 + OptionToSeq(step.1))
  }

  /** Replaying one more event is one more step from the replayed state. */
  lemma ReplaySnoc(evs: seq<PointerEvent>, e: PointerEvent)
    requires Replayable(evs) && WellFormedAt(Replay(evs).0, e)
    ensures Replayable(evs + [e])
    ensures Replay(evs + [e]) == (Step(Replay(evs).0, e).0, Replay(evs).1 + OptionToSeq(Step(Replay(evs).0, e).1))
  {
    assert (evs + [e])[..|evs|] == evs;
  }

  /** Pointer-down starts a drag: `initial`, `prev` and `current` are the remapped point and the snapshot's delta is zero. */
  lemma DownStartsDrag(s: DragState, client: Vec2, box: Box)
    requires ValidBox(box)
    ensures var r := Remap(client, box);
      Step(s, Down(client, box)) == (DragState(true, DragData(r, Zero2, r, r)), Some(DragData(r, Zero2, r, r)))
  {
  }

  /** A move while no drag is active changes nothing and reports nothing. */
  lemma IdleMoveIgnored(s: DragState, client: Vec2, box: Box)
    requires !s.isDragging
    ensures Step(s, Move(client, box)) == (s, None)
  {
  }

  /** Up, cancel, out and leave only end the drag. */
  lemma UpOnlyEndsDrag(s: DragState)
    ensures Step(s, Up) == (DragState(false, s.data), None)
  {
  }

  /** `onDrag` is called exactly once for a pointer-down or a move during a drag, and never otherwise. */
  lemma OnDragOncePerHandledEvent(s: DragState, e: PointerEvent)
    requires WellFormedAt(s, e)
    ensures Step(s, e).1.Some? <==> e.Down? || (e.Move? && s.isDragging)
    ensures !e.Down? ==> Step(s, e).0.data.initial == s.data.initial
  {
  }

  /**
   * What holds after every replay: `prev` equals `current`; every snapshot has
   * `delta == current - prev`; the last snapshot carries the tracker's current
   * `current` and `initial`; and a drag is active only after some snapshot.
   */
  predicate Consistent(s: DragState, log: seq<DragData>)
  {
    && s.data.prev == s.data.current
    && (forall i :: 0 <= i < |log| ==> log[i].delta == Sub2(log[i].current, log[i].prev))
    && (s.isDragging ==> |log| > 0)
    && (|log| > 0 ==> log[|log| - 1].current == s.data.current && log[|log| - 1].initial == s.data.initial)
  }

  /** One event keeps the tracker consistent with its reports. */
  lemma StepKeepsConsistent(s: DragState, log: seq<DragData>, e: PointerEvent)
    requires Consistent(s, log) && WellFormedAt(s, e)
    ensures Consistent(Step(s, e).0, log + OptionToSeq(Step(s, e).1))
  {
    var log' := log + OptionToSeq(Step(s, e).1);
    if Step(s, e).1.Some? {
      assert log'[|log'| - 1] == Step(s, e).1.value;
      assert forall i :: 0 <= i < |log| ==> log'[i] == log[i];
    } else {
      assert log' == log;
    }
  }

  lemma {:induction false} ReplayInvariant(evs: seq<PointerEvent>)
    requires Replayable(evs)
    ensures Consistent(Replay(evs).0, Replay(evs).1)
    decreases |evs|
  {
    if evs != [] {
      var front := evs[..|evs| - 1];
      ReplayInvariant(front);
      StepKeepsConsistent(Replay(front).0, Replay(front).1, evs[|evs| - 1]);
    }
  }

  /**
   * During a drag, a move is measured from the previously reported `current`:
   * its snapshot keeps that drag's `initial`, has the last reported `current`
   * as `prev`, and the difference as `delta`.
   */
  lemma MoveMeasuredFromLastReport(evs: seq<PointerEvent>, client: Vec2, box: Box)
    requires Replayable(evs) && ValidBox(box)
    requires Replay(evs).0.isDragging
    ensures |Replay(evs).1| > 0
    ensures var log := Replay(evs).1;
      var last := log[|log| - 1];
      var r := Remap(client, box);
      Replay(evs + [Move(client, box)]).1 == log + [DragData(last.initial, Sub2(r, last.current), r, last.current)]
  {
    ReplayInvariant(evs);
    ReplaySnoc(evs, Move(client, box));
  }

  /** Pointer-down at the centre reports `[0, 0]`; a move to the top-right corner then reports `[1, -5/4]` with that as delta. */
  lemma CentreThenTopRight(box: Box)
    requires ValidBox(box)
    ensures var centre := Vec2((box.left + box.right) / 2.0, (box.top + box.bottom) / 2.0);
      var corner := Vec2(box.right, box.top);
      var evs := [Down(centre, box), Move(corner, box)];
      Replayable(evs) &&
      Replay(evs).1 == [ZeroData, DragData(Zero2, Vec2(1.0, -5.0 / 4.0), Vec2(1.0, -5.0 / 4.0), Zero2)]
  {
    var centre := Vec2((box.left + box.right) / 2.0, (box.top + box.bottom) / 2.0);
    var corner := Vec2(box.right, box.top);
    RemapLandmarks(box);
    EfitEnds(box.left, box.right, -1.0, 1.0);
    EfitEnds(box.top, box.bottom, -5.0 / 4.0, 5.0 / 4.0);
    assert Remap(corner, box) == Vec2(1.0, -5.0 / 4.0);
    ReplaySnoc([], Down(centre, box));
    assert [Down(centre, box)] + [Move(corner, box)] == [Down(centre, box), Move(corner, box)];
    ReplaySnoc([Down(centre, box)], Move(corner, box));
  }

  /** The state `useDrag` keeps for one target (composables/useDrag.ts:17-24). */
  class DragTracker {
    var isDragging: bool
    var initial: Vec2
    var delta: Vec2
    var current: Vec2
    var prev: Vec2
    /** Every snapshot passed to `onDrag`, oldest first. */
    var reports: seq<DragData>
    /** The pointer events handled so far. */
    ghost var history: seq<PointerEvent>

    function Data(): DragData
      reads this
    {
      DragData(initial, delta, current, prev)
    }

    /** The fields are what replaying the handled events gives. */
    ghost predicate Valid()
      reads this
    {
      Replayable(history) && Replay(history) == (DragState(isDragging, Data()), reports)
    }

    constructor ()
      ensures Valid() && history == []
      ensures !isDragging && Data() == ZeroData && reports == []
    {
      isDragging := false;
      initial, delta, current, prev := Zero2, Zero2, Zero2, Zero2;
      reports := [];
      history := [];
    }

    /** `handlePointerMove`: remap, optionally restart, compute delta, report, then let `prev` catch up. */
    method HandlePointerMove(client: Vec2, box: Box, setInitial: bool)
      requires ValidBox(box)
      modifies this`initial, this`delta, this`current, this`prev, this`reports
      ensures reports == old(reports) + [Snapshot(old(Data()), client, box, setInitial)]
      ensures Data() == Settled(Snapshot(old(Data()), client, box, setInitial))
    {
      current := Remap(client, box);
      if setInitial {
        prev := current;
        initial := prev;
      }
      delta := Sub2(current, prev);
      reports := reports + [Data()];
      prev := current;
    }

    /** The pointer-down listener: start a drag and handle the point with `setInitial`. */
    method PointerDown(client: Vec2, box: Box)
      requires Valid() && ValidBox(box)
      modifies this
      ensures Valid() && history == old(history) + [Down(client, box)]
      ensures var r := Remap(client, box);
        && isDragging && Data() == DragData(r, Zero2, r, r)
        && reports == old(reports) + [DragData(r, Zero2, r, r)]
    {
      isDragging := true;
      HandlePointerMove(client, box, true);
      ReplaySnoc(history, Down(client, box));
      history := history + [Down(client, box)];
    }

    /** The pointer-move listener: ignored unless a drag is active. */
    method PointerMove(client: Vec2, box: Box)
      requires Valid() && (isDragging ==> ValidBox(box))
      modifies this
      ensures Valid() && history == old(history) + [Move(client, box)]
      ensures isDragging == old(isDragging)
      ensures !old(isDragging) ==> Data() == old(Data()) && reports == old(reports)
      ensures old(isDragging) ==>
        var snap := Snapshot(old(Data()), client, box, false);
        && reports == old(reports) + [snap]
        && Data() == Settled(snap)
        && snap.prev == old(current) && snap.initial == old(initial)
    {
      ReplaySnoc(history, Move(client, box));
      assert OptionToSeq<DragData>(None) == [] && reports + [] == reports;
      if isDragging {
        HandlePointerMove(client, box, false);
      }
      history := history + [Move(client, box)];
    }

    /** `handlePointerUp`, shared by up, cancel, out and leave: end the drag. */
    method PointerUp()
      requires Valid()
      modifies this`isDragging, this`history
      ensures Valid() && history == old(history) + [Up]
      ensures !isDragging
    {
      ReplaySnoc(history, Up);
      assert OptionToSeq<DragData>(None) == [] && reports + [] == reports;
      isDragging := false;
      history := history + [Up];
    }
  }
}
