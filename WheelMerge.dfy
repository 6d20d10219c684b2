/** The wheel-event coalescer (`mergeWheelEvents`): every wheel event adds its
    deltas to two running sums, and only the first event since the last frame
    asks for an animation frame. When the frame fires, the handler receives
    the event that asked for it and the two sums, and the sums and the request
    are cleared. The frame callback is modelled as an explicit `Fire` step. */
module WheelMerge {

  /** The two deltas a wheel event carries. */
  datatype WheelEvent = WheelEvent(deltaX: real, deltaY: real)

  /** The horizontal deltas of `events`, added up: never negative when no
      delta is. */
  function SumX(events: seq<WheelEvent>): (r: real)
    ensures (forall k :: 0 <= k < |events| ==> events[k].deltaX >= 0.0) ==> r >= 0.0
  {
    if events == [] then 0.0
    else SumX(events[..|events| - 1]) + events[|events| - 1].deltaX
  }

  /** The vertical deltas of `events`, added up: never negative when no
      delta is. */
  function SumY(events: seq<WheelEvent>): (r: real)
    ensures (forall k :: 0 <= k < |events| ==> events[k].deltaY >= 0.0) ==> r >= 0.0
  {
    if events == [] then 0.0
    else SumY(events[..|events| - 1]) + events[|events| - 1].deltaY
  }

  /** Splitting a stream of wheel events into consecutive frames loses no
      delta and counts none twice: the sums over two adjacent windows add up
      to the sums over both. */
  lemma {:induction false} SumsSplit(first: seq<WheelEvent>, second: seq<WheelEvent>)
    ensures SumX(first + second) == SumX(first) + SumX(second)
    ensures SumY(first + second) == SumY(first) + SumY(second)
    decreases |second|
  {
    if second != [] {
      var both := first + second;
      assert both[..|both| - 1] == first + second[..|second| - 1];
      SumsSplit(first, second[..|second| - 1]);
    } else {
      assert first + second == first;
    }
  }

  /** The closure state of one coalescer: whether a frame is requested
      (`rafId` set), the two sums, and the event the requested frame will hand
      to the handler. `pending` records the events ingested since the last
      frame. */
  class WheelMerger {
    var scheduled: bool
    var sumDeltaX: real
    var sumDeltaY: real
    var captured: WheelEvent
    ghost var pending: seq<WheelEvent>

    /** The sums are the sums of the pending events, a frame is requested
        exactly when some event is pending, and the requested frame carries
        the first of them. */
    ghost predicate Valid()
      reads this
    {
      && sumDeltaX == SumX(pending)
      && sumDeltaY == SumY(pending)
      && (scheduled <==> pending != [])
      && (pending != [] ==> captured == pending[0])
    }

    constructor ()
      ensures Valid() && pending == []
      ensures !scheduled && sumDeltaX == 0.0 && sumDeltaY == 0.0
    {
      scheduled := false;
      sumDeltaX := 0.0;
      sumDeltaY := 0.0;
      captured := WheelEvent(0.0, 0.0);
      pending := [];
    }

    /** One wheel event: add its deltas, and request a frame (reported in
        `requested`) only when none is pending. */
    method Ingest(event: WheelEvent) returns (requested: bool)
      requires Valid()
      modifies this
      ensures Valid() && pending == old(pending) + [event]
      ensures requested == !old(scheduled) && scheduled
      ensures sumDeltaX == old(sumDeltaX) + event.deltaX
      ensures sumDeltaY == old(sumDeltaY) + event.deltaY
    {
      sumDeltaX := sumDeltaX + event.deltaX;
      sumDeltaY := sumDeltaY + event.deltaY;
      pending := pending + [event];
      assert pending[..|pending| - 1] == old(pending);
      requested := !scheduled;
      if requested {
        captured := event;
        scheduled := true;
      }
    }

    /** The requested frame: hand the capturing event and the two sums to the
        handler, then clear the sums and the request. */
    method Fire() returns (event: WheelEvent, deltaX: real, deltaY: real)
      requires Valid() && scheduled
      modifies this
      ensures event == old(pending)[0]
      ensures deltaX == SumX(old(pending)) && deltaY == SumY(old(pending))
      ensures Valid() && pending == []
      ensures !scheduled && sumDeltaX == 0.0 && sumDeltaY == 0.0
    {
      event, deltaX, deltaY := captured, sumDeltaX, sumDeltaY;
      sumDeltaX := 0.0;
      sumDeltaY := 0.0;
      scheduled := false;
      pending := [];
    }
  }

  /** A burst of wheel events between two frames: only the first event
      requests a frame, and that frame delivers the first event and the exact
      sums of all the deltas, after which the coalescer is idle again. */
  method Burst(merger: WheelMerger, events: seq<WheelEvent>)
    returns (requests: nat, event: WheelEvent, deltaX: real, deltaY: real)
    requires merger.Valid() && !merger.scheduled && events != []
    modifies merger
    ensures requests == 1
    ensures event == events[0] && deltaX == SumX(events) && deltaY == SumY(events)
    ensures merger.Valid() && !merger.scheduled && merger.pending == []
  {
    requests := 0;
    var i := 0;
    while i < |events|
      invariant 0 <= i <= |events|
      invariant merger.Valid() && merger.pending == events[..i]
      invariant requests == if i == 0 then 0 else 1
    {
      var requested := merger.Ingest(events[i]);
      assert events[..i + 1] == events[..i] + [events[i]];
      if requested {
        requests := requests + 1;
      }
      i := i + 1;
    }
    assert events[..i] == events;
    event, deltaX, deltaY := merger.Fire();
  }
}
