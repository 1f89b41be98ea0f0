/**
 * The observable selection shared by the dashboard's components: the
 * dataset, the selected region and a start/end year index, plus a list of
 * listeners that every setter calls synchronously, in registration order.
 *
 * Listeners are identified by number; what a listener does is outside this
 * module, so a call is recorded in a ghost trace as the listener's id and the
 * state it was handed. Re-entrant setters inside a listener are not modelled.
 */
module Shared {
  import opened Basics
  import opened Records

  type ListenerId = nat

  /** The fields a listener can read from the state it is handed. */
  datatype Snapshot = Snapshot(region: string, startYearIndex: Option<int>, endYearIndex: Option<int>)

  /** One listener call: which listener, and what the state held at that moment. */
  datatype Notification = Notification(listener: ListenerId, state: Snapshot)

  /**
   * `listeners.forEach(cb => cb(this))`: every registered listener is called
   * exactly once, in registration order, with the same state.
   */
  function Broadcast(listeners: seq<ListenerId>, state: Snapshot): (calls: seq<Notification>)
    ensures |calls| == |listeners|
    ensures forall i :: 0 <= i < |calls| ==> calls[i].listener == listeners[i] && calls[i].state == state
  {
    if |listeners| == 0 then []
    else Broadcast(listeners[..|listeners| - 1], state) + [Notification(listeners[|listeners| - 1], state)]
  }

  class SharedState {
    var data: seq<YearRecord>
    var region: string
    var startYearIndex: Option<int>
    var endYearIndex: Option<int>
    var listeners: seq<ListenerId>
    ghost var trace: seq<Notification>

    function Snap(): Snapshot
      reads this
    {
      Snapshot(region, startYearIndex, endYearIndex)
    }

    /** Stores its arguments as given, with no listeners. */
    constructor(data: seq<YearRecord>, region: string, startYearIndex: Option<int>, endYearIndex: Option<int>)
      ensures this.data == data && this.region == region
      ensures this.startYearIndex == startYearIndex && this.endYearIndex == endYearIndex
      ensures listeners == [] && trace == []
    {
      this.data := data;
      this.region := region;
      this.startYearIndex := startYearIndex;
      this.endYearIndex := endYearIndex;
      listeners := [];
      trace := [];
    }

    /** Appends one listener at the end; there is no way to remove one. */
    method OnChange(callback: ListenerId)
      modifies this
      ensures listeners == old(listeners) + [callback]
      ensures data == old(data) && Snap() == old(Snap()) && trace == old(trace)
    {
      listeners := listeners + [callback];
    }

    /** Calls every listener once, in registration order, handing it this state. */
    method Notify()
      modifies this
      ensures trace == old(trace) + Broadcast(listeners, Snap())
      ensures data == old(data) && Snap() == old(Snap()) && listeners == old(listeners)
    {
      var i := 0;
      while i < |listeners|
        invariant 0 <= i <= |listeners|
        invariant trace == old(trace) + Broadcast(listeners[..i], Snap())
        invariant data == old(data) && Snap() == old(Snap()) && listeners == old(listeners)
      {
        assert listeners[..i + 1][..i] == listeners[..i];
        trace := trace + [Notification(listeners[i], Snap())];
        i := i + 1;
      }
      assert listeners[..i] == listeners;
    }

    /** Writes the region, then notifies even if the region did not change. */
    method SetRegion(region: string)
      modifies this
      ensures this.region == region
      ensures startYearIndex == old(startYearIndex) && endYearIndex == old(endYearIndex)
      ensures data == old(data) && listeners == old(listeners)
      ensures trace == old(trace) + Broadcast(listeners, Snap())
    {
      this.region := region;
      Notify();
    }

    /** Writes the start index, with no bounds check, then notifies. */
    method SetStartYearIndex(yearIndex: Option<int>)
      modifies this
      ensures startYearIndex == yearIndex
      ensures region == old(region) && endYearIndex == old(endYearIndex)
      ensures data == old(data) && listeners == old(listeners)
      ensures trace == old(trace) + Broadcast(listeners, Snap())
    {
      startYearIndex := yearIndex;
      Notify();
    }

    method GetStartYearIndex() returns (yearIndex: Option<int>)
      ensures yearIndex == startYearIndex
    {
      yearIndex := startYearIndex;
    }

    /** Writes the end index, with no bounds check and no check against the start, then notifies. */
    method SetEndYearIndex(yearIndex: Option<int>)
      modifies this
      ensures endYearIndex == yearIndex
      ensures region == old(region) && startYearIndex == old(startYearIndex)
      ensures data == old(data) && listeners == old(listeners)
      ensures trace == old(trace) + Broadcast(listeners, Snap())
    {
      endYearIndex := yearIndex;
      Notify();
    }

    method GetEndYearIndex() returns (yearIndex: Option<int>)
      ensures yearIndex == endYearIndex
    {
      yearIndex := endYearIndex;
    }
  }

  /**
   * A get right after the matching set returns what was set, and each
   * listener registered so far has been called once with the new value.
   */
  method SetThenGet(s: SharedState, start: Option<int>, end: Option<int>)
      returns (gotStart: Option<int>, gotEnd: Option<int>)
    modifies s
    ensures gotStart == start && gotEnd == end
    ensures s.trace == old(s.trace)
      + Broadcast(s.listeners, Snapshot(s.region, start, old(s.endYearIndex)))
      + Broadcast(s.listeners, Snapshot(s.region, start, end))
  {
    s.SetStartYearIndex(start);
    gotStart := s.GetStartYearIndex();
    s.SetEndYearIndex(end);
    gotEnd := s.GetEndYearIndex();
  }
}
