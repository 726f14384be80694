// The input-report FIFO that the IOKit and libusb backends keep per device:
// completion callbacks append a copy of each delivered report at the tail,
// and return_data takes the head out and copies it into the caller's buffer.
// The backends hold the queue as a `seq<Report>` field and reassign it; this
// module holds what both share: the copy into the caller's buffer and the
// FIFO guarantee over any interleaving of deliveries and reads.
module ReportQueue {
  import opened HidTypes

  /** The copy step of return_data: `min(length, |rpt|)` bytes of the head
      report go to the front of the caller's buffer, and the rest of the
      buffer is left as it was. */
  method CopyOut(data: array<byte>, rpt: Report, length: nat) returns (n: nat)
    requires length <= data.Length
    modifies data
    ensures n == Min(length, |rpt|)
    ensures data[..n] == rpt[..n]
    ensures data[n..] == old(data[n..])
  {
    n := if length < |rpt| then length else |rpt|;
    var i := 0;
    while i < n
      invariant 0 <= i <= n
      invariant forall j :: 0 <= j < i ==> data[j] == rpt[j]
      invariant forall j :: i <= j < data.Length ==> data[j] == old(data[j])
    {
      data[i] := rpt[i];
      i := i + 1;
    }
  }

  /** One thing that can happen to a device's queue: the event side delivers
      a report, or a read takes the head (if there is one). */
  datatype QueueEvent = Delivered(report: Report) | Consumed

  /** The queue after one event: a delivery appends at the tail, a read of a
      non-empty queue drops the head, a read of an empty queue changes
      nothing. */
  function Step(q: seq<Report>, e: QueueEvent): seq<Report>
  {
    match e
    case Delivered(r) => q + [r]
    case Consumed => if q == [] then q else q[1..]
  }

  /** The queue after a whole run of events. */
  function Final(q: seq<Report>, events: seq<QueueEvent>): seq<Report>
    decreases |events|
  {
    if events == [] then q else Final(Step(q, events[0]), events[1..])
  }

  /** The reports the reads of a run hand out, in the order they hand them out. */
  function Handed(q: seq<Report>, events: seq<QueueEvent>): seq<Report>
    decreases |events|
  {
    if events == [] then []
    else
      (if events[0].Consumed? && q != [] then [q[0]] else [])
      + Handed(Step(q, events[0]), events[1..])
  }

  /** The reports a run delivers, in delivery order. */
  function Deliveries(events: seq<QueueEvent>): seq<Report>
    decreases |events|
  {
    if events == [] then []
    else
      (if events[0].Delivered? then [events[0].report] else [])
      + Deliveries(events[1..])
  }

  /** FIFO without loss or duplication: whatever interleaving of deliveries
      and reads happens, what the reads handed out followed by what is still
      queued is exactly what was queued at the start followed by every
      delivery, in delivery order. */
  lemma {:induction false} FifoNoLossNoDuplication(q: seq<Report>, events: seq<QueueEvent>)
    ensures Handed(q, events) + Final(q, events) == q + Deliveries(events)
    decreases |events|
  {
    if events != [] {
      var e, rest := events[0], events[1..];
      var q' := Step(q, e);
      FifoNoLossNoDuplication(q', rest);
      match e
      case Delivered(r) =>
        calc {
          Handed(q, events) + Final(q, events);
          Handed(q', rest) + Final(q', rest);
          (q + [r]) + Deliveries(rest);
          q + ([r] + Deliveries(rest));
          q + Deliveries(events);
        }
      case Consumed =>
        if q == [] {
          assert Handed(q, events) + Final(q, events) == q' + Deliveries(rest);
        } else {
          calc {
            Handed(q, events) + Final(q, events);
            ([q[0]] + Handed(q', rest)) + Final(q', rest);
            [q[0]] + (Handed(q', rest) + Final(q', rest));
            [q[0]] + (q[1..] + Deliveries(rest));
            { assert [q[0]] + q[1..] == q; }
            q + Deliveries(events);
          }
        }
    }
  }

  /** In particular, when every delivered report has been read and the queue
      started empty, the reads returned the deliveries in order. */
  lemma DrainedQueueReturnsDeliveries(events: seq<QueueEvent>)
    requires Final([], events) == []
    ensures Handed([], events) == Deliveries(events)
  {
    FifoNoLossNoDuplication([], events);
    assert Handed([], events) + [] == Handed([], events);
  }
}
