/** include/packetlist.h: the four observation points, the immutable
    QEDObservation value and the FIFO ObservationList. */
module PacketList {
  import opened Words
  import opened Optional

  /** Where on the path a time was taken; NumObservationPoints is the enum's
      count member, which a value can still hold. */
  datatype ObservationPoint =
    ClientSend | ServerReceive | ServerSend | ClientReceive | NumObservationPoints

  /** One timing observation: the point, nanoseconds since the Unix epoch, the
      packet id and the payload length. Its getters are the datatype's fields. */
  datatype QEDObservation = QEDObservation(
    observationPoint: ObservationPoint,
    epochNanoseconds: U64,
    packetId: U32,
    payloadLen: U16)

  /** A first-in first-out queue; `observations` is the deque front to back, and
      iterating from begin() to end() visits it in this order. */
  class ObservationList<T> {
    var observations: seq<T>

    constructor()
      ensures observations == []
    {
      observations := [];
    }

    /** push_back: the new element goes last; the others keep their places. */
    method AddObservation(x: T)
      modifies this
      ensures observations == old(observations) + [x]
      ensures |observations| == |old(observations)| + 1
    {
      observations := observations + [x];
    }

    /** front() then pop_front(); the deque must not be empty. */
    method PopObservation() returns (x: T)
      requires observations != []
      modifies this
      ensures x == old(observations)[0]
      ensures observations == old(observations)[1..]
      ensures [x] + observations == old(observations)
    {
      x := observations[0];
      observations := observations[1..];
    }

    /** The front without removing it, or null when the list is empty. */
    method GetOldestEntry() returns (r: Option<T>)
      ensures r.None? <==> |observations| == 0
      ensures r.Some? ==> r.value == observations[0]
    {
      if |observations| == 0 {
        r := None;
      } else {
        r := Some(observations[0]);
      }
    }

    method GetSize() returns (n: nat)
      ensures n == |observations|
    {
      n := |observations|;
    }

    method IsEmpty() returns (b: bool)
      ensures b <==> |observations| == 0
    {
      b := |observations| == 0;
    }
  }
}
