/** The per-subscriber FIFO queue (a `queue.Queue` with a `maxsize`), read as a
    sequential object: each of its methods is one atomic step. */
module EventQueues {
  import opened Wrappers

  /** One published event: the `(event_type, data)` tuple put on every subscriber
      queue. `data` is an opaque, already-serialised payload. */
  datatype Message = Message(eventType: string, data: string)

  /** A queue with `maxSize > 0` is full once it holds `maxSize` items; a queue
      whose `maxSize` is 0 is unbounded and never full. */
  predicate IsFullQueue(items: seq<Message>, maxSize: nat) {
    0 < maxSize <= |items|
  }

  /** The contents after a non-blocking put of `m`: a full queue refuses it and
      stays as it was. */
  function Offered(items: seq<Message>, maxSize: nat, m: Message): seq<Message> {
    if IsFullQueue(items, maxSize) then items else items + [m]
  }

  class EventQueue {
    const maxSize: nat
    var items: seq<Message>

    /** A bounded queue never holds more than its capacity. */
    ghost predicate Valid()
      reads this
    {
      maxSize == 0 || |items| <= maxSize
    }

    constructor (maxSize: nat)
      ensures Valid()
      ensures this.maxSize == maxSize && items == []
    {
      this.maxSize := maxSize;
      items := [];
    }

    predicate IsFull()
      reads this
    {
      IsFullQueue(items, maxSize)
    }

    /** `put_nowait(m)`: appends `m` at the back, or, when the queue is full,
        leaves it untouched and reports the refusal (Python raises `queue.Full`). */
    method PutNowait(m: Message) returns (accepted: bool)
      modifies this
      ensures old(Valid()) ==> Valid()
      ensures accepted <==> !old(IsFull())
      ensures items == Offered(old(items), maxSize, m)
    {
      accepted := !IsFull();
      if accepted {
        items := items + [m];
      }
    }

    /** `get(timeout=15)` with the wait left out: the front message if there is
        one, otherwise `None` (the timeout, after which the stream sends a
        keepalive). */
    method Get() returns (r: Option<Message>)
      requires Valid()
      modifies this
      ensures Valid()
      ensures old(items) == [] ==> r == None && items == []
      ensures old(items) != [] ==> r == Some(old(items)[0]) && items == old(items)[1..]
    {
      if items == [] {
        r := None;
      } else {
        r := Some(items[0]);
        items := items[1..];
      }
    }
  }
}
