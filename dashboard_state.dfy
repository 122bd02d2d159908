/** `DashboardState`: the state shared between the trading bot and the web
    dashboard. Only the parts with behaviour are modelled: the rolling log buffer
    and the registry of live-stream subscribers with its drop-on-full broadcast.
    Every locked section of the source is one atomic step here. */
module Dashboard {
  import opened Seqs
  import opened EventQueues

  /** `_max_log_lines`: how many log lines the buffer keeps. */
  const MaxLogLines: nat := 500

  /** `maxsize` of every subscriber queue. */
  const SubscriberQueueSize: nat := 50

  class DashboardState {
    /** `_log_lines`, oldest first. */
    var logLines: seq<string>
    /** `_subscribers`: one queue per open event stream, in subscription order. */
    var subscribers: seq<EventQueue>

    ghost predicate Valid()
      reads this, subscribers
    {
      |logLines| <= MaxLogLines &&
      Distinct(subscribers) &&
      forall q :: q in subscribers ==> q.maxSize == SubscriberQueueSize && q.Valid()
    }

    constructor ()
      ensures Valid()
      ensures logLines == [] && subscribers == []
    {
      logLines := [];
      subscribers := [];
    }

    /** The registered subscribers whose queue cannot take another message. */
    ghost function FullSubscribers(): set<EventQueue>
      reads this`subscribers, subscribers
    {
      set q | q in subscribers && q.IsFull()
    }

    /** `add_log(line)`: the buffer becomes the most recent `MaxLogLines` lines
        with `line` last, and the one message `("log", line)` is published. */
    method AddLog(line: string)
      requires Valid()
      modifies this, subscribers
      ensures Valid()
      ensures logLines == LastN(old(logLines) + [line], MaxLogLines)
      ensures subscribers == Without(old(subscribers), old(FullSubscribers()))
      ensures forall q :: q in old(subscribers) ==>
                q.items == Offered(old(q.items), q.maxSize, Message("log", line))
    {
      logLines := logLines + [line];
      if |logLines| > MaxLogLines {
        SliceFromNegated(logLines, MaxLogLines);
        logLines := SliceFrom(logLines, -(MaxLogLines as int));
      }
      SendEvent("log", line);
    }

    /** `get_logs(last_n)`: `_log_lines[-last_n:]`. For `lastN >= 1` these are the
        `min(lastN, |logLines|)` most recent lines, oldest first; `lastN == 0`
        gives the whole buffer and a negative `lastN` drops that many lines from
        the front, as Python's slicing does. */
    function GetLogs(lastN: int): (r: seq<string>)
      reads this
      ensures lastN >= 1 ==> |r| == (if lastN < |logLines| then lastN else |logLines|)
      ensures lastN >= 1 ==> r == logLines[|logLines| - |r|..]
      ensures lastN == 0 ==> r == logLines
      ensures lastN < 0 ==> r == logLines[if -lastN < |logLines| then -lastN else |logLines|..]
    {
      SliceFrom(logLines, -lastN)
    }

    /** `subscribe()`: a new empty queue of capacity 50 joins the end of the
        registry; nothing else changes. */
    method Subscribe() returns (q: EventQueue)
      requires Valid()
      modifies this
      ensures Valid() && fresh(q)
      ensures q.maxSize == SubscriberQueueSize && q.items == []
      ensures subscribers == old(subscribers) + [q]
      ensures logLines == old(logLines)
      ensures forall p :: p in old(subscribers) ==> p.items == old(p.items)
    {
      q := new EventQueue(SubscriberQueueSize);
      subscribers := subscribers + [q];
    }

    /** `unsubscribe(q)`: `q` leaves the registry if it is there; the other
        subscribers stay, in order. */
    method Unsubscribe(q: EventQueue)
      requires Valid()
      modifies this
      ensures Valid()
      ensures subscribers == Without(old(subscribers), {q})
      ensures q !in subscribers && |subscribers| == |old(subscribers)| - (if q in old(subscribers) then 1 else 0)
      ensures logLines == old(logLines)
      ensures forall p :: p in old(subscribers) ==> p.items == old(p.items)
    {
      RemoveFirstDistinct(subscribers, q);
      WithoutDistinct(subscribers, {q});
      WithoutMembers(subscribers, {q});
      if q in subscribers {
        subscribers := RemoveFirst(subscribers, q);
      }
    }

    /** `_notify()`: publishes the current state as a `"state"` event; the JSON
        rendering of the state is an opaque argument here. */
    method Notify(stateJson: string)
      requires Valid()
      modifies this, subscribers
      ensures Valid()
      ensures logLines == old(logLines)
      ensures subscribers == Without(old(subscribers), old(FullSubscribers()))
      ensures forall q :: q in old(subscribers) ==>
                q.items == Offered(old(q.items), q.maxSize, Message("state", stateJson))
    {
      SendEvent("state", stateJson);
    }

    /** `_send_event(event_type, data)`: every registered queue with room gets
        the message at its back and stays registered; every full queue is
        left untouched and dropped from the registry; the survivors keep their
        order. */
    method SendEvent(eventType: string, data: string)
      requires Valid()
      modifies this, subscribers
      ensures Valid()
      ensures logLines == old(logLines)
      ensures subscribers == Without(old(subscribers), old(FullSubscribers()))
      ensures forall q :: q in subscribers <==> q in old(subscribers) && !old(q.IsFull())
      ensures forall q :: q in old(subscribers) ==>
                q.items == Offered(old(q.items), q.maxSize, Message(eventType, data))
    {
      var msg := Message(eventType, data);
      ghost var registered := subscribers;
      ghost var full := FullSubscribers();
      ghost var live := set q | q in registered && q !in full;
      var dead := OfferToAll(msg, live);
      WithoutMembers(registered, live);
      WithoutDistinct(registered, live);
      DropAll(dead, registered);
      WithoutSameOnS(registered, (set q | q in dead), full);
      WithoutDistinct(registered, full);
      WithoutMembers(registered, full);
    }

    /** The first loop of `_send_event`: `put_nowait` to every registered queue,
        in order, collecting the queues that raised `Full`. */
    method OfferToAll(msg: Message, ghost live: set<EventQueue>) returns (dead: seq<EventQueue>)
      requires Distinct(subscribers)
      requires forall k :: 0 <= k < |subscribers| ==> (subscribers[k] in live <==> !subscribers[k].IsFull())
      modifies subscribers
      ensures forall k :: 0 <= k < |subscribers| ==>
                subscribers[k].items == Offered(old(subscribers[k].items), subscribers[k].maxSize, msg)
      ensures dead == Without(subscribers, live)
    {
      dead := [];
      var qs: seq<EventQueue> := subscribers;
      var i := 0;
      while i < |qs|
        invariant 0 <= i <= |qs|
        invariant forall k :: 0 <= k < i ==> qs[k].items == Offered(old(qs[k].items), qs[k].maxSize, msg)
        invariant forall k :: i <= k < |qs| ==> qs[k].items == old(qs[k].items)
        invariant dead == Without(qs[..i], live)
      {
        var q := qs[i];
        DeadStep(qs, live, i);
        ghost var wasLive := q in live;
        var accepted := q.PutNowait(msg);
        assert accepted == wasLive;
        if !accepted {
          dead := dead + [q];
        }
        i := i + 1;
      }
      assert qs[..i] == qs;
    }

  /** The second loop of `_send_event`: `remove` each collected queue from the
        registry; the survivors keep their order. */
    method DropAll(dead: seq<EventQueue>, ghost registered: seq<EventQueue>)
      requires subscribers == registered && Distinct(registered) && Distinct(dead)
      requires forall q :: q in dead ==> q in registered
      modifies this`subscribers
      ensures subscribers == Without(registered, set q | q in dead)
    {
      ghost var removed: set<EventQueue> := {};
      WithoutAbsent(registered, removed);
      var j := 0;
      while j < |dead|
        invariant 0 <= j <= |dead|
        invariant removed == (set k | 0 <= k < j :: dead[k])
        invariant subscribers == Without(registered, removed)
      {
        var q := dead[j];
        RemovedStep(dead, j);
        RemoveDead(registered, removed, q);
        subscribers := RemoveFirst(subscribers, q);
        removed := removed + {q};
        j := j + 1;
      }
      assert removed == set q | q in dead;
    }
  }

  lemma RemovedStep<T>(dead: seq<T>, j: nat)
    requires j < |dead| && Distinct(dead)
    ensures dead[j] !in (set k | 0 <= k < j :: dead[k])
    ensures (set k | 0 <= k < j + 1 :: dead[k]) == (set k | 0 <= k < j :: dead[k]) + {dead[j]}
  {
  }

  /** The list of full queues grows by the queue just tried exactly when that
      queue was full. */
  lemma DeadStep<T>(registered: seq<T>, live: set<T>, i: nat)
    requires i < |registered|
    ensures Without(registered[..i + 1], live) ==
            Without(registered[..i], live) + (if registered[i] in live then [] else [registered[i]])
  {
    assert registered[..i + 1] == registered[..i] + [registered[i]];
    WithoutAppend(registered[..i], [registered[i]], live);
  }

  /** One `remove` of the second loop of `_send_event`: the queue is still
      registered (so Python's `remove` does not raise), and removing it is the
      same as filtering one more queue out of the original registry. */
  lemma RemoveDead<T>(registered: seq<T>, removed: set<T>, q: T)
    requires Distinct(registered) && q in registered && q !in removed
    ensures q in Without(registered, removed)
    ensures RemoveFirst(Without(registered, removed), q) == Without(registered, removed + {q})
  {
    WithoutDistinct(registered, removed);
    RemoveFirstDistinct(Without(registered, removed), q);
    WithoutWithout(registered, removed, {q});
  }

  /** The log buffer after `add_log` of each of `lines`, one after another. */
  function LogAfter(buf: seq<string>, lines: seq<string>): seq<string>
    decreases |lines|
  {
    if lines == [] then buf else LogAfter(LastN(buf + [lines[0]], MaxLogLines), lines[1..])
  }

  /** One `add_log`: the buffer stays within bound, the new line is last, and the
      lines before it are the most recent old ones in their old order; the
      oldest line is the one evicted. */
  lemma AddLogShape(buf: seq<string>, line: string)
    requires |buf| <= MaxLogLines
    ensures var r := LastN(buf + [line], MaxLogLines);
      |r| == (if |buf| < MaxLogLines then |buf| + 1 else MaxLogLines) &&
      r[|r| - 1] == line &&
      r[..|r| - 1] == buf[|buf| - (|r| - 1)..]
  {
    var r := LastN(buf + [line], MaxLogLines);
    assert r[..|r| - 1] == (buf + [line])[|buf| + 1 - |r|..|buf|];
  }

  /** Trimming early loses nothing that trimming late would keep. */
  lemma LastNOfLastN<T>(s: seq<T>, t: seq<T>, n: nat)
    ensures LastN(LastN(s, n) + t, n) == LastN(s + t, n)
  {
    if n < |s| {
      var u := s[|s| - n..] + t;
      if n < |u| {
        assert u[|u| - n..] == (s + t)[|s + t| - n..];
      } else {
        assert u == (s + t)[|s + t| - n..];
      }
    }
  }

  /** Whatever lines are appended, the buffer holds exactly the last
      `min(500, total)` of all lines ever appended, in append order. */
  lemma {:induction false} LogKeepsMostRecent(buf: seq<string>, lines: seq<string>)
    requires |buf| <= MaxLogLines
    ensures LogAfter(buf, lines) == LastN(buf + lines, MaxLogLines)
    ensures |LogAfter(buf, lines)| <= MaxLogLines
    decreases |lines|
  {
    if lines == [] {
      assert buf + lines == buf;
    } else {
      var next := LastN(buf + [lines[0]], MaxLogLines);
      LogKeepsMostRecent(next, lines[1..]);
      LastNOfLastN(buf + [lines[0]], lines[1..], MaxLogLines);
      assert buf + [lines[0]] + lines[1..] == buf + lines;
    }
  }

  /** `unsubscribe` twice is `unsubscribe` once, it is a no-op on a queue that is
      not registered, and the queue is gone afterwards. */
  lemma {:induction false} UnsubscribeIdempotent<T>(s: seq<T>, q: T)
    ensures Without(Without(s, {q}), {q}) == Without(s, {q})
    ensures q !in s ==> Without(s, {q}) == s
    ensures q !in Without(s, {q})
  {
    WithoutWithout(s, {q}, {q});
    WithoutMembers(s, {q});
    assert {q} + {q} == {q};
    if q !in s {
      WithoutAbsent(s, {q});
    }
  }

  /** What happens to one subscriber that nobody drains while `ms` are
      published one by one: whether it is still registered, and its queue. */
  datatype Fate = Fate(registered: bool, items: seq<Message>)

  function Deliveries(items: seq<Message>, maxSize: nat, ms: seq<Message>): Fate
    decreases |ms|
  {
    if ms == [] then Fate(true, items)
    else if IsFullQueue(items, maxSize) then Fate(false, items)
    else Deliveries(items + [ms[0]], maxSize, ms[1..])
  }

  /** An undrained subscriber receives the published messages in publish order,
      with no gap and no duplicate, for as long as they fit; it stays registered
      exactly when all of them fit, and otherwise it is dropped holding the prefix
      that fitted. */
  lemma {:induction false} DeliveriesArePrefix(items: seq<Message>, maxSize: nat, ms: seq<Message>)
    requires maxSize == 0 || |items| <= maxSize
    ensures var f := Deliveries(items, maxSize, ms);
      (f.registered <==> maxSize == 0 || |items| + |ms| <= maxSize) &&
      (f.registered ==> f.items == items + ms) &&
      (!f.registered ==> f.items == items + ms[..maxSize - |items|])
    decreases |ms|
  {
    if ms != [] && !IsFullQueue(items, maxSize) {
      DeliveriesArePrefix(items + [ms[0]], maxSize, ms[1..]);
      assert items + [ms[0]] + ms[1..] == items + ms;
      if maxSize > 0 && |items| + |ms| > maxSize {
        assert [ms[0]] + ms[1..][..maxSize - |items| - 1] == ms[..maxSize - |items|];
      }
    } else if ms != [] {
      assert ms[..maxSize - |items|] == [];
    }
  }

  /** A fresh subscriber that never drains its queue takes the first 50 events
      and is dropped by the 51st. */
  lemma FiftyFirstEventDrops(ms: seq<Message>)
    requires |ms| == SubscriberQueueSize + 1
    ensures Deliveries([], SubscriberQueueSize, ms) == Fate(false, ms[..SubscriberQueueSize])
  {
    DeliveriesArePrefix([], SubscriberQueueSize, ms);
    assert [] + ms[..SubscriberQueueSize] == ms[..SubscriberQueueSize];
  }

  /** The producer publishing `ms` one after another (as successive `add_log` and
      `_notify` calls do) moves every registered subscriber along `Deliveries`. */
  method PublishSequence(st: DashboardState, ms: seq<Message>, ghost q: EventQueue)
    requires st.Valid() && q in st.subscribers
    modifies st, set p | p in st.subscribers
    ensures st.Valid()
    ensures var f := Deliveries(old(q.items), q.maxSize, ms);
      (q in st.subscribers <==> f.registered) && q.items == f.items
  {
    var i := 0;
    while i < |ms|
      invariant 0 <= i <= |ms|
      invariant st.Valid()
      invariant forall p :: p in st.subscribers ==> p in old(st.subscribers)
      invariant Deliveries(old(q.items), q.maxSize, ms) ==
                if q in st.subscribers then Deliveries(q.items, q.maxSize, ms[i..])
                else Fate(false, q.items)
    {
      assert ms[i..][1..] == ms[i + 1..];
      st.SendEvent(ms[i].eventType, ms[i].data);
      i := i + 1;
    }
  }

  /** One step seen by a single subscriber while its stream is open: the producer
      publishes a message (`_send_event`), or the stream loop takes from the
      queue. */
  datatype QueueStep = Publish(m: Message) | Take

  /** A subscriber's side of an open stream: whether it is still registered,
      its queue, and the messages the stream loop has taken so far. */
  datatype Subscription = Subscription(registered: bool, items: seq<Message>, taken: seq<Message>)

  /** One step: a publication reaches a registered subscriber that has room and
      drops one that is full; a take moves the front of a non-empty queue to the
      messages taken. */
  function StepSubscription(s: Subscription, maxSize: nat, step: QueueStep): Subscription {
    match step
    case Publish(m) =>
      if !s.registered then s
      else if IsFullQueue(s.items, maxSize) then s.(registered := false)
      else s.(items := s.items + [m])
    case Take =>
      if s.items == [] then s
      else s.(items := s.items[1..], taken := s.taken + [s.items[0]])
  }

  function RunSteps(s: Subscription, maxSize: nat, steps: seq<QueueStep>): Subscription
    decreases |steps|
  {
    if steps == [] then s else RunSteps(StepSubscription(s, maxSize, steps[0]), maxSize, steps[1..])
  }

  /** The message a step publishes, if any. */
  function PublishedBy(step: QueueStep): seq<Message> {
    if step.Publish? then [step.m] else []
  }

  /** The messages published among `steps`, in order. */
  function Published(steps: seq<QueueStep>): seq<Message>
    decreases |steps|
  {
    if steps == [] then [] else PublishedBy(steps[0]) + Published(steps[1..])
  }

  /** Whatever the interleaving of publications and takes, what the stream loop
      has taken followed by what is still queued is the messages published, in
      publish order, with no gap or duplicate: all of them while the subscriber
      stays registered, and a prefix of them once it has been dropped. A dropped
      subscriber is never registered again, nothing taken is given back, and the
      queue stays within its capacity. */
  lemma {:induction false} InterleavingKeepsOrder(s: Subscription, maxSize: nat, steps: seq<QueueStep>)
    requires maxSize == 0 || |s.items| <= maxSize
    ensures var r := RunSteps(s, maxSize, steps);
      (r.registered ==> s.registered) &&
      (r.registered ==> r.taken + r.items == s.taken + s.items + Published(steps)) &&
      (!s.registered ==> r.taken + r.items == s.taken + s.items) &&
      r.taken + r.items <= s.taken + s.items + Published(steps) &&
      s.taken <= r.taken &&
      (maxSize == 0 || |r.items| <= maxSize)
    decreases |steps|
  {
    if steps != [] {
      var s1 := StepSubscription(s, maxSize, steps[0]);
      var rest := Published(steps[1..]);
      StepKeepsOrder(s, maxSize, steps[0]);
      InterleavingKeepsOrder(s1, maxSize, steps[1..]);
      var r := RunSteps(s1, maxSize, steps[1..]);
      PrefixTransitive(s.taken, s1.taken, r.taken);
      if s1.registered {
        assert s1.taken + s1.items + rest == s.taken + s.items + Published(steps);
      } else {
        PrefixOfAppend(s.taken + s.items, Published(steps));
      }
    }
  }

  /** One step of `InterleavingKeepsOrder`. */
  lemma StepKeepsOrder(s: Subscription, maxSize: nat, step: QueueStep)
    requires maxSize == 0 || |s.items| <= maxSize
    ensures var s1 := StepSubscription(s, maxSize, step);
      (s1.registered ==> s.registered) &&
      (s1.registered ==> s1.taken + s1.items == s.taken + s.items + PublishedBy(step)) &&
      (!s1.registered ==> s1.taken + s1.items == s.taken + s.items) &&
      s.taken <= s1.taken &&
      (maxSize == 0 || |s1.items| <= maxSize)
  {
    if step.Take? && s.items != [] {
      assert s.taken + [s.items[0]] + s.items[1..] == s.taken + s.items;
    }
  }

  lemma PrefixTransitive<T>(a: seq<T>, b: seq<T>, c: seq<T>)
    requires a <= b && b <= c
    ensures a <= c
  {
    assert c[..|a|] == b[..|a|];
  }

  lemma PrefixOfAppend<T>(a: seq<T>, b: seq<T>)
    ensures a <= a + b
  {
    assert (a + b)[..|a|] == a;
  }
}
