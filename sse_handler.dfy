/** The `/events` handler (`_serve_sse`) as a sequence of steps over the shared
    state: open the stream (the `init` frame, then a subscription), one frame per
    turn of the stream loop, and the unsubscription when the client goes away.
    HTTP, the socket and the encoding to bytes are not modelled; a frame is the
    text written. */
module SseHandler {
  import opened Wrappers
  import opened Seqs
  import opened EventQueues
  import opened Dashboard
  import opened EventStream

  /** How many recent log lines the `init` frame carries. */
  const InitLogLines: int := 200

  /** Opening a stream: the `init` frame carries the state rendered together with
      the 200 most recent log lines (`render` stands for the JSON encoding of
      `to_dict()` and those lines), and a new subscriber joins the registry
      after it. */
  method OpenStream(st: DashboardState, render: seq<string> -> string) returns (frame: string, q: EventQueue)
    requires st.Valid()
    modifies st
    ensures st.Valid() && fresh(q)
    ensures frame == InitFrame(render(old(st.GetLogs(InitLogLines))))
    ensures q.maxSize == SubscriberQueueSize && q.items == []
    ensures st.subscribers == old(st.subscribers) + [q]
    ensures st.logLines == old(st.logLines)
  {
    var logs := st.GetLogs(InitLogLines);
    frame := InitFrame(render(logs));
    q := st.Subscribe();
  }

  /** One turn of the stream loop: the message at the front of the queue is
      taken and framed, or, when the queue is empty until the wait runs out, a
      keepalive is written. The frame is the one the source writes, with the
      payload after a single `data: `. */
  method NextFrame(q: EventQueue) returns (frame: string, o: Option<Message>)
    requires q.Valid()
    modifies q
    ensures q.Valid()
    ensures frame == OutputFrame(o)
    ensures old(q.items) == [] ==> o == None && q.items == []
    ensures old(q.items) != [] ==> o == Some(old(q.items)[0]) && q.items == old(q.items)[1..]
  {
    o := q.Get();
    frame := OutputFrame(o);
  }

  /** `turns` turns of the stream loop with nothing published meanwhile: the
      queue is drained from the front, one message per turn, and keepalives
      follow once it is empty. */
  method ServeTurns(q: EventQueue, turns: nat) returns (out: string, ghost outs: seq<Option<Message>>)
    requires q.Valid()
    modifies q
    ensures q.Valid()
    ensures |outs| == turns && out == Transcript(outs)
    ensures var k := if turns < |old(q.items)| then turns else |old(q.items)|;
      Received(outs) == old(q.items)[..k] && q.items == old(q.items)[k..]
    ensures forall j :: 0 <= j < turns ==> outs[j] == TurnOutcome(old(q.items), j)
  {
    out := "";
    outs := [];
    ghost var initial := q.items;
    ghost var taken := 0;
    var i := 0;
    while i < turns
      invariant 0 <= i <= turns && |outs| == i && q.Valid()
      invariant out == Transcript(outs)
      invariant taken == if i < |initial| then i else |initial|
      invariant Received(outs) == initial[..taken] && q.items == initial[taken..]
      invariant forall j :: 0 <= j < i ==> outs[j] == TurnOutcome(initial, j)
    {
      var frame, o := NextFrame(q);
      TranscriptAppend(outs, o);
      ReceivedAppend(outs, o);
      if taken < |initial| {
        TakeStep(initial, taken);
        taken := taken + 1;
      } else {
        RightUnit(Received(outs));
      }
      OutcomesStep(outs, o, initial);
      out := out + frame;
      outs := outs + [o];
      i := i + 1;
    }
  }

  /** The stream loop and the producer taking turns on one open stream, in the
      order `steps` gives: a publication is `_send_event` on the shared state, a
      take is one turn of the stream loop. The queue, the subscriber's
      registration and the messages the loop takes follow `RunSteps`, about which
      `InterleavingKeepsOrder` says that nothing is lost, duplicated or reordered
      before the subscriber is dropped; the text written is the transcript of
      the loop turns, which `StreamParses` reads back as the messages taken. */
  method ServeWhilePublishing(st: DashboardState, q: EventQueue, steps: seq<QueueStep>)
      returns (out: string, ghost outs: seq<Option<Message>>, taken: seq<Message>)
    requires st.Valid() && q in st.subscribers
    modifies st, set p | p in st.subscribers
    ensures st.Valid() && q.Valid()
    ensures var r := RunSteps(Subscription(true, old(q.items), []), q.maxSize, steps);
      (q in st.subscribers <==> r.registered) && q.items == r.items && taken == r.taken
    ensures taken + q.items <= old(q.items) + Published(steps)
    ensures q in st.subscribers ==> taken + q.items == old(q.items) + Published(steps)
    ensures out == Transcript(outs) && Received(outs) == taken
  {
    out := "";
    outs := [];
    taken := [];
    var i := 0;
    while i < |steps|
      invariant 0 <= i <= |steps|
      invariant st.Valid() && q.Valid()
      invariant forall p :: p in st.subscribers ==> p in old(st.subscribers)
      invariant RunSteps(Subscription(true, old(q.items), []), q.maxSize, steps) ==
                RunSteps(Subscription(q in st.subscribers, q.items, taken), q.maxSize, steps[i..])
      invariant out == Transcript(outs) && Received(outs) == taken
    {
      assert steps[i..][1..] == steps[i + 1..];
      out, outs, taken := ServeStep(st, q, steps[i], out, outs, taken);
      i := i + 1;
    }
    InterleavingKeepsOrder(Subscription(true, old(q.items), []), q.maxSize, steps);
  }

  /** One step of `ServeWhilePublishing`, which moves the subscriber along
      `StepSubscription`. */
  method ServeStep(st: DashboardState, q: EventQueue, step: QueueStep,
                   out: string, ghost outs: seq<Option<Message>>, taken: seq<Message>)
      returns (out': string, ghost outs': seq<Option<Message>>, taken': seq<Message>)
    requires st.Valid() && q.Valid() && out == Transcript(outs) && Received(outs) == taken
    modifies st, (set p | p in st.subscribers), q
    ensures st.Valid() && q.Valid() && out' == Transcript(outs') && Received(outs') == taken'
    ensures forall p :: p in st.subscribers ==> p in old(st.subscribers)
    ensures Subscription(q in st.subscribers, q.items, taken') ==
            StepSubscription(Subscription(old(q in st.subscribers), old(q.items), taken), q.maxSize, step)
  {
    match step {
      case Publish(m) =>
        st.SendEvent(m.eventType, m.data);
        out', outs', taken' := out, outs, taken;
      case Take =>
        out', outs', taken' := TakeTurn(q, out, outs, taken);
    }
  }

  /** One turn of the stream loop that also keeps the text written so far and
      the messages taken so far in step. */
  method TakeTurn(q: EventQueue, out: string, ghost outs: seq<Option<Message>>, taken: seq<Message>)
      returns (out': string, ghost outs': seq<Option<Message>>, taken': seq<Message>)
    requires q.Valid() && out == Transcript(outs) && Received(outs) == taken
    modifies q
    ensures q.Valid() && out' == Transcript(outs') && Received(outs') == taken'
    ensures old(q.items) == [] ==> q.items == [] && taken' == taken
    ensures old(q.items) != [] ==> q.items == old(q.items)[1..] && taken' == taken + [old(q.items)[0]]
  {
    var frame, o := NextFrame(q);
    TranscriptAppend(outs, o);
    ReceivedAppend(outs, o);
    if o.Some? {
      taken' := taken + [o.value];
    } else {
      RightUnit(taken);
      taken' := taken;
    }
    out' := out + frame;
    outs' := outs + [o];
  }

  /** What turn `j` of the stream loop takes from a queue that held `items`
      when the loop began and was not published to meanwhile. */
  function TurnOutcome(items: seq<Message>, j: nat): Option<Message> {
    if j < |items| then Some(items[j]) else None
  }

  lemma OutcomesStep(outs: seq<Option<Message>>, o: Option<Message>, items: seq<Message>)
    requires forall j :: 0 <= j < |outs| ==> outs[j] == TurnOutcome(items, j)
    requires o == TurnOutcome(items, |outs|)
    ensures forall j :: 0 <= j < |outs| + 1 ==> (outs + [o])[j] == TurnOutcome(items, j)
  {
  }

  /** Taking the front of what is left moves one message from the rest to the
      part already taken. */
  lemma TakeStep<T>(s: seq<T>, k: nat)
    requires k < |s|
    ensures s[..k] + [s[k]] == s[..k + 1]
    ensures s[k..][1..] == s[k + 1..]
    ensures s[k..] != [] && s[k..][0] == s[k]
  {
  }

  /** The `finally` of the handler: the subscriber leaves the registry. */
  method CloseStream(st: DashboardState, q: EventQueue)
    requires st.Valid()
    modifies st
    ensures st.Valid()
    ensures st.subscribers == Without(old(st.subscribers), {q})
    ensures q !in st.subscribers
    ensures st.logLines == old(st.logLines)
  {
    st.Unsubscribe(q);
    UnsubscribeIdempotent(old(st.subscribers), q);
  }

  lemma {:induction false} TranscriptAppend(outs: seq<Option<Message>>, o: Option<Message>)
    ensures Transcript(outs + [o]) == Transcript(outs) + OutputFrame(o)
    decreases |outs|
  {
    if outs == [] {
      assert [o][1..] == [];
      RightUnit(OutputFrame(o));
    } else {
      assert (outs + [o])[1..] == outs[1..] + [o];
      TranscriptAppend(outs[1..], o);
      Associative(OutputFrame(outs[0]), Transcript(outs[1..]), OutputFrame(o));
    }
  }

  lemma {:induction false} ReceivedAppend(outs: seq<Option<Message>>, o: Option<Message>)
    ensures Received(outs + [o]) == Received(outs) + OutputMessages(o)
    decreases |outs|
  {
    if outs == [] {
      assert [o][1..] == [];
      RightUnit(OutputMessages(o));
    } else {
      assert (outs + [o])[1..] == outs[1..] + [o];
      ReceivedAppend(outs[1..], o);
      Associative(OutputMessages(outs[0]), Received(outs[1..]), OutputMessages(o));
    }
  }

}
