/**
 The two per-connection handlers of the relay (pkg/grpc/server.go).

 SendMetrics drains one agent's inbound stream into Broadcast calls;
 SubscribeMetrics registers a mailbox for one subscriber, forwards what
 arrives in it, and unregisters on every way out. The transport is not
 modelled: what the stream and its context report to a handler is a
 sequence of events chosen by the environment, and a handler whose events
 run out is still blocked waiting for the next one.
 */
module Server {
  import opened Broadcasting

  /** The buffer size SubscribeMetrics gives every subscriber's channel. */
  const MailboxCapacity: nat := 100

  /** A Go `error` result: nil, or a failure with its message. */
  datatype Status = Ok | Failed(reason: string)

  /** Where a handler stands once its events are used up. */
  datatype Exit = Running | Returned(status: Status)

  // ---------------------------------------------------------------------
  // SendMetrics

  /** What one `stream.Recv()` reports: a sample, io.EOF, or another error. */
  datatype Recv<M> = Received(msg: M) | EndOfStream | RecvError(reason: string)

  /** What SendMetrics did with its input: the samples it broadcast, in
      order, the number of acknowledgments it sent, and how it ended. */
  datatype IngestRun<M> = IngestRun(broadcasts: seq<M>, acks: nat, exit: Exit)

  /** The ingestion loop over the receive results `input`; `ack` is what
      `SendAndClose` reports when the acknowledgment is sent. */
  function Ingest<M>(input: seq<Recv<M>>, ack: Status): (r: IngestRun<M>)
    ensures |r.broadcasts| <= |input|
    ensures r.acks <= 1
    ensures r.acks == 1 ==> r.exit == Returned(ack)
    ensures r.exit == Running ==> |r.broadcasts| == |input| && r.acks == 0
    ensures r.exit == Running ==> input == Samples(r.broadcasts)
    decreases |input|
  {
    if input == [] then IngestRun([], 0, Running)
    else match input[0]
      case EndOfStream => IngestRun([], 1, Returned(ack))
      case RecvError(e) => IngestRun([], 0, Returned(Failed(e)))
      case Received(m) =>
        var rest := Ingest(input[1..], ack);
        rest.(broadcasts := [m] + rest.broadcasts)
  }

  /** The receive results that deliver the samples `ms`, one by one. */
  function Samples<M>(ms: seq<M>): seq<Recv<M>>
  {
    seq(|ms|, i requires 0 <= i < |ms| => Received(ms[i]))
  }

  /** Samples before any other input are broadcast in receipt order, and the
      rest of the run is what the remaining input yields. */
  lemma {:induction false} IngestSamplesFirst<M>(ms: seq<M>, rest: seq<Recv<M>>, ack: Status)
    ensures Ingest(Samples(ms) + rest, ack).broadcasts == ms + Ingest(rest, ack).broadcasts
    ensures Ingest(Samples(ms) + rest, ack).acks == Ingest(rest, ack).acks
    ensures Ingest(Samples(ms) + rest, ack).exit == Ingest(rest, ack).exit
    decreases |ms|
  {
    if ms == [] {
      assert Samples(ms) + rest == rest;
    } else {
      var input := Samples(ms) + rest;
      assert input[0] == Received(ms[0]);
      assert input[1..] == Samples(ms[1..]) + rest;
      IngestSamplesFirst(ms[1..], rest, ack);
      var tail := Ingest(input[1..], ack);
      assert Ingest(input, ack) == tail.(broadcasts := [ms[0]] + tail.broadcasts);
      assert ms == [ms[0]] + ms[1..];
    }
  }

  /** k samples then end-of-stream: exactly those k samples are broadcast, in
      receipt order, one acknowledgment is sent and its result is returned;
      nothing after end-of-stream is read. */
  lemma SamplesThenEndOfStream<M>(ms: seq<M>, after: seq<Recv<M>>, ack: Status)
    ensures Ingest(Samples(ms) + [EndOfStream] + after, ack) == IngestRun(ms, 1, Returned(ack))
  {
    assert Samples(ms) + [EndOfStream] + after == Samples(ms) + ([EndOfStream] + after);
    IngestSamplesFirst(ms, [EndOfStream] + after, ack);
  }

  /** k samples then a receive error: the k samples are broadcast, the error
      is returned, no acknowledgment is sent and nothing later is broadcast. */
  lemma SamplesThenError<M>(ms: seq<M>, e: string, after: seq<Recv<M>>, ack: Status)
    ensures Ingest(Samples(ms) + [RecvError(e)] + after, ack) == IngestRun(ms, 0, Returned(Failed(e)))
  {
    assert Samples(ms) + [RecvError(e)] + after == Samples(ms) + ([RecvError(e)] + after);
    IngestSamplesFirst(ms, [RecvError(e)] + after, ack);
  }

  /** Samples only: all of them are broadcast and the loop is still receiving. */
  lemma SamplesOnly<M>(ms: seq<M>, ack: Status)
    ensures Ingest(Samples(ms), ack) == IngestRun(ms, 0, Running)
  {
    assert Samples(ms) + [] == Samples(ms);
    IngestSamplesFirst(ms, [], ack);
  }

  /** Every input is a run of samples followed by nothing, or by the first
      end-of-stream or error; the three lemmas above therefore cover every input. */
  lemma {:induction false} SplitAtFirstStop<M>(input: seq<Recv<M>>) returns (ms: seq<M>, rest: seq<Recv<M>>)
    ensures input == Samples(ms) + rest
    ensures rest == [] || !rest[0].Received?
    decreases |input|
  {
    if input == [] || !input[0].Received? {
      ms, rest := [], input;
      assert Samples(ms) == [];
    } else {
      var ms', rest' := SplitAtFirstStop(input[1..]);
      ms, rest := [input[0].msg] + ms', rest';
      assert Samples(ms) == [input[0]] + Samples(ms');
      assert input == [input[0]] + input[1..];
    }
  }

  /** Prefixes `ms` to the broadcasts of a run. */
  function AfterBroadcasts<M>(ms: seq<M>, r: IngestRun<M>): IngestRun<M>
  {
    r.(broadcasts := ms + r.broadcasts)
  }

  // ---------------------------------------------------------------------
  // SubscribeMetrics

  /** What the environment lets a subscription loop observe next:
      - Arrive(m): some agent's SendMetrics broadcasts `m` (to every subscriber);
      - Ready(s): the `select` takes the mailbox case, and `stream.Send` of
        the dequeued sample reports `s`;
      - Cancel: the `select` takes the `Context().Done()` case.
      When both cases are ready, the order of these events is the choice Go's
      `select` makes. */
  datatype SubEvent<M> = Arrive(msg: M) | Ready(send: Status) | Cancel

  /** What happens at one subscriber, in order. */
  datatype Action<M> =
    | Registered(id: string, mailbox: Mailbox<M>)
    | Enqueued(msg: M)
    | Dropped(msg: M)
    | Sent(msg: M, status: Status)
    | Unregistered(id: string)

  /** A failed send, which ends the loop. */
  predicate FailedSend<M>(a: Action<M>)
  {
    a.Sent? && a.status.Failed?
  }

  /** The samples the loop handed to `stream.Send`, in order. */
  function SentMsgs<M>(t: seq<Action<M>>): seq<M>
    decreases |t|
  {
    if t == [] then []
    else (if t[0].Sent? then [t[0].msg] else []) + SentMsgs(t[1..])
  }

  /** The samples broadcasts put into the subscriber's mailbox, in order. */
  function EnqueuedMsgs<M>(t: seq<Action<M>>): seq<M>
    decreases |t|
  {
    if t == [] then []
    else (if t[0].Enqueued? then [t[0].msg] else []) + EnqueuedMsgs(t[1..])
  }

  /** No Register call in the trace. */
  predicate NoRegistration<M>(t: seq<Action<M>>)
  {
    forall i :: 0 <= i < |t| ==> !t[i].Registered?
  }

  /** How many Unregister calls the trace records. */
  function Unregistrations<M>(t: seq<Action<M>>): nat
    decreases |t|
  {
    if t == [] then 0
    else (if t[0].Unregistered? then 1 else 0) + Unregistrations(t[1..])
  }

  lemma {:induction false} SentMsgsConcat<M>(a: seq<Action<M>>, b: seq<Action<M>>)
    ensures SentMsgs(a + b) == SentMsgs(a) + SentMsgs(b)
    decreases |a|
  {
    if a == [] {
      assert a + b == b;
    } else {
      assert (a + b)[0] == a[0] && (a + b)[1..] == a[1..] + b;
      SentMsgsConcat(a[1..], b);
    }
  }

  lemma {:induction false} EnqueuedMsgsConcat<M>(a: seq<Action<M>>, b: seq<Action<M>>)
    ensures EnqueuedMsgs(a + b) == EnqueuedMsgs(a) + EnqueuedMsgs(b)
    decreases |a|
  {
    if a == [] {
      assert a + b == b;
    } else {
      assert (a + b)[0] == a[0] && (a + b)[1..] == a[1..] + b;
      EnqueuedMsgsConcat(a[1..], b);
    }
  }

  lemma {:induction false} UnregistrationsConcat<M>(a: seq<Action<M>>, b: seq<Action<M>>)
    ensures Unregistrations(a + b) == Unregistrations(a) + Unregistrations(b)
    decreases |a|
  {
    if a == [] {
      assert a + b == b;
    } else {
      assert (a + b)[0] == a[0] && (a + b)[1..] == a[1..] + b;
      UnregistrationsConcat(a[1..], b);
    }
  }

  /** The outcome of one pass through the loop body: go on waiting with a new
      registry, or return `status` (after the deferred Unregister). */
  datatype Step<M> =
    | Continue(registry: Registry<M>, actions: seq<Action<M>>)
    | Stop(registry: Registry<M>, actions: seq<Action<M>>, status: Status)

  /** One pass through the loop body of subscriber `id` on event `e`. A Ready
      event while the mailbox is empty is not enabled (the `select` keeps
      waiting) and changes nothing. */
  function StepOn<M>(reg: Registry<M>, id: string, e: SubEvent<M>): (st: Step<M>)
    requires id in reg
    ensures st.Continue? ==> id in st.registry
  {
    match e
    case Arrive(m) =>
      Continue(Fanout(reg, m), [if reg[id].HasRoom() then Enqueued(m) else Dropped(m)])
    case Ready(s) =>
      if reg[id].items == [] then Continue(reg, [])
      else
        var (m, rest) := Take(reg[id]);
        if s == Ok then Continue(reg[id := rest], [Sent(m, s)])
        else Stop(reg[id := rest] - {id}, [Sent(m, s), Unregistered(id)], s)
    case Cancel => Stop(reg - {id}, [Unregistered(id)], Ok)
  }

  /** One pass never registers. */
  lemma StepNoRegistration<M>(reg: Registry<M>, id: string, e: SubEvent<M>)
    requires id in reg
    ensures NoRegistration(StepOn(reg, id, e).actions)
  {
  }

  /** Going on, the same ids stay registered and the mailbox keeps its
      capacity; returning, `id` alone is removed. */
  lemma StepRegistry<M>(reg: Registry<M>, id: string, e: SubEvent<M>)
    requires id in reg
    ensures var st := StepOn(reg, id, e);
      && (st.Continue? ==> st.registry.Keys == reg.Keys && st.registry[id].capacity == reg[id].capacity)
      && (st.Stop? ==> st.registry.Keys == reg.Keys - {id})
  {
  }

  /** Going on, no one is unregistered; returning, exactly one Unregister of
      `id` runs, as the last action. */
  lemma StepUnregisters<M>(reg: Registry<M>, id: string, e: SubEvent<M>)
    requires id in reg
    ensures var st := StepOn(reg, id, e);
      && (st.Continue? ==> Unregistrations(st.actions) == 0)
      && (st.Stop? ==>
            (Unregistrations(st.actions) == 1 &&
             st.actions != [] && st.actions[|st.actions| - 1] == Unregistered(id)))
  {
    match e
    case Arrive(m) =>
      assert [Enqueued(m)][1..] == [] && [Dropped(m)][1..] == [];
      assert Unregistrations<M>([Enqueued(m)]) == 0 && Unregistrations<M>([Dropped(m)]) == 0;
    case Ready(s) =>
      if reg[id].items != [] {
        var (m, rest) := Take(reg[id]);
        var acts := [Sent(m, s), Unregistered(id)];
        assert acts[1..] == [Unregistered(id)] && acts[1..][1..] == [];
        assert Unregistrations(acts[1..]) == 1;
        assert Unregistrations(acts) == 1;
        assert [Sent(m, s)][1..] == [];
        assert Unregistrations([Sent(m, s)]) == 0;
      }
    case Cancel =>
      assert Unregistrations<M>([Unregistered(id)]) == 1;
  }

  /** Going on, no send failed; returning, a failed send is the action just
      before the Unregister and its error is the one returned, and an error
      is returned only after such a send. */
  lemma StepFailures<M>(reg: Registry<M>, id: string, e: SubEvent<M>)
    requires id in reg
    ensures var st := StepOn(reg, id, e);
      && (st.Continue? ==> forall i :: 0 <= i < |st.actions| ==> !FailedSend(st.actions[i]))
      && (st.Stop? ==> FailureEndsRun(st.actions, Returned(st.status)))
      && (st.Stop? && st.status.Failed? ==> |st.actions| >= 2 && FailedSend(st.actions[|st.actions| - 2]))
  {
  }

  /** Going on, what was sent followed by what is queued equals what was
      queued followed by what was enqueued; returning, at most one sample was
      sent and it was the head of the mailbox. */
  lemma StepQueue<M>(reg: Registry<M>, id: string, e: SubEvent<M>)
    requires id in reg
    ensures var st := StepOn(reg, id, e);
      && (st.Continue? ==>
            SentMsgs(st.actions) + st.registry[id].items == reg[id].items + EnqueuedMsgs(st.actions))
      && (st.Stop? ==> SentMsgs(st.actions) <= reg[id].items + EnqueuedMsgs(st.actions))
      && (st.Stop? ==> |SentMsgs(st.actions)| <= 1 && SentMsgs(st.actions) <= reg[id].items)
  {
    var q := reg[id].items;
    match e
    case Arrive(m) =>
      if reg[id].HasRoom() {
        assert EnqueuedMsgs([Enqueued(m)]) == [m];
      } else {
        assert EnqueuedMsgs([Dropped(m)]) == [];
      }
    case Ready(s) =>
      if q != [] {
        var (m, rest) := Take(reg[id]);
        assert SentMsgs([Sent(m, s)]) == [m];
        if s != Ok {
          var acts := [Sent(m, s), Unregistered(id)];
          assert acts[1..] == [Unregistered(id)] && acts[1..][1..] == [];
          assert SentMsgs(acts[1..]) == [] && EnqueuedMsgs(acts[1..]) == [];
          assert SentMsgs(acts) == [m] && EnqueuedMsgs(acts) == [];
        }
      }
    case Cancel =>
      var u: seq<Action<M>> := [Unregistered(id)];
      assert u[1..] == [];
      assert SentMsgs(u) == [];
  }

  /** The registry afterwards, the subscriber's actions, and how the loop ended. */
  datatype SubRun<M> = SubRun(registry: Registry<M>, trace: seq<Action<M>>, exit: Exit)

  /** Prefixes `t` to the trace of a run. */
  function AfterActions<M>(t: seq<Action<M>>, r: SubRun<M>): SubRun<M>
  {
    r.(trace := t + r.trace)
  }

  /** The Streaming state of subscriber `id`, whose mailbox is in `reg`, over
      the events `events`. */
  function Stream<M>(reg: Registry<M>, id: string, events: seq<SubEvent<M>>): SubRun<M>
    requires id in reg
    decreases |events|
  {
    if events == [] then SubRun(reg, [], Running)
    else match StepOn(reg, id, events[0])
      case Continue(reg', acts) => AfterActions(acts, Stream(reg', id, events[1..]))
      case Stop(reg', acts, s) => SubRun(reg', acts, Returned(s))
  }

  /** The whole handler: register a fresh empty mailbox of capacity 100 under
      `id`, then stream. */
  function Subscribe<M>(reg: Registry<M>, id: string, events: seq<SubEvent<M>>): SubRun<M>
  {
    var mb := Mailbox([], MailboxCapacity);
    AfterActions([Registered(id, mb)], Stream(reg[id := mb], id, events))
  }

  /** Leak-freedom: the loop leaves `id` registered, with its capacity,
      exactly while it is still streaming; once it has returned, `id` is gone
      and every other id is still registered. */
  lemma {:induction false} StreamRegistry<M>(reg: Registry<M>, id: string, events: seq<SubEvent<M>>)
    requires id in reg
    ensures var r := Stream(reg, id, events);
      && r.registry.Keys == (if r.exit == Running then reg.Keys else reg.Keys - {id})
      && (r.exit == Running ==> r.registry[id].capacity == reg[id].capacity)
    decreases |events|
  {
    if events != [] {
      StepRegistry(reg, id, events[0]);
      var st := StepOn(reg, id, events[0]);
      if st.Continue? {
        var tail := Stream(st.registry, id, events[1..]);
        assert Stream(reg, id, events) == AfterActions(st.actions, tail);
        StreamRegistry(st.registry, id, events[1..]);
      }
    }
  }

  /** The deferred Unregister runs exactly once on every exit path, as the
      last action, and never while the loop is still streaming. */
  lemma {:induction false} StreamUnregistersOnce<M>(reg: Registry<M>, id: string, events: seq<SubEvent<M>>)
    requires id in reg
    ensures var r := Stream(reg, id, events);
      && Unregistrations(r.trace) == (if r.exit == Running then 0 else 1)
      && (r.exit.Returned? ==> r.trace != [] && r.trace[|r.trace| - 1] == Unregistered(id))
    decreases |events|
  {
    if events != [] {
      StepUnregisters(reg, id, events[0]);
      var st := StepOn(reg, id, events[0]);
      if st.Continue? {
        var tail := Stream(st.registry, id, events[1..]);
        assert Stream(reg, id, events) == AfterActions(st.actions, tail);
        StreamUnregistersOnce(st.registry, id, events[1..]);
        UnregistrationsConcat(st.actions, tail.trace);
        if tail.exit.Returned? {
          var t := st.actions + tail.trace;
          assert t[|t| - 1] == tail.trace[|tail.trace| - 1];
        }
      }
    }
  }

  /** Streaming never registers again. */
  lemma {:induction false} StreamNeverRegisters<M>(reg: Registry<M>, id: string, events: seq<SubEvent<M>>)
    requires id in reg
    ensures NoRegistration(Stream(reg, id, events).trace)
    decreases |events|
  {
    if events != [] {
      StepNoRegistration(reg, id, events[0]);
      var st := StepOn(reg, id, events[0]);
      if st.Continue? {
        var tail := Stream(st.registry, id, events[1..]);
        assert Stream(reg, id, events) == AfterActions(st.actions, tail);
        StreamNeverRegisters(st.registry, id, events[1..]);
        var t := st.actions + tail.trace;
        forall i | 0 <= i < |t| ensures !t[i].Registered? {
          if i >= |st.actions| {
            assert t[i] == tail.trace[i - |st.actions|];
          } else {
            assert t[i] == st.actions[i];
          }
        }
      }
    }
  }

  /** A failed send in `t` can only be the action just before the last one,
      and the run then returns exactly its error. */
  predicate FailureEndsRun<M>(t: seq<Action<M>>, exit: Exit)
  {
    forall i :: 0 <= i < |t| && FailedSend(t[i]) ==> i == |t| - 2 && exit == Returned(t[i].status)
  }

  /** Exit paths: a failed send is always the action just before the final
      Unregister, and the loop returns exactly its error. */
  lemma {:induction false} StreamFailureEndsRun<M>(reg: Registry<M>, id: string, events: seq<SubEvent<M>>)
    requires id in reg
    ensures FailureEndsRun(Stream(reg, id, events).trace, Stream(reg, id, events).exit)
    decreases |events|
  {
    if events != [] {
      StepFailures(reg, id, events[0]);
      var st := StepOn(reg, id, events[0]);
      if st.Continue? {
        var tail := Stream(st.registry, id, events[1..]);
        assert Stream(reg, id, events) == AfterActions(st.actions, tail);
        StreamFailureEndsRun(st.registry, id, events[1..]);
        var t := st.actions + tail.trace;
        forall i | 0 <= i < |t| && FailedSend(t[i]) ensures i == |t| - 2 && tail.exit == Returned(t[i].status) {
          if i >= |st.actions| {
            assert t[i] == tail.trace[i - |st.actions|];
          }
        }
      } else {
        assert Stream(reg, id, events) == SubRun(st.registry, st.actions, Returned(st.status));
      }
    }
  }

  /** A loop that returns an error got it from a failed send, the action just
      before the final Unregister, and returns that send's error. */
  lemma {:induction false} StreamErrorComesFromSend<M>(reg: Registry<M>, id: string, events: seq<SubEvent<M>>)
    requires id in reg
    ensures var r := Stream(reg, id, events);
      r.exit.Returned? && r.exit.status.Failed? ==>
        (|r.trace| >= 2 && FailedSend(r.trace[|r.trace| - 2]) && r.exit.status == r.trace[|r.trace| - 2].status)
    decreases |events|
  {
    if events != [] {
      StepFailures(reg, id, events[0]);
      var st := StepOn(reg, id, events[0]);
      if st.Continue? {
        var tail := Stream(st.registry, id, events[1..]);
        assert Stream(reg, id, events) == AfterActions(st.actions, tail);
        StreamErrorComesFromSend(st.registry, id, events[1..]);
        if tail.exit.Returned? && tail.exit.status.Failed? {
          var t := st.actions + tail.trace;
          assert t[|t| - 2] == tail.trace[|tail.trace| - 2];
        }
      } else {
        assert Stream(reg, id, events) == SubRun(st.registry, st.actions, Returned(st.status));
      }
    }
  }

  /** A loop that returns success (by cancellation) made no failed send. */
  lemma StreamSuccessHasNoFailedSend<M>(reg: Registry<M>, id: string, events: seq<SubEvent<M>>)
    requires id in reg
    ensures var r := Stream(reg, id, events);
      r.exit == Returned(Ok) ==> forall i :: 0 <= i < |r.trace| ==> !FailedSend(r.trace[i])
  {
    StreamFailureEndsRun(reg, id, events);
  }

  /** Per-subscriber FIFO: the samples handed to Send are a prefix of what the
      mailbox held followed by what was enqueued since, so each is sent at most
      once and in mailbox order; while streaming, what was sent followed by what
      is still queued is exactly that sequence. */
  lemma {:induction false} StreamSendsInMailboxOrder<M>(reg: Registry<M>, id: string, events: seq<SubEvent<M>>)
    requires id in reg
    ensures var r := Stream(reg, id, events);
      SentMsgs(r.trace) <= reg[id].items + EnqueuedMsgs(r.trace)
    ensures var r := Stream(reg, id, events);
      r.exit == Running ==>
        (id in r.registry &&
         SentMsgs(r.trace) + r.registry[id].items == reg[id].items + EnqueuedMsgs(r.trace))
    decreases |events|
  {
    if events != [] {
      StepQueue(reg, id, events[0]);
      var st := StepOn(reg, id, events[0]);
      if st.Continue? {
        var tail := Stream(st.registry, id, events[1..]);
        assert Stream(reg, id, events) == AfterActions(st.actions, tail);
        StreamSendsInMailboxOrder(st.registry, id, events[1..]);
        SentMsgsConcat(st.actions, tail.trace);
        EnqueuedMsgsConcat(st.actions, tail.trace);
        var q, q' := reg[id].items, st.registry[id].items;
        var s0, e0 := SentMsgs(st.actions), EnqueuedMsgs(st.actions);
        var s1, e1 := SentMsgs(tail.trace), EnqueuedMsgs(tail.trace);
        QueueThenPrefix(q, q', s0, e0, s1, e1);
        if tail.exit == Running {
          QueueThenQueue(q, q', s0, e0, s1, e1, tail.registry[id].items);
        }
      } else {
        assert Stream(reg, id, events) == SubRun(st.registry, st.actions, Returned(st.status));
      }
    }
  }

  /** Chaining two stretches of a mailbox's history: if `s0` then `q'` is
      `q` then `e0`, and `s1` is a prefix of `q'` then `e1`, then everything
      sent is a prefix of `q` then everything enqueued. */
  lemma QueueThenPrefix<T>(q: seq<T>, q': seq<T>, s0: seq<T>, e0: seq<T>, s1: seq<T>, e1: seq<T>)
    requires s0 + q' == q + e0
    requires s1 <= q' + e1
    ensures s0 + s1 <= q + (e0 + e1)
  {
    calc {
      s0 + (q' + e1);
      (s0 + q') + e1;
      (q + e0) + e1;
      q + (e0 + e1);
    }
    assert (s0 + (q' + e1))[..|s0 + s1|] == s0 + (q' + e1)[..|s1|];
  }

  lemma QueueThenQueue<T>(q: seq<T>, q': seq<T>, s0: seq<T>, e0: seq<T>, s1: seq<T>, e1: seq<T>, fin: seq<T>)
    requires s0 + q' == q + e0
    requires s1 + fin == q' + e1
    ensures (s0 + s1) + fin == q + (e0 + e1)
  {
    calc {
      (s0 + s1) + fin;
      s0 + (q' + e1);
      (q + e0) + e1;
    }
  }

  /** The handler as a whole: it registers first and only once, with a fresh
      empty mailbox of capacity 100; the samples it sends are a prefix of those
      enqueued into that mailbox, in order; and it unregisters exactly once,
      as its last action, on whichever path it returns, after which `id` is
      absent while every other subscriber is still registered. */
  lemma SubscribeLifecycle<M>(reg: Registry<M>, id: string, events: seq<SubEvent<M>>)
    requires id !in reg
    ensures var r := Subscribe(reg, id, events);
      && r.trace != [] && r.trace[0] == Registered(id, Mailbox([], MailboxCapacity))
      && (forall i :: 0 < i < |r.trace| ==> !r.trace[i].Registered?)
      && SentMsgs(r.trace) <= EnqueuedMsgs(r.trace)
      && r.registry.Keys == (if r.exit == Running then reg.Keys + {id} else reg.Keys)
      && (r.exit == Running ==> r.registry[id].capacity == MailboxCapacity)
      && Unregistrations(r.trace) == (if r.exit == Running then 0 else 1)
      && (r.exit.Returned? ==> r.trace[|r.trace| - 1] == Unregistered(id))
  {
    var reg0 := reg[id := Mailbox([], MailboxCapacity)];
    var s := Stream(reg0, id, events);
    StreamRegistry(reg0, id, events);
    StreamUnregistersOnce(reg0, id, events);
    StreamNeverRegisters(reg0, id, events);
    StreamSendsInMailboxOrder(reg0, id, events);
    var reg_act := Registered(id, reg0[id]);
    SentMsgsConcat([reg_act], s.trace);
    EnqueuedMsgsConcat([reg_act], s.trace);
    UnregistrationsConcat([reg_act], s.trace);
    assert SentMsgs([reg_act]) == [] && EnqueuedMsgs([reg_act]) == [];
    assert reg0.Keys - {id} == reg.Keys;
    var t := [reg_act] + s.trace;
    assert forall i :: 0 < i < |t| ==> t[i] == s.trace[i - 1];
  }

  /** Cancellation while nothing is pending: the loop returns success without
      attempting a send, and the registry is exactly as it was before the
      subscriber connected. */
  lemma CancelBeforeAnySample<M>(reg: Registry<M>, id: string, after: seq<SubEvent<M>>)
    requires id !in reg
    ensures Subscribe(reg, id, [Cancel] + after)
         == SubRun(reg, [Registered(id, Mailbox([], MailboxCapacity)), Unregistered(id)], Returned(Ok))
  {
    var reg0 := reg[id := Mailbox([], MailboxCapacity)];
    assert ([Cancel] + after)[0] == Cancel;
    assert reg0 - {id} == reg;
  }

  /** Cancellation at any point of the stream: whatever happened before, the
      loop returns success, its only further action is the one Unregister
      (no send is attempted), and the registry loses exactly `id`. */
  lemma {:induction false} StreamCancelAnyTime<M>(reg: Registry<M>, id: string, pre: seq<SubEvent<M>>, after: seq<SubEvent<M>>)
    requires id in reg
    requires Stream(reg, id, pre).exit == Running
    ensures var before, r := Stream(reg, id, pre), Stream(reg, id, pre + [Cancel] + after);
      && r.exit == Returned(Ok)
      && r.trace == before.trace + [Unregistered(id)]
      && r.registry == before.registry - {id}
    decreases |pre|
  {
    var events := pre + [Cancel] + after;
    if pre == [] {
      assert events[0] == Cancel;
    } else {
      var st := StepOn(reg, id, pre[0]);
      assert events[0] == pre[0] && events[1..] == pre[1..] + [Cancel] + after;
      assert st.Continue?;
      StreamCancelAnyTime(st.registry, id, pre[1..], after);
      var tail := Stream(st.registry, id, pre[1..]);
      assert Stream(reg, id, pre) == AfterActions(st.actions, tail);
      assert Stream(reg, id, events) == AfterActions(st.actions, Stream(st.registry, id, events[1..]));
      assert st.actions + (tail.trace + [Unregistered(id)]) == (st.actions + tail.trace) + [Unregistered(id)];
    }
  }

  /** The whole handler cancelled at any point while it is still streaming:
      it returns success, its trace ends with the single Unregister right after
      what it had done so far, and `id` is gone while every other id is still
      registered. */
  lemma SubscribeCancelAnyTime<M>(reg: Registry<M>, id: string, pre: seq<SubEvent<M>>, after: seq<SubEvent<M>>)
    requires id !in reg
    requires Subscribe(reg, id, pre).exit == Running
    ensures var r := Subscribe(reg, id, pre + [Cancel] + after);
      && r.exit == Returned(Ok)
      && r.trace == Subscribe(reg, id, pre).trace + [Unregistered(id)]
      && r.registry.Keys == reg.Keys
  {
    var reg0 := reg[id := Mailbox([], MailboxCapacity)];
    StreamCancelAnyTime(reg0, id, pre, after);
    StreamRegistry(reg0, id, pre);
    var before := Stream(reg0, id, pre);
    assert [Registered(id, reg0[id])] + (before.trace + [Unregistered(id)])
        == ([Registered(id, reg0[id])] + before.trace) + [Unregistered(id)];
    assert before.registry.Keys - {id} == reg.Keys;
  }

  /** Unfolding Stream at position `i` of the events. */
  lemma StreamAt<M>(reg: Registry<M>, id: string, events: seq<SubEvent<M>>, i: nat)
    requires id in reg && i < |events|
    ensures Stream(reg, id, events[i..]) ==
      match StepOn(reg, id, events[i])
      case Continue(reg', acts) => AfterActions(acts, Stream(reg', id, events[i + 1..]))
      case Stop(reg', acts, s) => SubRun(reg', acts, Returned(s))
  {
    assert events[i..][0] == events[i] && events[i..][1..] == events[i + 1..];
  }

  lemma AfterActionsAssoc<M>(t: seq<Action<M>>, a: seq<Action<M>>, r: SubRun<M>)
    ensures AfterActions(t, AfterActions(a, r)) == AfterActions(t + a, r)
  {
    assert t + (a + r.trace) == (t + a) + r.trace;
  }

  /** The relay's gRPC service object. */
  class MetricsServer<M> {
    const broadcaster: Broadcaster<M>

    /** NewMetricsServer: a server over a new, empty broadcaster. */
    constructor ()
      ensures fresh(broadcaster)
      ensures broadcaster.Valid() && broadcaster.subscribers == map[]
    {
      broadcaster := new Broadcaster();
    }

    /** The ingestion handler: receive until end-of-stream or an error,
        broadcasting every sample as it arrives. Returns what it did; the
        registry afterwards is what those broadcasts, in order, make of it. */
    method SendMetrics(input: seq<Recv<M>>, ack: Status) returns (run: IngestRun<M>)
      requires broadcaster.Valid()
      modifies broadcaster
      ensures broadcaster.Valid()
      ensures run == Ingest(input, ack)
      ensures broadcaster.subscribers == FanoutAll(old(broadcaster.subscribers), run.broadcasts)
    {
      ghost var start := broadcaster.subscribers;
      ghost var goal := Ingest(input, ack);
      var broadcasts: seq<M> := [];
      var i := 0;
      while i < |input|
        invariant 0 <= i <= |input|
        invariant broadcaster.Valid()
        invariant goal == AfterBroadcasts(broadcasts, Ingest(input[i..], ack))
        invariant broadcaster.subscribers == FanoutAll(start, broadcasts)
      {
        assert input[i..][0] == input[i] && input[i..][1..] == input[i + 1..];
        match input[i] {
          case EndOfStream =>
            return IngestRun(broadcasts, 1, Returned(ack));
          case RecvError(e) =>
            return IngestRun(broadcasts, 0, Returned(Failed(e)));
          case Received(m) =>
            var _ := broadcaster.Broadcast(m);
            assert (broadcasts + [m])[..|broadcasts|] == broadcasts;
            ghost var rest := Ingest(input[i + 1..], ack);
            assert Ingest(input[i..], ack) == AfterBroadcasts([m], rest);
            assert broadcasts + ([m] + rest.broadcasts) == (broadcasts + [m]) + rest.broadcasts;
            broadcasts := broadcasts + [m];
        }
        i := i + 1;
      }
      assert input[i..] == [];
      run := IngestRun(broadcasts, 0, Running);
    }

    /** One pass of the subscription loop's select: a concurrent broadcast,
        the mailbox becoming readable (receive, then Send with outcome `s`),
        or the client cancelling. It does exactly what StepOn describes. */
    method HandleEvent(id: string, e: SubEvent<M>) returns (acts: seq<Action<M>>, stopped: bool, status: Status)
      requires broadcaster.Valid() && id in broadcaster.subscribers
      modifies broadcaster
      ensures broadcaster.Valid()
      ensures StepOn(old(broadcaster.subscribers), id, e) ==
        if stopped then Stop(broadcaster.subscribers, acts, status)
        else Continue(broadcaster.subscribers, acts)
    {
      stopped, status := false, Ok;
      match e {
        case Arrive(m) =>
          var dropped := broadcaster.Broadcast(m);
          acts := if id in dropped then [Dropped(m)] else [Enqueued(m)];
        case Ready(s) =>
          if |broadcaster.subscribers[id].items| > 0 {
            var m := broadcaster.Receive(id);
            acts := [Sent(m, s)];
            if s.Failed? {
              broadcaster.Unregister(id);
              acts, stopped, status := acts + [Unregistered(id)], true, s;
            }
          } else {
            acts := [];
          }
        case Cancel =>
          broadcaster.Unregister(id);
          acts, stopped := [Unregistered(id)], true;
      }
    }

    /** SubscribeMetrics for a subscriber with the fresh id `id`: register a
        mailbox of capacity MailboxCapacity, serve the events in order, and
        unregister on every way out of the loop. Runs out of events while
        still serving as Running. */
    method SubscribeMetrics(id: string, events: seq<SubEvent<M>>) returns (trace: seq<Action<M>>, exit: Exit)
      requires broadcaster.Valid()
      requires id !in broadcaster.subscribers
      modifies broadcaster
      ensures broadcaster.Valid()
      ensures trace == Subscribe(old(broadcaster.subscribers), id, events).trace
      ensures exit == Subscribe(old(broadcaster.subscribers), id, events).exit
      ensures broadcaster.subscribers == Subscribe(old(broadcaster.subscribers), id, events).registry
    {
      ghost var goal := Subscribe(broadcaster.subscribers, id, events);
      broadcaster.Register(id, Mailbox([], MailboxCapacity));
      trace := [Registered(id, Mailbox([], MailboxCapacity))];
      var i := 0;
      assert events[i..] == events;
      while i < |events|
        invariant 0 <= i <= |events|
        invariant broadcaster.Valid() && id in broadcaster.subscribers
        invariant goal == AfterActions(trace, Stream(broadcaster.subscribers, id, events[i..]))
      {
        ghost var before := broadcaster.subscribers;
        StreamAt(before, id, events, i);
        var acts, stopped, status := HandleEvent(id, events[i]);
        if stopped {
          trace := trace + acts;
          return trace, Returned(status);
        }
        AfterActionsAssoc(trace, acts, Stream(broadcaster.subscribers, id, events[i + 1..]));
        trace := trace + acts;
        i := i + 1;
      }
      assert events[i..] == [];
      assert trace + [] == trace;
      exit := Running;
    }
  }
}
