/** What one pass of the receiving side does, as values: the per-id queues of
    raw payloads, how each stream's reading loop runs, and the account of a
    pass after some of those loops have run in some order. */
module RecvPass {
  import opened Wire
  import opened Transport
  import opened MessageFraming

  /** The raw queue of one message id, empty when the id has none. */
  function QueueOf(queues: map<u16, seq<Payload>>, id: u16): seq<Payload>
  {
    if id in queues then queues[id] else []
  }

  /** Pushing a completed payload to the back of its id's queue. */
  function Push(queues: map<u16, seq<Payload>>, m: RawMessage): (r: map<u16, seq<Payload>>)
    ensures QueueOf(r, m.id) == QueueOf(queues, m.id) + [m.payload]
    ensures forall id | id != m.id :: QueueOf(r, id) == QueueOf(queues, id)
    ensures r.Keys == queues.Keys + {m.id}
  {
    queues[m.id := QueueOf(queues, m.id) + [m.payload]]
  }

  /** Pushing several completed payloads, in order. */
  function PushAll(queues: map<u16, seq<Payload>>, ms: seq<RawMessage>): (pushed: map<u16, seq<Payload>>)
    decreases |ms|
  {
    if ms == [] then queues else PushAll(Push(queues, ms[0]), ms[1..])
  }

  /** The payloads of `ms` that carry `id`, in order. */
  function PayloadsOf(ms: seq<RawMessage>, id: u16): seq<Payload>
    decreases |ms|
  {
    if ms == [] then [] else (if ms[0].id == id then [ms[0].payload] else []) + PayloadsOf(ms[1..], id)
  }

  /** Each id's queue is a FIFO: pushing a run of messages appends, to each
      id's queue, exactly the payloads of that id, in the order they came. */
  lemma {:induction false} PushAllQueues(queues: map<u16, seq<Payload>>, ms: seq<RawMessage>, id: u16)
    ensures QueueOf(PushAll(queues, ms), id) == QueueOf(queues, id) + PayloadsOf(ms, id)
    decreases |ms|
  {
    if ms != [] {
      PushAllQueues(Push(queues, ms[0]), ms[1..], id);
    }
  }

  lemma PushAllAppend(queues: map<u16, seq<Payload>>, a: seq<RawMessage>, b: seq<RawMessage>)
    ensures PushAll(queues, a + b) == PushAll(PushAll(queues, a), b)
    decreases |a|
  {
    if a == [] {
      assert a + b == b;
    } else {
      assert (a + b)[0] == a[0] && (a + b)[1..] == a[1..] + b;
      PushAllAppend(Push(queues, a[0]), a[1..], b);
    }
  }

  /** How each stream's reading loop would run in one pass, from its state in
      `start` against its script in `recv0`. */
  function Passes(rev: Revision, start: map<StreamId, RecvState>, recv0: map<StreamId, seq<ReadOutcome>>)
    : (r: map<StreamId, MsgPass>)
    requires forall id | id in start :: Sound(start[id])
    ensures r.Keys == start.Keys && Settled(r)
  {
    map id | id in start :: ReadMessages(rev, start[id], Of(recv0, id))
  }

  /** Every loop of `passes` leaves its stream in a sound state. */
  ghost predicate Settled(passes: map<StreamId, MsgPass>)
  {
    forall id | id in passes :: Sound(passes[id].state)
  }

  /** The messages that the loops of `order` complete, in that order. */
  function Emitted(passes: map<StreamId, MsgPass>, order: seq<StreamId>): (ms: seq<RawMessage>)
    requires forall i | 0 <= i < |order| :: order[i] in passes
  {
    if order == [] then []
    else Emitted(passes, order[..|order| - 1]) + passes[order[|order| - 1]].emitted
  }

  /** The account of a pass once the loops of `order` have run, from the
      states `start`, the scripts `recv0` and the queues `queues`: the states,
      the scripts left and the queues are what those loops leave. */
  ghost predicate Account(start: map<StreamId, RecvState>, recv0: map<StreamId, seq<ReadOutcome>>,
                          queues: map<u16, seq<Payload>>, passes: map<StreamId, MsgPass>, order: seq<StreamId>,
                          streams: map<StreamId, RecvState>, recv: map<StreamId, seq<ReadOutcome>>,
                          messages: map<u16, seq<Payload>>)
  {
    && (forall k | k in start :: Sound(start[k]))
    && start.Keys == passes.Keys && Settled(passes)
    && Visits(start, order)
    && streams == StatesAfter(start, passes, order)
    && (forall k :: Of(recv, k) == RestAfter(recv0, passes, order, k))
    && messages == PushAll(queues, Emitted(passes, order))
  }

  /** No loop of `order` met a fatal error. */
  ghost predicate NoneFatal(passes: map<StreamId, MsgPass>, order: seq<StreamId>)
  {
    forall i | 0 <= i < |order| :: order[i] in passes && !passes[order[i]].fatal
  }

  /** Before any loop has run, the account is the starting one. */
  lemma AccountStart(start: map<StreamId, RecvState>, recv0: map<StreamId, seq<ReadOutcome>>,
                     queues: map<u16, seq<Payload>>, passes: map<StreamId, MsgPass>)
    requires forall k | k in start :: Sound(start[k])
    requires start.Keys == passes.Keys && Settled(passes)
    ensures Account(start, recv0, queues, passes, [], start, recv0, queues)
  {
    assert StatesAfter(start, passes, []) == start;
  }

  /** The pass succeeds exactly when no stream's loop meets a fatal error. */
  lemma Verdict(passes: map<StreamId, MsgPass>, order: seq<StreamId>, ok: bool)
    requires ok ==> passes.Keys <= Elems(order) && NoneFatal(passes, order)
    requires !ok ==> order != [] && order[|order| - 1] in passes && passes[order[|order| - 1]].fatal
    ensures ok <==> forall id | id in passes :: !passes[id].fatal
  {
    if ok {
      forall id | id in passes
        ensures !passes[id].fatal
      {
        assert id in Elems(order);
        var i :| 0 <= i < |order| && order[i] == id;
      }
    }
  }

  /** A stream the pass has not reached yet still has its starting state and script. */
  lemma Unvisited(rev: Revision, start: map<StreamId, RecvState>, recv0: map<StreamId, seq<ReadOutcome>>,
                  queues: map<u16, seq<Payload>>, passes: map<StreamId, MsgPass>, order: seq<StreamId>,
                  streams: map<StreamId, RecvState>, recv: map<StreamId, seq<ReadOutcome>>,
                  messages: map<u16, seq<Payload>>, id: StreamId)
    requires Account(start, recv0, queues, passes, order, streams, recv, messages)
    requires passes == Passes(rev, start, recv0)
    requires id in start - Elems(order)
    ensures id in streams && Sound(streams[id]) && id !in order
    ensures passes[id] == ReadMessages(rev, streams[id], Of(recv, id))
  {
    assert Of(recv, id) == RestAfter(recv0, passes, order, id);
  }

  /** One more stream's loop has run: the account extends by that stream. */
  lemma Advance(start: map<StreamId, RecvState>, recv0: map<StreamId, seq<ReadOutcome>>,
                queues: map<u16, seq<Payload>>, passes: map<StreamId, MsgPass>, order: seq<StreamId>, id: StreamId,
                streams0: map<StreamId, RecvState>, streams1: map<StreamId, RecvState>,
                recv1: map<StreamId, seq<ReadOutcome>>, recv2: map<StreamId, seq<ReadOutcome>>,
                messages0: map<u16, seq<Payload>>, messages1: map<u16, seq<Payload>>)
    requires Account(start, recv0, queues, passes, order, streams0, recv1, messages0)
    requires id in start && id !in order
    requires streams1 == streams0[id := passes[id].state]
    requires messages1 == PushAll(messages0, passes[id].emitted)
    requires Of(recv2, id) == passes[id].rest
    requires OthersUnchanged(recv1, recv2, id)
    ensures Account(start, recv0, queues, passes, order + [id], streams1, recv2, messages1)
  {
    PushAllAppend(queues, Emitted(passes, order), passes[id].emitted);
    EmittedNext(passes, order, id);
    StatesAfterNext(start, passes, order, id);
    VisitsNext(start, order, id);
    RestAfterNext(recv0, passes, order, id);
  }

  lemma PushOne(q: map<u16, seq<Payload>>, out: seq<RawMessage>, e: seq<RawMessage>)
    ensures |out| == 1 ==> PushAll(q, out + e) == PushAll(Push(q, out[0]), e)
    ensures out == [] ==> PushAll(q, out + e) == PushAll(q, e)
  {
    if |out| == 1 {
      assert (out + e)[0] == out[0] && (out + e)[1..] == e;
    } else if out == [] {
      assert out + e == e;
    }
  }

  lemma NoneFatalNext(passes: map<StreamId, MsgPass>, order: seq<StreamId>, id: StreamId)
    requires NoneFatal(passes, order) && id in passes && !passes[id].fatal
    ensures NoneFatal(passes, order + [id])
  {
  }

  /** The receive states once the loops of `order` have run. */
  function StatesAfter(start: map<StreamId, RecvState>, passes: map<StreamId, MsgPass>, order: seq<StreamId>)
    : (r: map<StreamId, RecvState>)
    requires start.Keys == passes.Keys && Settled(passes)
    requires forall id | id in start :: Sound(start[id])
    ensures r.Keys == start.Keys && forall id | id in r :: Sound(r[id])
  {
    map id | id in start :: if id in order then passes[id].state else start[id]
  }

  /** What is left of a stream's read script once the loops of `order` have run. */
  function RestAfter(recv0: map<StreamId, seq<ReadOutcome>>, passes: map<StreamId, MsgPass>,
                     order: seq<StreamId>, id: StreamId): seq<ReadOutcome>
  {
    if id in passes && id in order then passes[id].rest else Of(recv0, id)
  }

  /** The streams of `order` that the peer finished or reset, in order. */
  function Finished(passes: map<StreamId, MsgPass>, order: seq<StreamId>): (ids: seq<StreamId>)
    requires forall i | 0 <= i < |order| :: order[i] in passes
  {
    if order == [] then []
    else
      var last := order[|order| - 1];
      Finished(passes, order[..|order| - 1]) + if passes[last].finished then [last] else []
  }

  /** Running one more stream's loop adds its messages at the end. */
  lemma EmittedNext(passes: map<StreamId, MsgPass>, order: seq<StreamId>, id: StreamId)
    requires forall i | 0 <= i < |order| :: order[i] in passes
    requires id in passes
    ensures Emitted(passes, order + [id]) == Emitted(passes, order) + passes[id].emitted
  {
    assert (order + [id])[..|order|] == order;
  }

  lemma FinishedNext(passes: map<StreamId, MsgPass>, order: seq<StreamId>, id: StreamId)
    requires forall i | 0 <= i < |order| :: order[i] in passes
    requires id in passes
    ensures Finished(passes, order + [id]) == Finished(passes, order) + if passes[id].finished then [id] else []
  {
    assert (order + [id])[..|order|] == order;
  }

  lemma StatesAfterNext(start: map<StreamId, RecvState>, passes: map<StreamId, MsgPass>,
                        order: seq<StreamId>, id: StreamId)
    requires start.Keys == passes.Keys && Settled(passes)
    requires forall k | k in start :: Sound(start[k])
    requires id in start
    ensures StatesAfter(start, passes, order + [id]) == StatesAfter(start, passes, order)[id := passes[id].state]
  {
    var a, b := StatesAfter(start, passes, order + [id]), StatesAfter(start, passes, order)[id := passes[id].state];
    assert a.Keys == b.Keys;
    forall k | k in a.Keys
      ensures a[k] == b[k]
    {
    }
  }

  lemma RestAfterNext(recv0: map<StreamId, seq<ReadOutcome>>, passes: map<StreamId, MsgPass>,
                      order: seq<StreamId>, id: StreamId)
    requires id in passes
    ensures forall k :: RestAfter(recv0, passes, order + [id], k)
                     == if k == id then passes[id].rest else RestAfter(recv0, passes, order, k)
  {
  }
}
