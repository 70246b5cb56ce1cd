/** The receiving half of the message protocol on one connection: claiming
    message streams from the header table, the per-tick pass that decodes
    every message stream into per-id queues of raw payloads, and turning one
    id's raw payloads into typed messages. */
module MessageRecv {
  import opened Wire
  import opened Transport
  import opened StreamHeaders
  import opened MessageFraming
  import opened U16Reading
  import opened RecvPass

  /** The streams of a header table classified as message streams. */
  function MessageStreams(table: map<StreamId, HeaderState>): set<StreamId>
  {
    set id | id in table && ClassifiedAs(table[id], MESSAGES)
  }

  /** The receive states after the streams `ids` are claimed: each starts
      reading a message id, and every other stream keeps its state. */
  function Claim(streams: map<StreamId, RecvState>, ids: set<StreamId>): (r: map<StreamId, RecvState>)
    ensures r.Keys == streams.Keys + ids
    ensures forall id | id in ids :: r[id] == ReadingId([])
    ensures forall id | id in streams && id !in ids :: r[id] == streams[id]
    ensures (forall id | id in streams :: Sound(streams[id])) ==> forall id | id in r :: Sound(r[id])
  {
    map id | id in streams.Keys + ids :: if id in ids then ReadingId([]) else streams[id]
  }

  /** `MessageRecvBuffers`: the receive state of every message stream of a
      connection and the raw payloads completed so far, queued per id. */
  class MessageRecvBuffers {
    var streams: map<StreamId, RecvState>
    var messages: map<u16, seq<Payload>>

    ghost predicate Valid()
      reads this
    {
      forall id | id in streams :: Sound(streams[id])
    }

    /** A connection starts with no message streams and no messages. */
    constructor ()
      ensures Valid() && streams == map[] && messages == map[]
    {
      streams, messages := map[], map[];
    }

    /** `take_message_streams`: every stream classified as a message stream
        leaves the header table and starts reading a message id. A
        bidirectional one is only warned about. */
    method TakeMessageStreams(headers: RecvStreamHeaders)
      requires Valid()
      modifies this`streams, headers
      ensures Valid()
      ensures var claimed := MessageStreams(old(headers.buffers));
        headers.buffers == old(headers.buffers) - claimed && streams == Claim(old(streams), claimed)
    {
      ghost var table := headers.buffers;
      ghost var taken: set<StreamId> := {};
      while true
        invariant taken <= MessageStreams(table)
        invariant headers.buffers == table - taken
        invariant streams == Claim(old(streams), taken)
        decreases |headers.buffers|
      {
        var next := headers.TakeStream(MESSAGES);
        if next.None? {
          ClaimedAll(table, taken);
          break;
        }
        var id := next.value.0;
        ClaimOne(old(streams), table, taken, id);
        streams := streams[id := ReadingId([])];
        taken := taken + {id};
      }
    }

    /** The reading loop of `read_message_streams` for one stream. Each read
        asks for what the current phase needs; the chunk is fed to the 16-bit
        reader of the phase or to the payload buffer (`Step`), and a
        completed payload is pushed to the back of its id's queue. */
    method ReadMessageStream(conn: Connection, id: StreamId, rev: Revision) returns (finished: bool, fatal: bool)
      requires Valid() && id in streams
      modifies this, conn`recv
      ensures Valid()
      ensures var p := ReadMessages(rev, old(streams[id]), Of(old(conn.recv), id));
        && streams == old(streams)[id := p.state]
        && messages == PushAll(old(messages), p.emitted)
        && Of(conn.recv, id) == p.rest && finished == p.finished && fatal == p.fatal
      ensures OthersUnchanged(old(conn.recv), conn.recv, id)
    {
      var state := streams[id];
      ghost var goal := ReadMessages(rev, state, Of(conn.recv, id));
      finished, fatal := false, false;
      while true
        invariant Sound(state) && streams == old(streams)
        invariant var p := ReadMessages(rev, state, Of(conn.recv, id));
          && p.state == goal.state && p.rest == goal.rest && p.finished == goal.finished && p.fatal == goal.fatal
          && PushAll(messages, p.emitted) == PushAll(old(messages), goal.emitted)
        invariant OthersUnchanged(old(conn.recv), conn.recv, id)
        decreases |Of(conn.recv, id)|
      {
        var bytesNeeded := Need(state);
        ghost var queues := messages;
        ReadUnfold(rev, state, Of(conn.recv, id));
        var outcome := conn.ReadRecvStream(id, bytesNeeded);
        match outcome {
          case Data(chunk) =>
            var t := Step(rev, state, chunk);
            if t.out != [] {
              messages := Push(messages, t.out[0]);
            }
            PushOne(queues, t.out, ReadMessages(rev, t.state, Of(conn.recv, id)).emitted);
            state := t.state;
          case _ =>
            // the end of the stream and a reset finish it, "would block"
            // leaves it for the next pass, any other error aborts the pass
            finished := outcome.End? || outcome.Reset?;
            fatal := outcome.OtherReadError?;
            streams := streams[id := state];
            return;
        }
      }
    }

    /** One step of the pass: the loop of a stream the pass has not reached yet. */
    method VisitStream(conn: Connection, rev: Revision, id: StreamId, ghost start: map<StreamId, RecvState>,
                       ghost recv0: map<StreamId, seq<ReadOutcome>>, ghost queues: map<u16, seq<Payload>>,
                       ghost passes: map<StreamId, MsgPass>, ghost order: seq<StreamId>)
      returns (finished: bool, fatal: bool)
      requires Account(start, recv0, queues, passes, order, streams, conn.recv, messages)
      requires passes == Passes(rev, start, recv0) && id in start - Elems(order)
      modifies this, conn`recv
      ensures Account(start, recv0, queues, passes, order + [id], streams, conn.recv, messages)
      ensures finished == passes[id].finished && fatal == passes[id].fatal
    {
      Unvisited(rev, start, recv0, queues, passes, order, streams, conn.recv, messages, id);
      ghost var streams0, recv1, messages0 := streams, conn.recv, messages;
      finished, fatal := ReadMessageStream(conn, id, rev);
      Advance(start, recv0, queues, passes, order, id, streams0, streams, recv1, conn.recv, messages0, messages);
    }

    /** The per-stream loops of `read_message_streams`, over every stream
        in some order (that of the map's iteration, which is not
        determined): `order` is the order they ran in, `finished` the
        streams the peer finished or reset, in that order. A fatal error
        stops the pass at the stream that met it. */
    method ReadAllMessageStreams(conn: Connection, rev: Revision)
      returns (r: Result<()>, finished: seq<StreamId>, ghost order: seq<StreamId>)
      requires Valid()
      modifies this, conn`recv
      ensures var passes := Passes(rev, old(streams), old(conn.recv));
        && Account(old(streams), old(conn.recv), old(messages), passes, order, streams, conn.recv, messages)
        && (r.Ok? ==> old(streams).Keys <= Elems(order) && NoneFatal(passes, order))
        && (r.Err? ==> order != [] && passes[order[|order| - 1]].fatal && NoneFatal(passes, order[..|order| - 1]))
        && finished == Finished(passes, order)
    {
      ghost var start, recv0, queues := streams, conn.recv, messages;
      ghost var passes := Passes(rev, start, recv0);
      var todo := streams.Keys;
      finished, order := [], [];
      AccountStart(start, recv0, queues, passes);
      while todo != {}
        invariant Account(start, recv0, queues, passes, order, streams, conn.recv, messages)
        invariant todo == start.Keys - Elems(order)
        invariant finished == Finished(passes, order)
        invariant NoneFatal(passes, order)
        decreases todo
      {
        var id :| id in todo;
        var streamFinished, fatal := VisitStream(conn, rev, id, start, recv0, queues, passes, order);
        TodoNext(start, order, todo, id);
        FinishedNext(passes, order, id);
        if streamFinished {
          finished := finished + [id];
        }
        if fatal {
          assert (order + [id])[..|order|] == order;
          order := order + [id];
          return Err(StreamReadError), finished, order;
        }
        NoneFatalNext(passes, order, id);
        todo := todo - {id};
        order := order + [id];
      }
      forall k | k in start
        ensures k in Elems(order)
      {
        assert k !in todo;
      }
      r := Ok(());
    }

    /** Removing the streams that were finished, after the pass. */
    method RemoveStreams(ids: seq<StreamId>)
      requires Valid()
      modifies this`streams
      ensures Valid()
      ensures streams == old(streams) - Elems(ids)
    {
      var i := 0;
      while i < |ids|
        invariant 0 <= i <= |ids|
        invariant Valid()
        invariant streams == old(streams) - Elems(ids[..i])
      {
        ElemsNext(ids[..i], ids[i]);
        assert ids[..i + 1] == ids[..i] + [ids[i]];
        streams := streams - {ids[i]};
        i := i + 1;
      }
      assert ids[..i] == ids;
    }

    /** `read_message_streams` for one connection: every stream's loop, then
        the removal of the finished streams. A fatal read error aborts the
        pass before anything is removed. */
    method ReadMessageStreams(conn: Connection, rev: Revision) returns (r: Result<()>, ghost order: seq<StreamId>)
      requires Valid()
      modifies this, conn`recv
      ensures Valid() && Visits(old(streams), order)
      ensures var passes := Passes(rev, old(streams), old(conn.recv));
        && messages == PushAll(old(messages), Emitted(passes, order))
        && (forall id :: Of(conn.recv, id) == RestAfter(old(conn.recv), passes, order, id))
        && (r.Ok? <==> forall id | id in passes :: !passes[id].fatal)
        && (r.Ok? ==> old(streams).Keys <= Elems(order)
                      && streams == StatesAfter(old(streams), passes, order) - Elems(Finished(passes, order)))
        && (r.Err? ==> && order != [] && passes[order[|order| - 1]].fatal && NoneFatal(passes, order[..|order| - 1])
                       && streams == StatesAfter(old(streams), passes, order))
    {
      var finished;
      ghost var passes := Passes(rev, streams, conn.recv);
      r, finished, order := ReadAllMessageStreams(conn, rev);
      Verdict(passes, order, r.Ok?);
      if r.Err? {
        return;
      }
      RemoveStreams(finished);
    }
  }

  /** Claiming one more message stream. */
  lemma ClaimOne(streams: map<StreamId, RecvState>, table: map<StreamId, HeaderState>, taken: set<StreamId>,
                  id: StreamId)
    requires taken <= MessageStreams(table)
    requires id in table - taken && ClassifiedAs((table - taken)[id], MESSAGES)
    ensures Claim(streams, taken)[id := ReadingId([])] == Claim(streams, taken + {id})
    ensures taken + {id} <= MessageStreams(table)
    ensures (table - taken) - {id} == table - (taken + {id})
    ensures |table - (taken + {id})| < |table - taken|
  {
    ClaimMore(streams, taken, id);
    RemoveOne(table, taken, id);
  }

  lemma RemoveOne(table: map<StreamId, HeaderState>, taken: set<StreamId>, id: StreamId)
    requires id in table - taken
    ensures (table - taken) - {id} == table - (taken + {id})
    ensures |table - (taken + {id})| < |table - taken|
  {
    var before, after := table - taken, table - (taken + {id});
    assert after.Keys == before.Keys - {id};
    assert |after.Keys| < |before.Keys| by {
      assert before.Keys == after.Keys + {id};
    }
  }

  lemma ClaimMore(streams: map<StreamId, RecvState>, taken: set<StreamId>, id: StreamId)
    ensures Claim(streams, taken)[id := ReadingId([])] == Claim(streams, taken + {id})
  {
    var a, b := Claim(streams, taken)[id := ReadingId([])], Claim(streams, taken + {id});
    assert a.Keys == b.Keys;
    forall k | k in a.Keys
      ensures a[k] == b[k]
    {
    }
  }

  /** Once no remaining entry is a message stream, all have been claimed. */
  lemma ClaimedAll(table: map<StreamId, HeaderState>, taken: set<StreamId>)
    requires taken <= MessageStreams(table)
    requires forall id | id in table - taken :: !ClassifiedAs((table - taken)[id], MESSAGES)
    ensures taken == MessageStreams(table)
  {
    forall id | id in table && id !in taken
      ensures !ClassifiedAs(table[id], MESSAGES)
    {
      assert id in table - taken && (table - taken)[id] == table[id];
    }
  }
}
