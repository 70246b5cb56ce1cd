/** The multi-stream transport, seen only through the calls the protocol makes
    on it. A connection is scripted: each direction has a queue of streams the
    peer has opened, each receive stream has a finite sequence of outcomes its
    reads will report during one pass, and the send side has a sequence of
    capacities its writes will meet. The bytes a send stream has accepted are
    logged per stream. */
module Transport {
  import opened Wire

  /** What one `read_recv_stream` call reports. */
  datatype ReadOutcome =
    | Data(bytes: seq<byte>)  // Ok(Some(chunk))
    | End                     // Ok(None): the peer finished the stream
    | Blocked                 // no data available yet
    | Reset(code: nat)        // the peer reset the stream with an error code
    | OtherReadError          // any other read error

  /** What the transport will do with the next `write_send_stream` call. */
  datatype WriteOutcome = Accept(capacity: nat) | WriteRefused

  /** A read asks for at most `max` bytes; a transport never returns more. */
  function Clip(o: ReadOutcome, max: nat): (r: ReadOutcome)
    ensures r.Data? <==> o.Data?
    ensures r.Data? ==> |r.bytes| <= max && r.bytes <= o.bytes
    ensures r.Data? && |o.bytes| <= max ==> r == o
    ensures !o.Data? ==> r == o
  {
    if o.Data? && |o.bytes| > max then Data(o.bytes[..max]) else o
  }

  /** The outcome of reading `max` bytes from a stream whose script is `outs`;
      an exhausted script reads as "would block". */
  function NextRead(outs: seq<ReadOutcome>, max: nat): (o: ReadOutcome)
  {
    if outs == [] then Blocked else Clip(outs[0], max)
  }

  /** The script left after one read. */
  function AfterRead(outs: seq<ReadOutcome>): seq<ReadOutcome>
  {
    if outs == [] then [] else outs[1..]
  }

  /** The result of writing `len` bytes against the capacity script `outs`:
      the accepted count, never more than offered. */
  function WriteResult(outs: seq<WriteOutcome>, len: nat): (r: Result<nat>)
    ensures r.Ok? ==> r.value <= len
    ensures r.Err? <==> outs != [] && outs[0].WriteRefused?
  {
    if outs == [] then Ok(0)
    else match outs[0]
      case Accept(c) => Ok(Min(c, len))
      case WriteRefused => Err(StreamWriteError)
  }

  /** The capacity script left after one write. */
  function AfterWrite(outs: seq<WriteOutcome>): (rest: seq<WriteOutcome>)
    ensures outs != [] ==> outs == [outs[0]] + rest
  {
    if outs == [] then [] else outs[1..]
  }

  /** A per-stream sequence, empty for a stream the map does not mention. */
  function Of<T>(m: map<StreamId, seq<T>>, id: StreamId): (s: seq<T>)
  {
    if id in m then m[id] else []
  }

  /** Every stream other than `id` has the same bytes in `after` as in `before`. */
  ghost predicate OthersUnchanged<T>(before: map<StreamId, seq<T>>, after: map<StreamId, seq<T>>, id: StreamId)
  {
    forall other :: other != id ==> Of(after, other) == Of(before, other)
  }

  /** `order` lists streams of `start`, each once: the order in which a pass
      over a per-stream table visited them. */
  predicate Visits<S>(start: map<StreamId, S>, order: seq<StreamId>)
  {
    && (forall i | 0 <= i < |order| :: order[i] in start)
    && Distinct(order)
  }

  /** No stream occurs twice in `ids`. */
  predicate Distinct(ids: seq<StreamId>)
  {
    ids == [] || (ids[|ids| - 1] !in ids[..|ids| - 1] && Distinct(ids[..|ids| - 1]))
  }

  function Elems(ids: seq<StreamId>): set<StreamId>
  {
    set id | id in ids
  }

  lemma ElemsNext(ids: seq<StreamId>, id: StreamId)
    ensures Elems(ids + [id]) == Elems(ids) + {id}
  {
  }

  lemma TodoNext<S>(start: map<StreamId, S>, order: seq<StreamId>, todo: set<StreamId>, id: StreamId)
    requires todo == start.Keys - Elems(order) && id in todo
    ensures todo - {id} == start.Keys - Elems(order + [id])
  {
    ElemsNext(order, id);
  }

  /** Nothing left to visit: every key of `start` is in `order`. */
  lemma TodoDone<S>(start: map<StreamId, S>, order: seq<StreamId>)
    requires start.Keys - Elems(order) == {}
    ensures start.Keys <= Elems(order)
  {
    forall id | id in start
      ensures id in Elems(order)
    {
      assert id !in start.Keys - Elems(order);
    }
  }

  lemma VisitsNext<S>(start: map<StreamId, S>, order: seq<StreamId>, id: StreamId)
    requires Visits(start, order) && id in start && id !in order
    ensures Visits(start, order + [id])
  {
    assert (order + [id])[..|order|] == order;
  }

  class Connection {
    var acceptUni: seq<StreamId>
    var acceptBi: seq<StreamId>
    var recv: map<StreamId, seq<ReadOutcome>>
    var writes: seq<WriteOutcome>
    var delivered: map<StreamId, seq<byte>>

    constructor (uni: seq<StreamId>, bi: seq<StreamId>, recv: map<StreamId, seq<ReadOutcome>>,
                 writes: seq<WriteOutcome>)
      ensures acceptUni == uni && acceptBi == bi && this.recv == recv && this.writes == writes
      ensures delivered == map[]
    {
      acceptUni, acceptBi, this.recv, this.writes := uni, bi, recv, writes;
      delivered := map[];
    }

    function Incoming(dir: Dir): seq<StreamId>
      reads this
    {
      if dir == Uni then acceptUni else acceptBi
    }


    /** `accept_stream(dir)`: the next stream the peer opened, if any. */
    method AcceptStream(dir: Dir) returns (r: Option<StreamId>)
      modifies this`acceptUni, this`acceptBi
      ensures r.None? <==> old(Incoming(dir)) == []
      ensures r.Some? ==> r.value == old(Incoming(dir))[0] && Incoming(dir) == old(Incoming(dir))[1..]
      ensures r.None? ==> Incoming(dir) == old(Incoming(dir))
      ensures dir == Uni ==> acceptBi == old(acceptBi)
      ensures dir == Bi ==> acceptUni == old(acceptUni)
    {
      var queue := Incoming(dir);
      if queue == [] {
        return None;
      }
      r := Some(queue[0]);
      if dir == Uni {
        acceptUni := queue[1..];
      } else {
        acceptBi := queue[1..];
      }
    }

    /** `read_recv_stream(id, max, true)`. */
    method ReadRecvStream(id: StreamId, max: nat) returns (r: ReadOutcome)
      modifies this`recv
      ensures r == NextRead(Of(old(recv), id), max)
      ensures Of(recv, id) == AfterRead(Of(old(recv), id))
      ensures OthersUnchanged(old(recv), recv, id)
    {
      var outs := Of(recv, id);
      if outs == [] {
        return Blocked;
      }
      r := Clip(outs[0], max);
      recv := recv[id := outs[1..]];
    }

    /** `write_send_stream(id, data)`: the transport takes some prefix of
        `data` and reports how long it was. */
    method WriteSendStream(id: StreamId, data: seq<byte>) returns (r: Result<nat>)
      modifies this`writes, this`delivered
      ensures r == WriteResult(old(writes), |data|)
      ensures writes == AfterWrite(old(writes))
      ensures Of(delivered, id) == Of(old(delivered), id) + if r.Ok? then data[..r.value] else []
      ensures OthersUnchanged(old(delivered), delivered, id)
    {
      r := WriteResult(writes, |data|);
      if writes != [] {
        writes := writes[1..];
      }
      if r.Ok? {
        delivered := delivered[id := Of(delivered, id) + data[..r.value]];
      }
    }
  }
}
