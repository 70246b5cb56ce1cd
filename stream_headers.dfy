/** Stream purpose headers: the first two bytes of every stream, a big-endian
    tag that says what the stream is for. The receiving side classifies newly
    opened streams by reading those two bytes; the sending side writes them
    before anything else. */
module StreamHeaders {
  import opened Wire
  import opened Transport

  /** `StreamHeader::Messages as u16`, the one tag the protocol defines. */
  const MESSAGES: u16 := 0

  /** What the receiver knows about one stream it has accepted. */
  datatype HeaderState =
    | Reading(dir: Dir, buffer: seq<byte>)
    | HeaderReceived(dir: Dir, header: u16)

  /** A stream still reading holds fewer than the two header bytes. */
  predicate WellFormed(s: HeaderState)
  {
    s.Reading? ==> |s.buffer| < 2
  }

  predicate Table(m: map<StreamId, HeaderState>)
  {
    forall id | id in m :: WellFormed(m[id])
  }

  predicate ClassifiedAs(s: HeaderState, tag: u16)
  {
    s.HeaderReceived? && s.header == tag
  }

  /** Inserting a fresh `Reading` entry for each accepted stream, in order. */
  function InsertReading(m: map<StreamId, HeaderState>, ids: seq<StreamId>, dir: Dir)
    : (r: map<StreamId, HeaderState>)
    ensures r.Keys == m.Keys + set id | id in ids
    ensures forall id | id in ids :: r[id] == Reading(dir, [])
    ensures forall id | id in m && id !in ids :: r[id] == m[id]
    ensures Table(m) ==> Table(r)
    decreases |ids|
  {
    if ids == [] then m else InsertReading(m[ids[0] := Reading(dir, [])], ids[1..], dir)
  }

  /** The table after accepting every pending stream, unidirectional first. */
  function AcceptAll(m: map<StreamId, HeaderState>, uni: seq<StreamId>, bi: seq<StreamId>)
    : map<StreamId, HeaderState>
  {
    InsertReading(InsertReading(m, uni, Uni), bi, Bi)
  }

  /** How one stream's reading loop ends: its new state, the bytes it took
      from the transport, whether a fatal read error stopped the pass, and
      the outcomes left unread. */
  datatype HeaderPass = HeaderPass(state: HeaderState, consumed: seq<byte>, fatal: bool,
                                   rest: seq<ReadOutcome>)

  /** The reading loop for a stream in `Reading(dir, buffer)` whose reads
      report `outs`. Each read asks for exactly the missing header bytes. End
      of stream and reset are noted and the loop reads again; "would block"
      stops it with the bytes kept; any other error aborts. */
  function ReadHeader(dir: Dir, buffer: seq<byte>, outs: seq<ReadOutcome>): (p: HeaderPass)
    requires |buffer| < 2
    ensures p.state.dir == dir && WellFormed(p.state)
    ensures p.state.Reading? ==> p.state.buffer == buffer + p.consumed
    ensures p.state.HeaderReceived? ==> ToBE(p.state.header) == buffer + p.consumed
    ensures p.fatal ==> p.state.Reading?
    decreases |outs|
  {
    if outs == [] then HeaderPass(Reading(dir, buffer), [], false, [])
    else match Clip(outs[0], 2 - |buffer|)
      case Data(chunk) =>
        var b := buffer + chunk;
        if |b| == 2 then
          ToFromBE(b);
          HeaderPass(HeaderReceived(dir, FromBE(b)), chunk, false, outs[1..])
        else
          var p := ReadHeader(dir, b, outs[1..]);
          p.(consumed := chunk + p.consumed)
      case End => ReadHeader(dir, buffer, outs[1..])
      case Reset(_) => ReadHeader(dir, buffer, outs[1..])
      case Blocked => HeaderPass(Reading(dir, buffer), [], false, outs[1..])
      case OtherReadError => HeaderPass(Reading(dir, buffer), [], true, outs[1..])
  }

  /** What a stream's reading loop leaves behind, without the bytes it took. */
  function Ends(p: HeaderPass): (HeaderState, seq<ReadOutcome>, bool)
  {
    (p.state, p.rest, p.fatal)
  }

  /** One stream's part of the reading pass: classified streams are skipped. */
  function HeaderOutcome(s: HeaderState, outs: seq<ReadOutcome>): (p: HeaderPass)
    requires WellFormed(s)
  {
    match s
    case HeaderReceived(_, _) => HeaderPass(s, [], false, outs)
    case Reading(dir, buffer) => ReadHeader(dir, buffer, outs)
  }

  /** How each stream's part of one reading pass would run, from its entry
      in `start` against its script in `recv0`. */
  function HeaderPasses(start: map<StreamId, HeaderState>, recv0: map<StreamId, seq<ReadOutcome>>)
    : (r: map<StreamId, HeaderPass>)
    requires Table(start)
    ensures r.Keys == start.Keys
  {
    map id | id in start :: HeaderOutcome(start[id], Of(recv0, id))
  }

  /** The table and read scripts once the loops of the streams in `order`
      have run, in that order, from the table `start` and the scripts `recv0`
      (`passes` says how each loop runs): each visited stream holds its loop's
      outcome and its script is read up to there; every other stream keeps its
      entry and its script. No entry is removed. */
  ghost predicate HeadersAfter(start: map<StreamId, HeaderState>, recv0: map<StreamId, seq<ReadOutcome>>,
                               passes: map<StreamId, HeaderPass>, order: seq<StreamId>,
                               table: map<StreamId, HeaderState>, recv: map<StreamId, seq<ReadOutcome>>)
  {
    && Visits(start, order)
    && passes.Keys == start.Keys
    && TableAfter(start, passes, order, table)
    && ScriptsAfter(recv0, passes, order, recv)
  }

  /** The table part of `HeadersAfter`. */
  ghost predicate TableAfter(start: map<StreamId, HeaderState>, passes: map<StreamId, HeaderPass>,
                             order: seq<StreamId>, table: map<StreamId, HeaderState>)
    requires passes.Keys == start.Keys
  {
    && table.Keys == start.Keys
    && forall id | id in start :: table[id] == if id in order then passes[id].state else start[id]
  }

  /** The read-script part of `HeadersAfter`. */
  ghost predicate ScriptsAfter(recv0: map<StreamId, seq<ReadOutcome>>, passes: map<StreamId, HeaderPass>,
                               order: seq<StreamId>, recv: map<StreamId, seq<ReadOutcome>>)
  {
    forall id :: Of(recv, id) == if id in passes && id in order then passes[id].rest else Of(recv0, id)
  }

  /** None of the loops of `order` met a fatal error. */
  ghost predicate NoneFatalHeader(passes: map<StreamId, HeaderPass>, order: seq<StreamId>)
  {
    forall i | 0 <= i < |order| :: order[i] in passes && !passes[order[i]].fatal
  }

  /** What one reading pass over the table `start`, with read scripts
      `recv0`, leaves behind (`table`, `recv`), and whether it succeeded,
      given the order `order` in which it visited the streams. It visits
      streams until one meets a fatal error: a successful pass visited every
      stream, an aborted one stopped at the first fatal stream. So the pass
      succeeds exactly when no stream's loop meets a fatal error. */
  ghost predicate PassOutcome(start: map<StreamId, HeaderState>, recv0: map<StreamId, seq<ReadOutcome>>,
                              table: map<StreamId, HeaderState>, recv: map<StreamId, seq<ReadOutcome>>,
                              ok: bool, order: seq<StreamId>)
    requires Table(start)
  {
    var passes := HeaderPasses(start, recv0);
    && HeadersAfter(start, recv0, passes, order, table, recv)
    && (ok ==> start.Keys <= Elems(order) && NoneFatalHeader(passes, order))
    && (!ok ==> order != [] && passes[order[|order| - 1]].fatal && NoneFatalHeader(passes, order[..|order| - 1]))
    && (ok <==> forall id | id in start :: !passes[id].fatal)
  }

  /** A stream not yet visited still runs its loop from its entry in the
      current table against its current script. */
  lemma PassOf(start: map<StreamId, HeaderState>, recv0: map<StreamId, seq<ReadOutcome>>,
               order: seq<StreamId>, table: map<StreamId, HeaderState>, recv: map<StreamId, seq<ReadOutcome>>,
               id: StreamId)
    requires Table(start) && HeadersAfter(start, recv0, HeaderPasses(start, recv0), order, table, recv)
    requires id in start && id !in order
    ensures HeaderPasses(start, recv0)[id] == HeaderOutcome(table[id], Of(recv, id))
  {
    assert table[id] == start[id] && Of(recv, id) == Of(recv0, id);
  }

  /** One more stream's loop has run: the account extends by that stream. */
  lemma HeadersNext(start: map<StreamId, HeaderState>, recv0: map<StreamId, seq<ReadOutcome>>,
                    passes: map<StreamId, HeaderPass>, order: seq<StreamId>,
                    table: map<StreamId, HeaderState>, recv: map<StreamId, seq<ReadOutcome>>,
                    id: StreamId, table1: map<StreamId, HeaderState>, recv1: map<StreamId, seq<ReadOutcome>>)
    requires HeadersAfter(start, recv0, passes, order, table, recv)
    requires id in start && id !in order
    requires table1 == table[id := passes[id].state]
    requires Of(recv1, id) == passes[id].rest
    requires OthersUnchanged(recv, recv1, id)
    ensures HeadersAfter(start, recv0, passes, order + [id], table1, recv1)
  {
    VisitsNext(start, order, id);
    TableNext(start, passes, order, table, id);
    ScriptsNext(recv0, passes, order, recv, id, recv1);
  }

  /** `HeadersNext` for the table: the visited stream now holds its loop's
      outcome. */
  lemma TableNext(start: map<StreamId, HeaderState>, passes: map<StreamId, HeaderPass>,
                  order: seq<StreamId>, table: map<StreamId, HeaderState>, id: StreamId)
    requires passes.Keys == start.Keys && TableAfter(start, passes, order, table)
    requires id in start
    ensures TableAfter(start, passes, order + [id], table[id := passes[id].state])
  {
  }

  /** `HeadersNext` for the read scripts: the visited stream's script is
      read up to its loop's outcome, the others are as they were. */
  lemma ScriptsNext(recv0: map<StreamId, seq<ReadOutcome>>, passes: map<StreamId, HeaderPass>,
                    order: seq<StreamId>, recv: map<StreamId, seq<ReadOutcome>>,
                    id: StreamId, recv1: map<StreamId, seq<ReadOutcome>>)
    requires ScriptsAfter(recv0, passes, order, recv)
    requires id in passes
    requires Of(recv1, id) == passes[id].rest
    requires OthersUnchanged(recv, recv1, id)
    ensures ScriptsAfter(recv0, passes, order + [id], recv1)
  {
  }

  /** A pass that visited every stream without a fatal error, or stopped at
      the first fatal one, succeeds exactly when no stream's loop is fatal. */
  lemma HeadersVerdict(start: map<StreamId, HeaderState>, recv0: map<StreamId, seq<ReadOutcome>>,
                       order: seq<StreamId>, table: map<StreamId, HeaderState>,
                       recv: map<StreamId, seq<ReadOutcome>>, ok: bool)
    requires Table(start)
    requires HeadersAfter(start, recv0, HeaderPasses(start, recv0), order, table, recv)
    requires ok ==> start.Keys <= Elems(order) && NoneFatalHeader(HeaderPasses(start, recv0), order)
    requires !ok ==> && order != [] && HeaderPasses(start, recv0)[order[|order| - 1]].fatal
                     && NoneFatalHeader(HeaderPasses(start, recv0), order[..|order| - 1])
    ensures PassOutcome(start, recv0, table, recv, ok, order)
  {
    var passes := HeaderPasses(start, recv0);
    if ok {
      forall id | id in start
        ensures !passes[id].fatal
      {
        assert id in Elems(order);
        var i :| 0 <= i < |order| && order[i] == id;
      }
    }
  }

  /** A stream whose first two delivered bytes are a tag's encoding is
      classified with that tag and its direction, and nothing after the
      header is consumed. */
  lemma {:induction false} HeaderRecognised(dir: Dir, tag: u16, first: byte, outs: seq<ReadOutcome>)
    requires ToBE(tag)[0] == first
    requires outs != [] && outs[0] == Data([ToBE(tag)[1]])
    ensures var p := ReadHeader(dir, [first], outs);
      p.state == HeaderReceived(dir, tag) && p.consumed == [ToBE(tag)[1]] && p.rest == outs[1..]
  {
    ToBEInjective(FromBE([first] + [ToBE(tag)[1]]), tag) by {
      assert [first] + [ToBE(tag)[1]] == ToBE(tag);
      ToFromBE(ToBE(tag));
    }
  }

  /** A stream's header delivered as two one-byte reads classifies it. */
  lemma HeaderByteByByte(dir: Dir, tag: u16, outs: seq<ReadOutcome>)
    requires |outs| >= 2 && outs[0] == Data([ToBE(tag)[0]]) && outs[1] == Data([ToBE(tag)[1]])
    ensures var p := ReadHeader(dir, [], outs);
      p.state == HeaderReceived(dir, tag) && p.consumed == ToBE(tag) && p.rest == outs[2..]
  {
    HeaderRecognised(dir, tag, ToBE(tag)[0], outs[1..]);
    assert outs[1..][1..] == outs[2..];
  }

  class RecvStreamHeaders {
    var buffers: map<StreamId, HeaderState>

    ghost predicate Valid()
      reads this
    {
      Table(buffers)
    }

    constructor ()
      ensures Valid() && buffers == map[]
    {
      buffers := map[];
    }

    /** Accepting every stream the peer opened in one direction. */
    method AcceptStreams(conn: Connection, dir: Dir)
      requires Valid()
      modifies this, conn`acceptUni, conn`acceptBi
      ensures Valid()
      ensures buffers == InsertReading(old(buffers), old(conn.Incoming(dir)), dir)
      ensures conn.Incoming(dir) == []
      ensures dir == Uni ==> conn.acceptBi == old(conn.acceptBi)
      ensures dir == Bi ==> conn.acceptUni == old(conn.acceptUni)
    {
      while true
        invariant Valid()
        invariant InsertReading(buffers, conn.Incoming(dir), dir)
               == InsertReading(old(buffers), old(conn.Incoming(dir)), dir)
        invariant dir == Uni ==> conn.acceptBi == old(conn.acceptBi)
        invariant dir == Bi ==> conn.acceptUni == old(conn.acceptUni)
        decreases |conn.Incoming(dir)|
      {
        var id := conn.AcceptStream(dir);
        if id.None? {
          break;
        }
        buffers := buffers[id.value := Reading(dir, [])];
      }
    }

    /** The reading loop for one stream still in `Reading`. The streams that
        ended or were reset are collected in `failed`, as the source does. */
    method ReadStreamHeader(conn: Connection, id: StreamId) returns (failed: seq<StreamId>, fatal: bool)
      requires Valid() && id in buffers && buffers[id].Reading?
      modifies this, conn`recv
      ensures Valid()
      ensures var p := HeaderOutcome(old(buffers[id]), Of(old(conn.recv), id));
        buffers == old(buffers)[id := p.state] && Of(conn.recv, id) == p.rest && fatal == p.fatal
      ensures OthersUnchanged(old(conn.recv), conn.recv, id)
    {
      var dir, buffer := buffers[id].dir, buffers[id].buffer;
      ghost var goal := ReadHeader(dir, buffer, Of(conn.recv, id));
      failed, fatal := [], false;
      while true
        invariant |buffer| < 2
        invariant buffers == old(buffers)[id := Reading(dir, buffer)]
        invariant Ends(ReadHeader(dir, buffer, Of(conn.recv, id))) == Ends(goal)
        invariant OthersUnchanged(old(conn.recv), conn.recv, id)
        decreases |Of(conn.recv, id)|
      {
        var outcome := conn.ReadRecvStream(id, 2 - |buffer|);
        if outcome.Data? {
          buffer := buffer + outcome.bytes;
          if |buffer| == 2 {
            buffers := buffers[id := HeaderReceived(dir, FromBE(buffer))];
            return;
          }
          buffers := buffers[id := Reading(dir, buffer)];
        } else if outcome.End? || outcome.Reset? {
          failed := failed + [id];
        } else {
          // "would block" leaves the stream for the next pass; any other
          // error aborts the pass
          fatal := outcome.OtherReadError?;
          return;
        }
      }
    }

    /** `read_stream_headers` for one connection: accept new streams, then run
        every `Reading` stream's loop. The streams noted as failed are
        collected and then dropped: no entry is ever removed. */
    method ReadStreamHeaders(conn: Connection) returns (r: Result<()>, ghost order: seq<StreamId>)
      requires Valid()
      modifies this, conn`acceptUni, conn`acceptBi, conn`recv
      ensures Valid()
      ensures conn.acceptUni == [] && conn.acceptBi == []
      ensures var start := AcceptAll(old(buffers), old(conn.acceptUni), old(conn.acceptBi));
        Table(start) && PassOutcome(start, old(conn.recv), buffers, conn.recv, r.Ok?, order)
    {
      AcceptStreams(conn, Uni);
      AcceptStreams(conn, Bi);
      r, order := ReadAcceptedHeaders(conn);
    }

    /** The second half of the pass: every stream of the table, in some order
        (that of the map's iteration, which is not determined), until a loop
        meets a fatal error; `order` is the order the streams were visited in. */
    method ReadAcceptedHeaders(conn: Connection) returns (r: Result<()>, ghost order: seq<StreamId>)
      requires Valid()
      modifies this, conn`recv
      ensures Valid()
      ensures PassOutcome(old(buffers), old(conn.recv), buffers, conn.recv, r.Ok?, order)
    {
      ghost var start, recv0 := buffers, conn.recv;
      ghost var passes := HeaderPasses(start, recv0);
      var failedStreams: seq<StreamId> := [];
      var todo := buffers.Keys;
      order := [];
      while todo != {}
        invariant Valid()
        invariant todo == start.Keys - Elems(order)
        invariant HeadersAfter(start, recv0, passes, order, buffers, conn.recv)
        invariant NoneFatalHeader(passes, order)
        decreases todo
      {
        var id :| id in todo;
        TodoNext(start, order, todo, id);
        ghost var table, recv, prev := buffers, conn.recv, order;
        PassOf(start, recv0, order, buffers, conn.recv, id);
        var failed, fatal := VisitStream(conn, id);
        failedStreams := failedStreams + failed;
        HeadersNext(start, recv0, passes, order, table, recv, id, buffers, conn.recv);
        order := order + [id];
        if fatal {
          assert order[..|order| - 1] == prev;
          HeadersVerdict(start, recv0, order, buffers, conn.recv, false);
          return Err(StreamReadError), order;
        }
        todo := todo - {id};
      }
      TodoDone(start, order);
      HeadersVerdict(start, recv0, order, buffers, conn.recv, true);
      r := Ok(());
    }

    /** One stream's turn in the pass: a stream whose header is already in
        is skipped; a `Reading` stream runs its loop. */
    method VisitStream(conn: Connection, id: StreamId) returns (failed: seq<StreamId>, fatal: bool)
      requires Valid() && id in buffers
      modifies this, conn`recv
      ensures Valid()
      ensures var p := HeaderOutcome(old(buffers[id]), Of(old(conn.recv), id));
        buffers == old(buffers)[id := p.state] && Of(conn.recv, id) == p.rest && fatal == p.fatal
      ensures OthersUnchanged(old(conn.recv), conn.recv, id)
    {
      failed, fatal := [], false;
      if !buffers[id].HeaderReceived? {
        failed, fatal := ReadStreamHeader(conn, id);
      }
    }

    /** `take_stream(tag)`: claim some classified stream with that tag. Which
        of several matches is returned is not determined. */
    method TakeStream(tag: u16) returns (r: Option<(StreamId, Dir)>)
      modifies this
      ensures r.Some? ==> var (id, dir) := r.value;
        id in old(buffers) && old(buffers)[id] == HeaderReceived(dir, tag)
        && buffers == old(buffers) - {id}
      ensures r.None? ==>
        buffers == old(buffers) && forall id | id in buffers :: !ClassifiedAs(buffers[id], tag)
    {
      if id :| id in buffers && ClassifiedAs(buffers[id], tag) {
        var dir := buffers[id].dir;
        buffers := buffers - {id};
        r := Some((id, dir));
      } else {
        r := None;
      }
    }
  }

  lemma Regroup(a: seq<byte>, b: seq<byte>, n: nat)
    requires n <= |b|
    ensures (a + b[..n]) + b[n..] == a + b
  {
    assert b == b[..n] + b[n..];
  }

  /** Dropping accepted bytes from the unwritten tail of a header leaves a
      shorter tail of it. */
  lemma HeaderTail(header: seq<byte>, b: seq<byte>, n: nat)
    requires |b| <= |header| && b == header[|header| - |b|..] && n <= |b|
    ensures b[n..] == header[|header| - |b[n..]|..]
  {
    calc {
      b[n..];
      header[|header| - |b|..][n..];
      header[|header| - |b| + n..];
    }
  }

  /** The header bytes a sender still owes. */
  function Owed(headerBuffer: Option<seq<byte>>): seq<byte>
  {
    if headerBuffer.Some? then headerBuffer.value else []
  }

  /** What one `write` on a headered stream leaves behind: its result, the
      header bytes still owed, and the capacity script still to come. */
  datatype Written = Written(result: Result<nat>, owed: seq<byte>, writes: seq<WriteOutcome>)

  /** `write` on a stream that still owes `owed` header bytes, against the
      capacity script `writes`: the owed header is offered first and what the
      transport accepts leaves it; a refusal is reported at once; a header
      still owed afterwards reports 0 without offering the data; otherwise the
      data is offered to the next write. */
  function HeaderedWrite(owed: seq<byte>, writes: seq<WriteOutcome>, data: seq<byte>): (w: Written)
    ensures w.result.Ok? ==> w.result.value <= |data|
    ensures w.result.Ok? && w.result.value > 0 ==> w.owed == []
    ensures |w.owed| <= |owed| && w.owed == owed[|owed| - |w.owed|..]
  {
    if owed == [] then Written(WriteResult(writes, |data|), [], AfterWrite(writes))
    else match WriteResult(writes, |owed|)
      case Err(e) => Written(Err(e), owed, AfterWrite(writes))
      case Ok(k) =>
        if k < |owed| then Written(Ok(0), owed[k..], AfterWrite(writes))
        else Written(WriteResult(AfterWrite(writes), |data|), [], AfterWrite(AfterWrite(writes)))
  }

  /** `HeaderedWrite` on a stream that owes header bytes, case by case on
      the outcome of the header write (`header`, with `left` still owed
      after it). */
  lemma HeaderedWriteSteps(owed: seq<byte>, writes: seq<WriteOutcome>, data: seq<byte>,
                            header: Result<bool>, left: seq<byte>)
    requires owed != []
    requires var k := WriteResult(writes, |owed|);
      && (header.Err? <==> k.Err?)
      && (header.Err? ==> header.error == k.error && left == owed)
      && (header.Ok? ==> left == owed[k.value..] && (header.value <==> left == []))
    ensures var w := HeaderedWrite(owed, writes, data);
      && w.owed == left
      && (header.Err? ==> w.result == Err(header.error) && w.writes == AfterWrite(writes))
      && (header == Ok(false) ==> w.result == Ok(0) && w.writes == AfterWrite(writes))
      && (header == Ok(true) ==>
            w.result == WriteResult(AfterWrite(writes), |data|) && w.writes == AfterWrite(AfterWrite(writes)))
  {
  }

  /** The header goes out before the data: the bytes one `write` hands to the
      transport, the accepted part of the header followed by the accepted
      part of the data, are a prefix of the header and the data, and what is
      left of them follows. The data is only offered once nothing is owed. */
  lemma HeaderFirst(owed: seq<byte>, writes: seq<WriteOutcome>, data: seq<byte>)
    ensures var w := HeaderedWrite(owed, writes, data);
      var n := if w.result.Ok? then w.result.value else 0;
      && owed + data == (owed[..|owed| - |w.owed|] + data[..n]) + (w.owed + data[n..])
      && (n > 0 ==> owed[..|owed| - |w.owed|] == owed)
  {
    var w := HeaderedWrite(owed, writes, data);
    SentThenLeft(owed, w.owed, data, if w.result.Ok? then w.result.value else 0);
  }

  /** Splitting `owed` after its sent part and `data` after `n` bytes, where
      data is only sent once nothing is left owed, regroups `owed + data` as
      what was sent followed by what is left. */
  lemma SentThenLeft(owed: seq<byte>, left: seq<byte>, data: seq<byte>, n: nat)
    requires |left| <= |owed| && left == owed[|owed| - |left|..]
    requires n <= |data| && (n > 0 ==> left == [])
    ensures owed + data == (owed[..|owed| - |left|] + data[..n]) + (left + data[n..])
    ensures n > 0 ==> owed[..|owed| - |left|] == owed
  {
    var sent := |owed| - |left|;
    if n > 0 {
      calc {
        (owed[..sent] + data[..n]) + ([] + data[n..]);
        owed + (data[..n] + data[n..]);
        { assert data[..n] + data[n..] == data; }
        owed + data;
      }
    } else {
      calc {
        (owed[..sent] + data[..0]) + (left + data[0..]);
        (owed[..sent] + owed[sent..]) + data;
        { assert owed[..sent] + owed[sent..] == owed; }
        owed + data;
      }
    }
  }

  /** The sending side of a headered stream. */
  class HeaderedStreamState {
    const streamId: StreamId
    ghost const header: seq<byte>
    var headerBuffer: Option<seq<byte>>

    /** Whatever header bytes remain unwritten are a non-empty tail of the
        header's encoding. */
    ghost predicate Valid()
      reads this
    {
      |header| == 2 &&
      match headerBuffer
      case None => true
      case Some(b) => 0 < |b| <= 2 && b == header[2 - |b|..]
    }

    /** `HeaderedStreamState::new`: the whole header is still to be written. */
    constructor (id: StreamId, header: u16)
      ensures Valid() && streamId == id && this.header == ToBE(header)
      ensures headerBuffer == Some(ToBE(header)) && Owed(headerBuffer) == ToBE(header)
    {
      streamId, this.header := id, ToBE(header);
      headerBuffer := Some(ToBE(header));
    }

    /** The first `n` owed header bytes have been accepted: they leave the
        header buffer, and an emptied buffer becomes `None`. */
    method Advance(n: nat)
      requires Valid() && n <= |Owed(headerBuffer)|
      modifies this`headerBuffer
      ensures Valid()
      ensures Owed(headerBuffer) == Owed(old(headerBuffer))[n..]
    {
      if headerBuffer.Some? {
        var rest := headerBuffer.value[n..];
        HeaderTail(header, headerBuffer.value, n);
        headerBuffer := if rest == [] then None else Some(rest);
      }
    }

    /** The header part of `write`: the unwritten header bytes are offered
        and whatever the transport accepts leaves the header buffer.
        `Ok(true)` reports that the whole header is out. */
    method WriteHeader(conn: Connection) returns (r: Result<bool>)
      requires Valid() && headerBuffer.Some?
      modifies this`headerBuffer, conn`writes, conn`delivered
      ensures Valid()
      ensures r.Ok? ==> (r.value <==> Owed(headerBuffer) == [])
      ensures r.Err? ==> headerBuffer == old(headerBuffer)
      ensures var k := WriteResult(old(conn.writes), |Owed(old(headerBuffer))|);
        && (r.Err? <==> k.Err?)
        && (r.Err? ==> r.error == k.error)
        && (r.Ok? ==> Owed(headerBuffer) == Owed(old(headerBuffer))[k.value..])
      ensures conn.writes == AfterWrite(old(conn.writes))
      ensures Of(conn.delivered, streamId) + Owed(headerBuffer)
           == Of(old(conn.delivered), streamId) + Owed(old(headerBuffer))
      ensures OthersUnchanged(old(conn.delivered), conn.delivered, streamId)
    {
      ghost var carried := Of(conn.delivered, streamId);
      var buffer := headerBuffer.value;
      var written := conn.WriteSendStream(streamId, buffer);
      if written.Err? {
        r := Err(written.error);
      } else {
        Regroup(carried, buffer, written.value);
        Advance(written.value);
        r := Ok(headerBuffer.None?);
      }
    }

    /** `write`: the header goes out first; while any of it is unaccepted no
        data is written and 0 is reported. The result, the header still owed
        and the capacities left are those of `HeaderedWrite`. The bytes the
        stream has carried, followed by what is still owed of the header, grow
        by exactly the data reported written. */
    method Write(conn: Connection, data: seq<byte>) returns (r: Result<nat>)
      requires Valid()
      modifies this`headerBuffer, conn`writes, conn`delivered
      ensures Valid()
      ensures r.Ok? ==> r.value <= |data|
      ensures r.Ok? && r.value > 0 ==> Owed(headerBuffer) == []
      ensures Owed(headerBuffer) != [] ==> r == Ok(0) || r.Err?
      ensures Owed(old(headerBuffer)) == [] ==> r == WriteResult(old(conn.writes), |data|) && Owed(headerBuffer) == []
      ensures var w := HeaderedWrite(Owed(old(headerBuffer)), old(conn.writes), data);
        r == w.result && Owed(headerBuffer) == w.owed && conn.writes == w.writes
      ensures Of(conn.delivered, streamId) + Owed(headerBuffer)
           == Of(old(conn.delivered), streamId) + Owed(old(headerBuffer)) + (if r.Ok? then data[..r.value] else [])
      ensures OthersUnchanged(old(conn.delivered), conn.delivered, streamId)
    {
      ghost var owed, writes, carried := Owed(headerBuffer), conn.writes, Of(conn.delivered, streamId);
      if headerBuffer.Some? {
        var headerOut := WriteHeader(conn);
        HeaderedWriteSteps(owed, writes, data, headerOut, Owed(headerBuffer));
        if headerOut.Err? {
          r := Err(headerOut.error);
          assert Of(conn.delivered, streamId) + Owed(headerBuffer) == carried + owed + [];
          return;
        } else if !headerOut.value {
          r := Ok(0);
          assert Of(conn.delivered, streamId) + Owed(headerBuffer) == carried + owed + data[..0];
          return;
        }
      }
      assert Owed(headerBuffer) == [] && Of(conn.delivered, streamId) == carried + owed;
      r := conn.WriteSendStream(streamId, data);
    }
  }
}
