/** The sending half of the message protocol: one send stream that carries
    messages. The stream's header goes out first; every message is framed
    (id, length, payload) into a local buffer, and as much of the buffer as
    the transport accepts is written on each flush. The payload codec is a
    parameter: `encode` stands for serialising one message. */
module MessageSend {
  import opened Wire
  import opened Transport
  import opened StreamHeaders
  import opened MessageFraming

  /** `MessageSendStreamState`. `sent` records, for the proofs, the messages
      the state has taken on so far. */
  class MessageSendStreamState {
    const stream: HeaderedStreamState
    var buffer: seq<byte>
    ghost var sent: seq<RawMessage>

    ghost predicate Valid()
      reads this, stream
    {
      stream.Valid() && stream.header == ToBE(MESSAGES)
    }

    /** Everything the stream carries, as its peer will read it: the bytes
        the transport has accepted, then the header bytes still owed, then
        the buffered bytes. */
    ghost function Carried(conn: Connection): seq<byte>
      reads this, stream, conn
    {
      Of(conn.delivered, stream.streamId) + Owed(stream.headerBuffer) + buffer
    }

    /** What a message stream must carry once `sent` has been taken on: the
        message-stream header followed by the frames of `sent`. */
    ghost predicate Faithful(conn: Connection)
      reads this, stream, conn
    {
      Carried(conn) == ToBE(MESSAGES) + Flatten(sent)
    }

    /** `MessageSendStreamState::new`: the header is owed, nothing is buffered. */
    constructor (id: StreamId)
      ensures Valid() && stream.streamId == id && buffer == [] && sent == []
      ensures Owed(stream.headerBuffer) == ToBE(MESSAGES)
    {
      stream := new HeaderedStreamState(id, MESSAGES);
      buffer := [];
      sent := [];
    }

    /** `uncongested`: the whole buffer has been written. */
    predicate Uncongested()
      reads this
    {
      buffer == []
    }

    /** `flush`: the buffer is written through the headered stream, so the
        transport takes a prefix of what is owed (the header first, then the
        buffer) as `HeaderedWrite` says, and the buffered part of that prefix
        leaves the buffer. What the stream carries does not change. */
    method Flush(conn: Connection) returns (r: Result<()>)
      requires Valid()
      modifies stream, this`buffer, conn`writes, conn`delivered
      ensures Valid() && sent == old(sent)
      ensures Carried(conn) == old(Carried(conn))
      ensures r.Err? ==> buffer == old(buffer)
      ensures r.Ok? ==> |buffer| <= |old(buffer)| && buffer == old(buffer)[|old(buffer)| - |buffer|..]
      ensures Owed(old(stream.headerBuffer)) == [] ==>
        && (r.Err? <==> old(conn.writes) != [] && old(conn.writes)[0].WriteRefused?)
        && (r.Ok? ==> |old(buffer)| - |buffer| == WriteResult(old(conn.writes), |old(buffer)|).value)
      ensures var w := HeaderedWrite(Owed(old(stream.headerBuffer)), old(conn.writes), old(buffer));
        && (r.Err? <==> w.result.Err?)
        && (r.Err? ==> r.error == w.result.error)
        && (r.Ok? ==> buffer == old(buffer)[w.result.value..])
        && Owed(stream.headerBuffer) == w.owed && conn.writes == w.writes
      ensures OthersUnchanged(old(conn.delivered), conn.delivered, stream.streamId)
    {
      ghost var before, pending := Of(conn.delivered, stream.streamId) + Owed(stream.headerBuffer), buffer;
      var written := stream.Write(conn, buffer);
      if written.Err? {
        r := Err(written.error);
      } else {
        buffer := buffer[written.value..];
        r := Ok(());
      }
      Drained(before, Of(conn.delivered, stream.streamId) + Owed(stream.headerBuffer), pending, written, buffer);
    }

    /** The frame of `m` joins the buffer. */
    method Enqueue(m: RawMessage)
      requires Valid()
      modifies this`buffer, this`sent
      ensures Valid()
      ensures buffer == old(buffer) + Frame(m) && sent == old(sent) + [m]
      ensures Flatten(sent) == Flatten(old(sent)) + Frame(m)
    {
      buffer := buffer + ToBE(m.id);
      buffer := buffer + ToBE(|m.payload|);
      buffer := buffer + m.payload;
      sent := sent + [m];
      FlattenAppend(old(sent), [m]);
      assert Flatten([m]) == Frame(m) + Flatten([]);
    }

    /** Taking a message on: its frame joins the buffer and a flush of the
        whole buffer follows. */
    method Send(m: RawMessage, conn: Connection) returns (r: Result<bool>)
      requires Valid()
      modifies stream, this`buffer, this`sent, conn`writes, conn`delivered
      ensures Valid()
      ensures r.Ok? ==> r.value
      ensures sent == old(sent) + [m]
      ensures Carried(conn) == old(Carried(conn)) + Frame(m)
      ensures Flatten(sent) == Flatten(old(sent)) + Frame(m)
      ensures r.Err? ==> buffer == old(buffer) + Frame(m)
      ensures var w := HeaderedWrite(Owed(old(stream.headerBuffer)), old(conn.writes), old(buffer) + Frame(m));
        && (r.Err? <==> w.result.Err?)
        && (r.Err? ==> r.error == w.result.error)
        && (r.Ok? ==> buffer == (old(buffer) + Frame(m))[w.result.value..])
        && Owed(stream.headerBuffer) == w.owed && conn.writes == w.writes
      ensures OthersUnchanged(old(conn.delivered), conn.delivered, stream.streamId)
    {
      ghost var accepted := Of(conn.delivered, stream.streamId) + Owed(stream.headerBuffer);
      Enqueue(m);
      assert Carried(conn) == old(Carried(conn)) + Frame(m) by {
        assert accepted + (old(buffer) + Frame(m)) == (accepted + old(buffer)) + Frame(m);
      }
      var flushed := Flush(conn);
      r := if flushed.Err? then Err(flushed.error) else Ok(true);
    }

    /** `write`: unless `queue` is set, a congested stream refuses the
        message and nothing changes. Otherwise the message's frame is
        appended to what the stream carries and a flush follows; `Ok(true)`
        reports that the message was taken on, a write error is passed on
        with the frame left in the buffer. */
    method Write<T>(messageId: u16, conn: Connection, message: T, encode: T -> seq<byte>, queue: bool)
      returns (r: Result<bool>)
      requires Valid() && |encode(message)| < 0x1_0000
      modifies stream, this`buffer, this`sent, conn`writes, conn`delivered
      ensures Valid()
      ensures !queue && !old(Uncongested()) ==>
        && r == Ok(false) && buffer == old(buffer) && sent == old(sent)
        && stream.headerBuffer == old(stream.headerBuffer)
        && conn.writes == old(conn.writes) && conn.delivered == old(conn.delivered)
      ensures queue || old(Uncongested()) ==>
        && (r.Ok? ==> r.value)
        && sent == old(sent) + [RawMessage(messageId, encode(message))]
        && Carried(conn) == old(Carried(conn)) + Frame(RawMessage(messageId, encode(message)))
        && (r.Err? ==> buffer == old(buffer) + Frame(RawMessage(messageId, encode(message))))
      ensures queue || old(Uncongested()) ==>
        var bytes := old(buffer) + Frame(RawMessage(messageId, encode(message)));
        var w := HeaderedWrite(Owed(old(stream.headerBuffer)), old(conn.writes), bytes);
        && (r.Err? <==> w.result.Err?)
        && (r.Err? ==> r.error == w.result.error)
        && (r.Ok? ==> buffer == bytes[w.result.value..])
        && Owed(stream.headerBuffer) == w.owed && conn.writes == w.writes
      ensures old(Faithful(conn)) ==> Faithful(conn)
      ensures OthersUnchanged(old(conn.delivered), conn.delivered, stream.streamId)
    {
      // only a queued message or an uncongested stream takes the message on
      if !(queue || Uncongested()) {
        r := Ok(false);
      } else {
        ghost var carried, sent0 := Carried(conn), sent;
        r := Send(RawMessage(messageId, encode(message)), conn);
        FaithfulNext(carried, Carried(conn), sent0, sent, Frame(RawMessage(messageId, encode(message))));
      }
    }
  }

  /** Moving the accepted prefix of the buffer over to the accepted bytes
      leaves their concatenation unchanged. */
  lemma Drained(accepted0: seq<byte>, accepted1: seq<byte>, buffer0: seq<byte>, written: Result<nat>,
                buffer1: seq<byte>)
    requires written.Ok? ==> written.value <= |buffer0|
    requires accepted1 == accepted0 + (if written.Ok? then buffer0[..written.value] else [])
    requires buffer1 == if written.Ok? then buffer0[written.value..] else buffer0
    ensures accepted1 + buffer1 == accepted0 + buffer0
  {
    if written.Ok? {
      Regroup(accepted0, buffer0, written.value);
    } else {
      assert accepted0 + [] == accepted0;
    }
  }

  /** A stream is uncongested exactly when its whole buffer has been written:
      all it carries is what the transport has accepted and the header bytes
      still owed. A faithful stream in that state has then handed every
      message it took on to the transport, save for those header bytes. */
  lemma UncongestedMeansWritten(st: MessageSendStreamState, conn: Connection)
    ensures st.Uncongested() <==>
      st.Carried(conn) == Of(conn.delivered, st.stream.streamId) + Owed(st.stream.headerBuffer)
    ensures st.Uncongested() && st.Faithful(conn) ==>
      Of(conn.delivered, st.stream.streamId) + Owed(st.stream.headerBuffer) == ToBE(MESSAGES) + Flatten(st.sent)
  {
    var accepted := Of(conn.delivered, st.stream.streamId) + Owed(st.stream.headerBuffer);
    assert st.Carried(conn) == accepted + st.buffer;
    assert |st.Carried(conn)| == |accepted| + |st.buffer|;
    if st.Uncongested() {
      assert accepted + [] == accepted;
    }
  }

  /** Appending the same frame to what a stream carries and to the frames it
      has taken on keeps the two in agreement. */
  lemma FaithfulNext(carried0: seq<byte>, carried1: seq<byte>, sent0: seq<RawMessage>, sent1: seq<RawMessage>,
                     frame: seq<byte>)
    requires carried1 == carried0 + frame && Flatten(sent1) == Flatten(sent0) + frame
    ensures carried0 == ToBE(MESSAGES) + Flatten(sent0) ==> carried1 == ToBE(MESSAGES) + Flatten(sent1)
  {
  }
}
