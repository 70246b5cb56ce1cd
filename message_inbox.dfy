/** Turning the raw payloads queued for one message id into typed messages,
    and the per-connection inbox of one message type. The payload codec is a
    parameter: `decode` stands for deserialising one payload, `None` for a
    payload it rejects. */
module MessageInbox {
  import opened Wire
  import opened MessageFraming
  import opened RecvPass
  import opened MessageRecv

  /** The messages decoded from `raw`, in order; a payload that fails to
      decode is dropped. */
  function DecodeAll<T>(decode: seq<byte> -> Option<T>, raw: seq<Payload>): (r: seq<T>)
    ensures |r| <= |raw|
    ensures (forall i | 0 <= i < |raw| :: decode(raw[i]).Some?) ==> |r| == |raw|
    ensures (forall i | 0 <= i < |raw| :: decode(raw[i]).None?) ==> r == []
  {
    if raw == [] then []
    else
      DecodeAll(decode, raw[..|raw| - 1])
        + match decode(raw[|raw| - 1]) { case Some(m) => [m] case None => [] }
  }

  /** Decoding a longer queue decodes its two parts in turn. */
  lemma {:induction false} DecodeAllAppend<T>(decode: seq<byte> -> Option<T>, a: seq<Payload>, b: seq<Payload>)
    ensures DecodeAll(decode, a + b) == DecodeAll(decode, a) + DecodeAll(decode, b)
    decreases |b|
  {
    if b == [] {
      assert a + b == a;
    } else {
      var b' := b[..|b| - 1];
      assert (a + b)[..|a + b| - 1] == a + b';
      assert (a + b)[|a + b| - 1] == b[|b| - 1];
      DecodeAllAppend(decode, a, b');
    }
  }

  /** The payloads that carry `xs`. */
  function Encoded<T>(encode: T -> seq<byte>, xs: seq<T>): (r: seq<seq<byte>>)
    ensures |r| == |xs| && forall i | 0 <= i < |xs| :: r[i] == encode(xs[i])
  {
    seq(|xs|, i requires 0 <= i < |xs| => encode(xs[i]))
  }

  /** With a codec whose decoding inverts its encoding, decoding the payloads
      of a run of values gives back those values, in order. */
  lemma {:induction false} DecodeRoundTrip<T>(encode: T -> seq<byte>, decode: seq<byte> -> Option<T>,
                                              xs: seq<T>, raw: seq<Payload>)
    requires forall x :: decode(encode(x)) == Some(x)
    requires raw == Encoded(encode, xs)
    ensures DecodeAll(decode, raw) == xs
    decreases |xs|
  {
    if xs != [] {
      var n := |xs| - 1;
      assert raw[..n] == Encoded(encode, xs[..n]);
      DecodeRoundTrip(encode, decode, xs[..n], raw[..n]);
      assert decode(raw[n]) == Some(xs[n]);
      assert xs == xs[..n] + [xs[n]];
    }
  }

  /** The messages `xs`, encoded and tagged with `id`. */
  function Tagged<T>(id: u16, encode: T -> seq<byte>, xs: seq<T>): (r: seq<RawMessage>)
    requires forall i | 0 <= i < |xs| :: |encode(xs[i])| < 0x1_0000
    ensures |r| == |xs|
  {
    if xs == [] then [] else [RawMessage(id, encode(xs[0]))] + Tagged(id, encode, xs[1..])
  }

  lemma {:induction false} TaggedPayloads<T>(id: u16, encode: T -> seq<byte>, xs: seq<T>)
    requires forall i | 0 <= i < |xs| :: |encode(xs[i])| < 0x1_0000
    ensures PayloadsOf(Tagged(id, encode, xs), id) == Encoded(encode, xs)
    decreases |xs|
  {
    if xs != [] {
      var t := Tagged(id, encode, xs);
      assert t[0] == RawMessage(id, encode(xs[0])) && t[1..] == Tagged(id, encode, xs[1..]);
      TaggedPayloads(id, encode, xs[1..]);
      assert Encoded(encode, xs) == [encode(xs[0])] + Encoded(encode, xs[1..]);
    }
  }

  /** End to end: values sent on a fresh message stream as frames of one id,
      read by the corrected reader, queued and then decoded, come out as the
      values that were sent, in the order they were sent. */
  lemma Delivered<T>(id: u16, encode: T -> seq<byte>, decode: seq<byte> -> Option<T>, xs: seq<T>)
    requires forall x :: decode(encode(x)) == Some(x)
    requires forall i | 0 <= i < |xs| :: |encode(xs[i])| < 0x1_0000
    ensures var p := ReadMessages(Intended, ReadingId([]), Script(Tagged(id, encode, xs)));
      DecodeAll(decode, QueueOf(PushAll(map[], p.emitted), id)) == xs
  {
    var msgs := Tagged(id, encode, xs);
    var p := ReadMessages(Intended, ReadingId([]), Script(msgs));
    ScriptRoundTrip(msgs);
    assert p.emitted == msgs;
    PushAllQueues(map[], msgs, id);
    assert QueueOf(PushAll(map[], msgs), id) == PayloadsOf(msgs, id);
    TaggedPayloads(id, encode, xs);
    DecodeRoundTrip(encode, decode, xs, PayloadsOf(msgs, id));
  }

  /** `ReceivedMessages<T>`: the messages of one type received on a
      connection, oldest first. */
  class ReceivedMessages<T> {
    var messages: seq<T>

    /** A connection's inbox starts empty. */
    constructor ()
      ensures messages == []
    {
      messages := [];
    }

    /** `next`: the oldest message, if any, leaves the inbox. */
    method Next() returns (r: Option<T>)
      modifies this
      ensures r.None? <==> old(messages) == []
      ensures r.Some? ==> [r.value] + messages == old(messages)
      ensures r.None? ==> messages == []
    {
      if messages == [] {
        return None;
      }
      r := Some(messages[0]);
      messages := messages[1..];
    }

    /** `drain`: every message leaves the inbox, oldest first. */
    method Drain() returns (r: seq<T>)
      modifies this
      ensures r == old(messages) && messages == []
    {
      r := messages;
      messages := [];
    }
  }

  /** `deserialize_messages` for one connection: the raw queue of `id` is
      emptied, every payload in it decoded in order, and what decodes is
      appended to the inbox. An id with no queue changes nothing. */
  method DeserializeMessages<T>(buffers: MessageRecvBuffers, inbox: ReceivedMessages<T>, id: u16,
                                decode: seq<byte> -> Option<T>)
    modifies buffers`messages, inbox
    ensures id !in old(buffers.messages) ==>
      && buffers.messages == old(buffers.messages)
      && inbox.messages == old(inbox.messages)
    ensures id in old(buffers.messages) ==>
      && buffers.messages == old(buffers.messages)[id := []]
      && inbox.messages == old(inbox.messages) + DecodeAll(decode, old(buffers.messages)[id])
  {
    if id !in buffers.messages {
      return;
    }
    var queue := buffers.messages[id];
    buffers.messages := buffers.messages[id := []];
    var i := 0;
    while i < |queue|
      invariant 0 <= i <= |queue|
      invariant buffers.messages == old(buffers.messages)[id := []]
      invariant inbox.messages == old(inbox.messages) + DecodeAll(decode, queue[..i])
    {
      assert queue[..i + 1][..i] == queue[..i];
      match decode(queue[i]) {
        case Some(m) => inbox.messages := inbox.messages + [m];
        case None =>
      }
      i := i + 1;
    }
    assert queue[..i] == queue;
  }
}
