/** Message framing on a message stream: each message travels as its 16-bit
    id, its 16-bit payload length (both big-endian) and the payload bytes. The
    receiver decodes a stream with a three-phase state machine driven by
    reads that ask for exactly the bytes the current phase still needs. This
    module holds that machine as pure functions, for both the code as it is
    written and the evidently intended behaviour, and proves what each does. */
module MessageFraming {
  import opened Wire
  import opened Transport
  import opened U16Reading

  /** A payload whose length fits the 16-bit length field. */
  type Payload = s: seq<byte> | |s| < 0x1_0000

  /** A received message before deserialization: its id and its bytes. */
  datatype RawMessage = RawMessage(id: u16, payload: Payload)

  /** The bytes that carry one message. */
  function Frame(m: RawMessage): (f: seq<byte>)
    ensures |f| == 4 + |m.payload|
  {
    ToBE(m.id) + ToBE(|m.payload|) + m.payload
  }

  /** A frame starts with the id, then the length, then the payload. */
  lemma FrameParts(m: RawMessage)
    ensures |Frame(m)| == 4 + |m.payload|
    ensures Frame(m)[..2] == ToBE(m.id) && Frame(m)[2..4] == ToBE(|m.payload|) && Frame(m)[4..] == m.payload
  {
    var f := Frame(m);
    assert f == ToBE(m.id) + (ToBE(|m.payload|) + m.payload);
  }

  /** The bytes that carry several messages, one after another. */
  function Flatten(ms: seq<RawMessage>): (bytes: seq<byte>)
  {
    if ms == [] then [] else Frame(ms[0]) + Flatten(ms[1..])
  }

  /** The per-stream receive state (`MessageRecvBufferState`). A 16-bit
      reader is represented by the bytes it holds. */
  datatype RecvState =
    | ReadingId(held: seq<byte>)
    | ReadingLength(id: u16, held: seq<byte>)
    | ReadingMessage(id: u16, length: u16, buffer: seq<byte>)

  /** The states the machine can be in between reads: a reader is never
      full, and a payload buffer is either short of its length or empty
      (an empty payload waits for one read of zero bytes). */
  predicate Sound(s: RecvState)
  {
    match s
    case ReadingId(held) => |held| < 2
    case ReadingLength(_, held) => |held| < 2
    case ReadingMessage(_, length, buffer) => |buffer| < length || buffer == []
  }

  /** How many bytes the next read asks for. */
  function Need(s: RecvState): (n: nat)
    requires Sound(s)
    ensures s.ReadingId? || s.ReadingLength? ==> n == 2 - |s.held| && n > 0
    ensures s.ReadingMessage? ==> n + |s.buffer| == s.length
  {
    match s
    case ReadingId(held) => 2 - |held|
    case ReadingLength(_, held) => 2 - |held|
    case ReadingMessage(_, length, buffer) => length - |buffer|
  }

  /** The bytes of the stream that the state holds on to: what it has read
      of the message it is in the middle of. */
  function Pending(s: RecvState): (held: seq<byte>)
  {
    match s
    case ReadingId(held) => held
    case ReadingLength(id, held) => ToBE(id) + held
    case ReadingMessage(id, length, buffer) => ToBE(id) + ToBE(length) + buffer
  }

  /** Which behaviour after a completed payload: the code as written keeps
      the payload phase, with the same id and length, and only empties the
      buffer; the intended behaviour goes back to reading an id. */
  datatype Revision = AsWritten | Intended

  /** The state after a read and the messages it completed (none or one). */
  datatype Stepped = Stepped(state: RecvState, out: seq<RawMessage>)

  /** What one delivered chunk does to the state. */
  function Step(rev: Revision, s: RecvState, chunk: seq<byte>): (t: Stepped)
    requires Sound(s) && |chunk| <= Need(s)
    ensures Sound(t.state)
    ensures |t.out| <= 1
    ensures t.out != [] <==> s.ReadingMessage? && |s.buffer| + |chunk| == s.length
    ensures t.out != [] ==> t.out[0] == RawMessage(s.id, s.buffer + chunk)
    ensures t.out != [] ==> t.state == AfterMessage(rev, t.out[0])
    ensures t.out == [] ==> Pending(t.state) == Pending(s) + chunk
  {
    match s
    case ReadingId(held) =>
      var h := Absorb(held, chunk);
      (match Assemble(h)
       case None => Stepped(ReadingId(h), [])
       case Some(id) => Stepped(ReadingLength(id, []), []))
    case ReadingLength(id, held) =>
      var h := Absorb(held, chunk);
      (match Assemble(h)
       case None => Stepped(ReadingLength(id, h), [])
       case Some(length) => Stepped(ReadingMessage(id, length, []), []))
    case ReadingMessage(id, length, buffer) =>
      var b := buffer + chunk;
      if |b| != length then Stepped(ReadingMessage(id, length, b), [])
      else
        var next := if rev == AsWritten then ReadingMessage(id, length, []) else ReadingId([]);
        Stepped(next, [RawMessage(id, b)])
  }

  /** How one stream's reading loop ends: its new state, the messages it
      completed in order, the bytes it took from the transport, whether the
      peer finished or reset the stream, whether a fatal read error stopped
      the pass, and the outcomes left unread. */
  datatype MsgPass = MsgPass(state: RecvState, emitted: seq<RawMessage>, consumed: seq<byte>,
                             finished: bool, fatal: bool, rest: seq<ReadOutcome>)

  /** The reading loop of one message stream whose reads report `outs`. Each
      read asks for `Need`; the end of the stream and a reset finish the
      stream, "would block" stops it for this pass, any other error aborts. */
  function ReadMessages(rev: Revision, s: RecvState, outs: seq<ReadOutcome>): (p: MsgPass)
    requires Sound(s)
    ensures Sound(p.state)
    ensures !(p.finished && p.fatal)
    ensures |p.rest| <= |outs|
    decreases |outs|
  {
    if outs == [] then MsgPass(s, [], [], false, false, [])
    else match Clip(outs[0], Need(s))
      case Data(chunk) =>
        var t := Step(rev, s, chunk);
        var p := ReadMessages(rev, t.state, outs[1..]);
        p.(emitted := t.out + p.emitted, consumed := chunk + p.consumed)
      case End => MsgPass(s, [], [], true, false, outs[1..])
      case Reset(_) => MsgPass(s, [], [], true, false, outs[1..])
      case Blocked => MsgPass(s, [], [], false, false, outs[1..])
      case OtherReadError => MsgPass(s, [], [], false, true, outs[1..])
  }

  /** One turn of the reading loop: the first read's outcome decides how
      the loop goes on. */
  lemma ReadUnfold(rev: Revision, s: RecvState, outs: seq<ReadOutcome>)
    requires Sound(s)
    ensures var o, p := NextRead(outs, Need(s)), ReadMessages(rev, s, outs);
      && (o.Data? ==>
            && |o.bytes| <= Need(s)
            && var t := Step(rev, s, o.bytes);
               var q := ReadMessages(rev, t.state, AfterRead(outs));
               p == q.(emitted := t.out + q.emitted, consumed := o.bytes + q.consumed))
      && (!o.Data? ==> p == MsgPass(s, [], [], o.End? || o.Reset?, o.OtherReadError?, AfterRead(outs)))
  {
  }

  lemma FlattenAppend(a: seq<RawMessage>, b: seq<RawMessage>)
    ensures Flatten(a + b) == Flatten(a) + Flatten(b)
  {
    if a != [] {
      assert (a + b)[0] == a[0] && (a + b)[1..] == a[1..] + b;
      FlattenAppend(a[1..], b);
      FlattenHead(a + b, []);
      FlattenHead(a, Flatten(b));
      assert Flatten(a + b) + [] == Flatten(a + b) && Flatten(a[1..] + b) + [] == Flatten(a[1..] + b);
    } else {
      assert a + b == b;
    }
  }

  /** One read, as intended: the bytes held and the chunk are the frame of
      the message completed, if any, followed by the bytes now held. */
  lemma StepConserves(s: RecvState, chunk: seq<byte>)
    requires Sound(s) && |chunk| <= Need(s)
    ensures var t := Step(Intended, s, chunk);
      Pending(s) + chunk == Flatten(t.out) + Pending(t.state)
  {
    var t := Step(Intended, s, chunk);
    if t.out != [] {
      assert t.out == [t.out[0]];
      assert Flatten(t.out) == Frame(t.out[0]) + Flatten([]);
    }
  }

  lemma Rebalance(a: seq<byte>, c: seq<byte>, d: seq<byte>, f: seq<byte>, b: seq<byte>,
                  g: seq<byte>, e: seq<byte>)
    requires a + c == f + b && b + d == g + e
    ensures a + (c + d) == (f + g) + e
  {
    calc {
      a + (c + d);
      (a + c) + d;
      (f + b) + d;
      f + (b + d);
      f + (g + e);
      (f + g) + e;
    }
  }

  /** Conservation, as intended: the bytes held before a pass followed by the
      bytes it read are exactly the frames of the messages it completed
      followed by the bytes it now holds. Nothing is lost or duplicated. */
  lemma {:induction false} Conservation(s: RecvState, outs: seq<ReadOutcome>)
    requires Sound(s)
    ensures var p := ReadMessages(Intended, s, outs);
      Pending(s) + p.consumed == Flatten(p.emitted) + Pending(p.state)
    decreases |outs|
  {
    var r := ReadMessages(Intended, s, outs);
    if outs != [] && Clip(outs[0], Need(s)).Data? {
      var chunk := Clip(outs[0], Need(s)).bytes;
      var t := Step(Intended, s, chunk);
      var p := ReadMessages(Intended, t.state, outs[1..]);
      assert r.emitted == t.out + p.emitted && r.consumed == chunk + p.consumed && r.state == p.state;
      Conservation(t.state, outs[1..]);
      FlattenAppend(t.out, p.emitted);
      StepConserves(s, chunk);
      Rebalance(Pending(s), chunk, p.consumed, Flatten(t.out), Pending(t.state),
                Flatten(p.emitted), Pending(p.state));
    } else {
      assert r.emitted == [] && r.consumed == [] && r.state == s;
      assert Pending(s) + [] == [] + Pending(s);
    }
  }

  /** Frames are self-delimiting: a frame followed by anything determines
      both the message and what follows it. */
  lemma FrameSplit(x: RawMessage, y: RawMessage, a: seq<byte>, b: seq<byte>)
    requires Frame(x) + a == Frame(y) + b
    ensures x == y && a == b
  {
    var fx, fy := Frame(x) + a, Frame(y) + b;
    FrameParts(x);
    FrameParts(y);
    assert fx[..2] == ToBE(x.id) && fy[..2] == ToBE(y.id);
    ToBEInjective(x.id, y.id);
    assert fx[2..4] == ToBE(|x.payload|) && fy[2..4] == ToBE(|y.payload|);
    ToBEInjective(|x.payload|, |y.payload|);
    var n := 4 + |x.payload|;
    assert x.payload == fx[4..n] && y.payload == fy[4..n];
    assert a == fx[n..] && b == fy[n..];
  }

  /** Different message sequences never travel as the same bytes. */
  lemma {:induction false} FlattenInjective(a: seq<RawMessage>, b: seq<RawMessage>)
    requires Flatten(a) == Flatten(b)
    ensures a == b
  {
    if a != [] && b != [] {
      FrameSplit(a[0], b[0], Flatten(a[1..]), Flatten(b[1..]));
      FlattenInjective(a[1..], b[1..]);
    }
  }

  /** A sound state that holds a whole frame is one waiting for the zero-byte
      read of an empty payload, and holds nothing more. */
  lemma PendingFrame(s: RecvState, m: RawMessage, rest: seq<byte>)
    requires Sound(s) && Pending(s) == Frame(m) + rest
    ensures s == ReadingMessage(m.id, 0, []) && m.payload == [] && rest == []
  {
    match s
    case ReadingId(held) =>
      assert false;
    case ReadingLength(_, held) =>
      assert false;
    case ReadingMessage(id, length, buffer) =>
      FrameSplit(RawMessage(id, buffer[..length]), m, buffer[length..], rest) by {
        assert Pending(s)[2..4] == ToBE(length) && Pending(s)[2..4] == ToBE(|m.payload|);
        ToBEInjective(length, |m.payload|);
        assert Pending(s) == Frame(RawMessage(id, buffer[..length])) + buffer[length..];
      }
  }

  /** If the messages `a` and then the bytes a sound state holds make up the
      frames of `b`, then either `a` is all of `b` and the state holds
      nothing, or `b` has one more message, with an empty payload, whose id
      and zero length the state has already read. */
  lemma {:induction false} Settle(a: seq<RawMessage>, b: seq<RawMessage>, s: RecvState)
    requires Sound(s) && Flatten(a) + Pending(s) == Flatten(b)
    ensures || (a == b && s == ReadingId([]))
            || (|b| == |a| + 1 && b[..|a|] == a && b[|a|].payload == []
                && s == ReadingMessage(b[|a|].id, 0, []))
  {
    if a == [] {
      if b == [] {
        assert Pending(s) == [];
      } else {
        PendingFrame(s, b[0], Flatten(b[1..]));
        FlattenInjective(b[1..], []);
        assert b == [b[0]];
      }
    } else {
      PeelFrame(a, b, Pending(s));
      Settle(a[1..], b[1..], s);
      assert a == [a[0]] + a[1..] && b == [b[0]] + b[1..];
      if |b| == |a| + 1 {
        assert b[..|a|] == [b[0]] + b[1..][..|a| - 1];
      }
    }
  }

  /** The frames of a non-empty sequence, then more bytes, are its first
      frame followed by the rest. */
  lemma FlattenHead(a: seq<RawMessage>, tail: seq<byte>)
    requires a != []
    ensures Flatten(a) + tail == Frame(a[0]) + (Flatten(a[1..]) + tail)
  {
    assert Flatten(a) == Frame(a[0]) + Flatten(a[1..]);
  }

  /** Bytes that start with a frame carry at least one message. */
  lemma FlattenNonEmpty(a: seq<RawMessage>, b: seq<RawMessage>, tail: seq<byte>)
    requires a != [] && Flatten(a) + tail == Flatten(b)
    ensures b != []
  {
    assert |Flatten(a)| >= 4 by { assert Flatten(a) == Frame(a[0]) + Flatten(a[1..]); }
  }

  /** Bytes that start with the frames of a non-empty `a` and make up the
      frames of `b` start with the same first message. */
  lemma PeelFrame(a: seq<RawMessage>, b: seq<RawMessage>, tail: seq<byte>)
    requires a != [] && Flatten(a) + tail == Flatten(b)
    ensures b != [] && a[0] == b[0] && Flatten(a[1..]) + tail == Flatten(b[1..])
  {
    FlattenNonEmpty(a, b, tail);
    FlattenHead(a, tail);
    FlattenHead(b, []);
    FrameSplit(a[0], b[0], Flatten(a[1..]) + tail, Flatten(b[1..]) + []);
  }

  /** Round trip, as intended: whatever the chunking of the reads, a fresh
      stream that has read exactly the frames of `msgs` has completed all of
      them, in order, and is back to reading an id, except that a last
      message with an empty payload is still waiting for its zero-byte read. */
  lemma RoundTrip(outs: seq<ReadOutcome>, msgs: seq<RawMessage>)
    requires ReadMessages(Intended, ReadingId([]), outs).consumed == Flatten(msgs)
    ensures var p := ReadMessages(Intended, ReadingId([]), outs);
      || (p.emitted == msgs && p.state == ReadingId([]))
      || (|msgs| == |p.emitted| + 1 && msgs[..|p.emitted|] == p.emitted
          && msgs[|p.emitted|].payload == [] && p.state == ReadingMessage(msgs[|p.emitted|].id, 0, []))
  {
    var p := ReadMessages(Intended, ReadingId([]), outs);
    Conservation(ReadingId([]), outs);
    Settle(p.emitted, msgs, p.state);
  }

  /** The reads a sender's frames meet when each read delivers exactly what
      is asked for: the id, the length, then the payload. */
  function Script(msgs: seq<RawMessage>): (outs: seq<ReadOutcome>)
    ensures |outs| == 3 * |msgs|
  {
    if msgs == [] then []
    else [Data(ToBE(msgs[0].id)), Data(ToBE(|msgs[0].payload|)), Data(msgs[0].payload)] + Script(msgs[1..])
  }

  /** The state a stream is in right after it completed `m`. */
  function AfterMessage(rev: Revision, m: RawMessage): RecvState
  {
    if rev == AsWritten then ReadingMessage(m.id, |m.payload|, []) else ReadingId([])
  }

  /** One frame read whole, in either revision, completes exactly that
      message; what happens next depends on the revision. */
  lemma {:induction false} OneFrame(rev: Revision, m: RawMessage, rest: seq<ReadOutcome>)
    ensures Sound(AfterMessage(rev, m))
    ensures var outs := [Data(ToBE(m.id)), Data(ToBE(|m.payload|)), Data(m.payload)] + rest;
      var p := ReadMessages(rev, ReadingId([]), outs);
      var q := ReadMessages(rev, AfterMessage(rev, m), rest);
      p == q.(emitted := [m] + q.emitted, consumed := Frame(m) + q.consumed)
  {
    var s1 := ReadingLength(m.id, []);
    var s2 := ReadingMessage(m.id, |m.payload|, []);
    FrameSteps(rev, m);
    var tail2 := [Data(m.payload)] + rest;
    var tail1 := [Data(ToBE(|m.payload|))] + tail2;
    assert [Data(ToBE(m.id)), Data(ToBE(|m.payload|)), Data(m.payload)] + rest == [Data(ToBE(m.id))] + tail1;
    DataRead(rev, s2, m.payload, rest);
    DataRead(rev, s1, ToBE(|m.payload|), tail2);
    DataRead(rev, ReadingId([]), ToBE(m.id), tail1);
    var q := ReadMessages(rev, AfterMessage(rev, m), rest);
    assert [] + ([m] + q.emitted) == [m] + q.emitted;
    FrameThen(m, q.consumed);
  }

  /** The id, the length and the payload, followed by more bytes, are the
      frame followed by those bytes. */
  lemma FrameThen(m: RawMessage, more: seq<byte>)
    ensures ToBE(m.id) + (ToBE(|m.payload|) + (m.payload + more)) == Frame(m) + more
  {
    calc {
      ToBE(m.id) + (ToBE(|m.payload|) + (m.payload + more));
      (ToBE(m.id) + ToBE(|m.payload|) + m.payload) + more;
    }
  }

  /** A read that delivers `chunk` steps the state and the loop goes on. */
  lemma DataRead(rev: Revision, s: RecvState, chunk: seq<byte>, rest: seq<ReadOutcome>)
    requires Sound(s) && |chunk| <= Need(s)
    ensures var t := Step(rev, s, chunk);
      var q := ReadMessages(rev, t.state, rest);
      ReadMessages(rev, s, [Data(chunk)] + rest) == q.(emitted := t.out + q.emitted, consumed := chunk + q.consumed)
  {
    assert ([Data(chunk)] + rest)[1..] == rest;
  }

  /** The three steps that read one frame whole. */
  lemma FrameSteps(rev: Revision, m: RawMessage)
    ensures Step(rev, ReadingId([]), ToBE(m.id)) == Stepped(ReadingLength(m.id, []), [])
    ensures Step(rev, ReadingLength(m.id, []), ToBE(|m.payload|))
         == Stepped(ReadingMessage(m.id, |m.payload|, []), [])
    ensures Step(rev, ReadingMessage(m.id, |m.payload|, []), m.payload) == Stepped(AfterMessage(rev, m), [m])
  {
    assert Assemble(ToBE(m.id)) == Some(m.id) by { FromToBE(m.id); }
    assert Assemble(ToBE(|m.payload|)) == Some(|m.payload|) by { FromToBE(|m.payload|); }
    assert [] + ToBE(m.id) == ToBE(m.id) && [] + ToBE(|m.payload|) == ToBE(|m.payload|);
    assert [] + m.payload == m.payload;
  }

  /** Round trip, as intended, with each read delivering what it asks for:
      the frames of any message sequence decode to exactly that sequence. */
  lemma {:induction false} ScriptRoundTrip(msgs: seq<RawMessage>)
    ensures var p := ReadMessages(Intended, ReadingId([]), Script(msgs));
      p.emitted == msgs && p.consumed == Flatten(msgs) && p.state == ReadingId([])
      && !p.finished && !p.fatal
  {
    if msgs != [] {
      OneFrame(Intended, msgs[0], Script(msgs[1..]));
      ScriptRoundTrip(msgs[1..]);
      assert msgs == [msgs[0]] + msgs[1..];
    }
  }

  /** In either revision, a single frame read whole yields exactly one
      message, the one that was sent. */
  lemma SingleFrame(rev: Revision, m: RawMessage)
    ensures var p := ReadMessages(rev, ReadingId([]), Script([m]));
      p.emitted == [m] && p.consumed == Frame(m)
  {
    OneFrame(rev, m, []);
    assert Script([m]) == [Data(ToBE(m.id)), Data(ToBE(|m.payload|)), Data(m.payload)] + [];
  }

  /** As written, a stream that has reached the payload phase never leaves
      it: every later message gets the same id and the same length. */
  lemma {:induction false} AsWrittenSticky(s: RecvState, outs: seq<ReadOutcome>)
    requires Sound(s) && s.ReadingMessage?
    ensures var p := ReadMessages(AsWritten, s, outs);
      && p.state.ReadingMessage? && p.state.id == s.id && p.state.length == s.length
      && forall m | m in p.emitted :: m.id == s.id && |m.payload| == s.length
    decreases |outs|
  {
    if outs != [] && Clip(outs[0], Need(s)).Data? {
      var t := Step(AsWritten, s, Clip(outs[0], Need(s)).bytes);
      AsWrittenSticky(t.state, outs[1..]);
    }
  }

  /** The payloads of `ms`, one after another, without their ids and lengths. */
  function Payloads(ms: seq<RawMessage>): (bytes: seq<byte>)
  {
    if ms == [] then [] else ms[0].payload + Payloads(ms[1..])
  }

  /** The two revisions read alike until a message completes, and that first
      message is the same in both. */
  lemma {:induction false} RevisionsAgree(s: RecvState, outs: seq<ReadOutcome>)
    requires Sound(s)
    ensures var pa, pi := ReadMessages(AsWritten, s, outs), ReadMessages(Intended, s, outs);
      && (pi.emitted == [] ==> pa == pi)
      && (pi.emitted != [] ==> pa.emitted != [] && pa.emitted[0] == pi.emitted[0])
    decreases |outs|
  {
    if outs != [] && Clip(outs[0], Need(s)).Data? {
      var chunk := Clip(outs[0], Need(s)).bytes;
      var ta, ti := Step(AsWritten, s, chunk), Step(Intended, s, chunk);
      if ta.out == [] {
        RevisionsAgree(ta.state, outs[1..]);
      }
    }
  }

  lemma PayloadsAppend(a: seq<RawMessage>, b: seq<RawMessage>)
    ensures Payloads(a + b) == Payloads(a) + Payloads(b)
  {
    if a != [] {
      assert (a + b)[0] == a[0] && (a + b)[1..] == a[1..] + b;
      PayloadsAppend(a[1..], b);
    } else {
      assert a + b == b;
    }
  }

  /** One read in the payload phase, as written: the bytes held and the
      chunk are the payload completed, if any, followed by the bytes now
      held, and the phase does not change. */
  lemma StickyStep(s: RecvState, chunk: seq<byte>)
    requires Sound(s) && s.ReadingMessage? && |chunk| <= Need(s)
    ensures var t := Step(AsWritten, s, chunk);
      t.state.ReadingMessage? && s.buffer + chunk == Payloads(t.out) + t.state.buffer
  {
    var t := Step(AsWritten, s, chunk);
    if t.out != [] {
      assert t.out == [t.out[0]];
      assert Payloads(t.out) == t.out[0].payload + Payloads([]);
    }
  }

  /** As written, a stream in the payload phase reads nothing but payloads:
      the bytes it holds and the bytes it reads are the payloads it completes
      followed by the bytes it then holds. */
  lemma {:induction false} AsWrittenStickyBytes(s: RecvState, outs: seq<ReadOutcome>)
    requires Sound(s) && s.ReadingMessage?
    ensures var p := ReadMessages(AsWritten, s, outs);
      p.state.ReadingMessage? && s.buffer + p.consumed == Payloads(p.emitted) + p.state.buffer
    decreases |outs|
  {
    var r := ReadMessages(AsWritten, s, outs);
    if outs != [] && Clip(outs[0], Need(s)).Data? {
      var chunk := Clip(outs[0], Need(s)).bytes;
      var t := Step(AsWritten, s, chunk);
      StickyStep(s, chunk);
      var p := ReadMessages(AsWritten, t.state, outs[1..]);
      assert r.emitted == t.out + p.emitted && r.consumed == chunk + p.consumed && r.state == p.state;
      AsWrittenStickyBytes(t.state, outs[1..]);
      PayloadsAppend(t.out, p.emitted);
      Rebalance(s.buffer, chunk, p.consumed, Payloads(t.out), t.state.buffer,
                Payloads(p.emitted), p.state.buffer);
    } else {
      assert r.emitted == [] && r.consumed == [] && r.state == s;
      assert s.buffer + [] == [] + s.buffer;
    }
  }

  /** The read that completes a message: the bytes held and the chunk are
      exactly that message's frame. */
  lemma CompletionFrame(rev: Revision, s: RecvState, chunk: seq<byte>)
    requires Sound(s) && |chunk| <= Need(s) && Step(rev, s, chunk).out != []
    ensures Pending(s) + chunk == Frame(Step(rev, s, chunk).out[0])
  {
    var m := Step(rev, s, chunk).out[0];
    assert s.ReadingMessage? && s.length == |m.payload| && m.payload == s.buffer + chunk;
    assert Pending(s) == ToBE(m.id) + ToBE(|m.payload|) + s.buffer;
  }

  /** As written, after a first message `m` completes: the bytes that made
      up its frame and everything read afterwards are that frame, then only
      payloads, then the bytes held. */
  lemma FirstCompletion(framed: seq<byte>, chunk: seq<byte>, m: RawMessage, rest: seq<ReadOutcome>)
    requires framed + chunk == Frame(m)
    ensures var q := ReadMessages(AsWritten, ReadingMessage(m.id, |m.payload|, []), rest);
      && q.state.ReadingMessage?
      && framed + (chunk + q.consumed) == Frame(m) + Payloads(q.emitted) + q.state.buffer
  {
    var u := ReadingMessage(m.id, |m.payload|, []);
    var q := ReadMessages(AsWritten, u, rest);
    AsWrittenStickyBytes(u, rest);
    assert framed + chunk == Frame(m) + [] && [] + q.consumed == Payloads(q.emitted) + q.state.buffer;
    Rebalance(framed, chunk, q.consumed, Frame(m), [], Payloads(q.emitted), q.state.buffer);
  }

  /** As written, once a message completes, the bytes held and read are its
      frame, then only the payloads of the later messages, all as long as
      the first one's, then the bytes held: no later id or length is read. */
  lemma {:induction false} AsWrittenBytes(s: RecvState, outs: seq<ReadOutcome>)
    requires Sound(s)
    ensures var p := ReadMessages(AsWritten, s, outs);
      p.emitted != [] ==>
        && p.state.ReadingMessage?
        && Pending(s) + p.consumed == Frame(p.emitted[0]) + Payloads(p.emitted[1..]) + p.state.buffer
        && forall m | m in p.emitted[1..] :: |m.payload| == |p.emitted[0].payload|
    decreases |outs|
  {
    var r := ReadMessages(AsWritten, s, outs);
    if outs != [] && Clip(outs[0], Need(s)).Data? {
      var chunk := Clip(outs[0], Need(s)).bytes;
      var t := Step(AsWritten, s, chunk);
      var p := ReadMessages(AsWritten, t.state, outs[1..]);
      assert r.emitted == t.out + p.emitted && r.consumed == chunk + p.consumed && r.state == p.state;
      if t.out == [] {
        assert r.emitted == p.emitted;
        AsWrittenBytes(t.state, outs[1..]);
        if p.emitted != [] {
          Rebalance(Pending(s), chunk, p.consumed, [], Pending(t.state),
                    Frame(p.emitted[0]) + Payloads(p.emitted[1..]), p.state.buffer);
          assert [] + (Frame(p.emitted[0]) + Payloads(p.emitted[1..])) == Frame(p.emitted[0]) + Payloads(p.emitted[1..]);
        }
      } else {
        CompletionFrame(AsWritten, s, chunk);
        FirstCompletion(Pending(s), chunk, t.out[0], outs[1..]);
        AsWrittenSticky(t.state, outs[1..]);
        assert r.emitted[0] == t.out[0] && r.emitted[1..] == p.emitted;
      }
    }
  }

  /** As written, one frame with a non-empty payload, read in any chunking
      that respects the requests, yields exactly that message. */
  lemma AsWrittenSingleFrame(m: RawMessage, outs: seq<ReadOutcome>)
    requires |m.payload| > 0
    requires ReadMessages(AsWritten, ReadingId([]), outs).consumed == Frame(m)
    ensures ReadMessages(AsWritten, ReadingId([]), outs).emitted == [m]
  {
    var p := ReadMessages(AsWritten, ReadingId([]), outs);
    FrameCompletes(m, outs);
    AsWrittenBytes(ReadingId([]), outs);
    assert Pending(ReadingId([])) + p.consumed == Frame(m);
    OnlyFrame(m, p.emitted, p.state.buffer);
  }

  /** A frame with a non-empty payload is not the frame of a first message
      followed by further payloads of that message's length and more bytes,
      unless it is exactly that first message's frame. */
  lemma OnlyFrame(m: RawMessage, ms: seq<RawMessage>, held: seq<byte>)
    requires |m.payload| > 0 && ms != []
    requires Frame(m) == Frame(ms[0]) + Payloads(ms[1..]) + held
    requires forall e | e in ms[1..] :: |e.payload| == |ms[0].payload|
    ensures ms == [m]
  {
    var rest := ms[1..];
    assert Frame(m) + [] == Frame(ms[0]) + (Payloads(rest) + held);
    FrameSplit(m, ms[0], [], Payloads(rest) + held);
    assert ms == [ms[0]] + rest;
  }

  /** As written, a fresh stream that has read one frame with a non-empty
      payload has completed a message. */
  lemma FrameCompletes(m: RawMessage, outs: seq<ReadOutcome>)
    requires |m.payload| > 0
    requires ReadMessages(AsWritten, ReadingId([]), outs).consumed == Frame(m)
    ensures ReadMessages(AsWritten, ReadingId([]), outs).emitted != []
  {
    var p := ReadMessages(AsWritten, ReadingId([]), outs);
    var pi := ReadMessages(Intended, ReadingId([]), outs);
    RevisionsAgree(ReadingId([]), outs);
    if pi.emitted == [] {
      Conservation(ReadingId([]), outs);
      assert pi == p && Pending(ReadingId([])) == [] && Flatten(pi.emitted) == [];
      assert [] + Frame(m) == Flatten([]) + Pending(pi.state);
      assert Flatten([]) == [] && [] + Frame(m) == Frame(m) + [];
      PendingFrame(pi.state, m, []);
    }
  }

  function EmptyFrameReads(): seq<ReadOutcome> { [Data([0, 0]), Data([0, 0]), Data([]), Data([]), Data([])] }

  /** As written, zero-byte reads in the payload phase of an empty payload
      each complete that message again. */
  lemma EmptyPayloadEchoes()
    ensures var s, m := ReadingMessage(0, 0, []), RawMessage(0, []);
      ReadMessages(AsWritten, s, [Data([]), Data([]), Data([])]) == MsgPass(s, [m, m, m], [], false, false, [])
  {
    var s, m := ReadingMessage(0, 0, []), RawMessage(0, []);
    FrameSteps(AsWritten, m);
    var t3 := [Data([])] + [];
    var t2 := [Data([])] + t3;
    assert [Data([]), Data([]), Data([])] == [Data([])] + t2;
    DataRead(AsWritten, s, [], []);
    assert ReadMessages(AsWritten, s, t3) == MsgPass(s, [m], [], false, false, []);
    DataRead(AsWritten, s, [], t3);
    assert ReadMessages(AsWritten, s, t2) == MsgPass(s, [m, m], [], false, false, []);
    DataRead(AsWritten, s, [], t2);
  }

  /** The id and the length of the frame of `RawMessage(0, [])`, read in two
      chunks, leave a stream in the payload phase with nothing completed. */
  lemma EmptyFrameHeader(rev: Revision, rest: seq<ReadOutcome>)
    ensures var q := ReadMessages(rev, ReadingMessage(0, 0, []), rest);
      ReadMessages(rev, ReadingId([]), [Data([0, 0]), Data([0, 0])] + rest) == q.(consumed := [0, 0, 0, 0] + q.consumed)
  {
    var m := RawMessage(0, []);
    FrameSteps(rev, m);
    assert ToBE(0) == [0, 0];
    var t1 := [Data([0, 0])] + rest;
    assert [Data([0, 0]), Data([0, 0])] + rest == [Data([0, 0])] + t1;
    DataRead(rev, ReadingLength(0, []), [0, 0], rest);
    DataRead(rev, ReadingId([]), [0, 0], t1);
  }

  /** As written, a frame with an empty payload is completed again by every
      later zero-byte read; as intended it is completed once, and the stream
      then waits for the next id. */
  lemma AsWrittenRepeatsEmpty()
    ensures var m := RawMessage(0, []);
      && ReadMessages(AsWritten, ReadingId([]), EmptyFrameReads()).consumed == Frame(m)
      && ReadMessages(AsWritten, ReadingId([]), EmptyFrameReads()).emitted == [m, m, m]
      && ReadMessages(Intended, ReadingId([]), EmptyFrameReads()).emitted == [m]
  {
    var zeros := [Data([]), Data([]), Data([])];
    assert EmptyFrameReads() == [Data([0, 0]), Data([0, 0])] + zeros;
    assert Frame(RawMessage(0, [])) == [0, 0, 0, 0] + [] by { assert ToBE(0) == [0, 0]; }
    EmptyFrameHeader(AsWritten, zeros);
    EmptyPayloadEchoes();
    EmptyFrameHeader(Intended, zeros);
    EmptyPayloadOnce();
  }

  /** As intended, zero-byte reads after an empty payload complete it once;
      the stream then waits for an id, and zero bytes of one change nothing. */
  lemma EmptyPayloadOnce()
    ensures ReadMessages(Intended, ReadingMessage(0, 0, []), [Data([]), Data([]), Data([])]).emitted
         == [RawMessage(0, [])]
  {
    var i := ReadingId([]);
    FrameSteps(Intended, RawMessage(0, []));
    var t3 := [Data([])] + [];
    var t2 := [Data([])] + t3;
    assert [Data([]), Data([]), Data([])] == [Data([])] + t2;
    DataRead(Intended, i, [], []);
    DataRead(Intended, i, [], t3);
    assert ReadMessages(Intended, i, t2).emitted == [];
    DataRead(Intended, ReadingMessage(0, 0, []), [], t2);
  }

  /** As written, a stream in the payload phase for one-byte payloads takes
      each one-byte read as a complete message of the same id. */
  lemma AsWrittenOneByte(id: u16, x: byte, rest: seq<ReadOutcome>)
    ensures var s := ReadingMessage(id, 1, []);
      var p := ReadMessages(AsWritten, s, [Data([x])] + rest);
      var q := ReadMessages(AsWritten, s, rest);
      p == q.(emitted := [RawMessage(id, [x])] + q.emitted, consumed := [x] + q.consumed)
  {
    var s := ReadingMessage(id, 1, []);
    assert [] + [x] == [x];
    assert Step(AsWritten, s, [x]) == Stepped(s, [RawMessage(id, [x])]);
    DataRead(AsWritten, s, [x], rest);
  }

  /** The two messages of the as-written counterexample and the reads that
      carry them: the first frame read whole, the second byte by byte. */
  function FirstOfTwo(): RawMessage { RawMessage(0, [7]) }
  function SecondOfTwo(): RawMessage { RawMessage(1, [8]) }
  function SecondByteByByte(): seq<ReadOutcome> { [Data([0]), Data([1]), Data([0]), Data([1]), Data([8])] }

  /** The bytes of the two frames of the counterexample. */
  lemma TwoFrames()
    ensures Flatten([FirstOfTwo(), SecondOfTwo()]) == Frame(FirstOfTwo()) + [0, 1, 0, 1, 8]
  {
    var m0, m1 := FirstOfTwo(), SecondOfTwo();
    assert ToBE(1) == [0, 1];
    assert Frame(m1) == [0, 1, 0, 1, 8];
    assert Flatten([m1]) == Frame(m1) + Flatten([]);
    assert [m0, m1][1..] == [m1];
  }

  /** As written, after the first message the five one-byte reads are five
      one-byte messages of id 0. */
  lemma AsWrittenTail()
    ensures var q := ReadMessages(AsWritten, ReadingMessage(0, 1, []), SecondByteByByte());
      && q.consumed == [0, 1, 0, 1, 8]
      && q.emitted == [RawMessage(0, [0]), RawMessage(0, [1]), RawMessage(0, [0]), RawMessage(0, [1]),
                       RawMessage(0, [8])]
  {
    var s := ReadingMessage(0, 1, []);
    var t4 := [Data([8])] + [];
    var t3 := [Data([1])] + t4;
    var t2 := [Data([0])] + t3;
    var t1 := [Data([1])] + t2;
    assert SecondByteByByte() == [Data([0])] + t1;
    AsWrittenOneByte(0, 8, []);
    AsWrittenOneByte(0, 1, t4);
    AsWrittenOneByte(0, 0, t3);
    AsWrittenOneByte(0, 1, t2);
    AsWrittenOneByte(0, 0, t1);
  }

  /** As written, two frames read back to back come out wrong: the second
      frame's id, length and payload are each taken as a further payload of
      the first message's id, so the same bytes yield six messages instead
      of the two that were sent. */
  lemma AsWrittenMisreadsSecondFrame()
    ensures var outs := Script([FirstOfTwo()]) + SecondByteByByte();
      var p := ReadMessages(AsWritten, ReadingId([]), outs);
      && p.consumed == Flatten([FirstOfTwo(), SecondOfTwo()])
      && p.emitted == [FirstOfTwo(), RawMessage(0, [0]), RawMessage(0, [1]), RawMessage(0, [0]),
                       RawMessage(0, [1]), RawMessage(0, [8])]
  {
    var m0 := FirstOfTwo();
    var tail := SecondByteByByte();
    OneFrame(AsWritten, m0, tail);
    assert Script([m0]) + tail == [Data(ToBE(m0.id)), Data(ToBE(|m0.payload|)), Data(m0.payload)] + tail;
    AsWrittenTail();
    TwoFrames();
  }

  /** As intended, the same reads complete the two messages that were sent. */
  lemma IntendedReadsSecondFrame()
    ensures var outs := Script([FirstOfTwo()]) + SecondByteByByte();
      ReadMessages(Intended, ReadingId([]), outs).emitted == [FirstOfTwo(), SecondOfTwo()]
  {
    var m0, m1 := FirstOfTwo(), SecondOfTwo();
    var tail := SecondByteByByte();
    OneFrame(Intended, m0, tail);
    assert Script([m0]) + tail == [Data(ToBE(m0.id)), Data(ToBE(|m0.payload|)), Data(m0.payload)] + tail;
    IntendedSecondFrame();
  }

  /** As intended, the five one-byte reads after the first message are the
      second frame. */
  lemma IntendedSecondFrame()
    ensures ReadMessages(Intended, ReadingId([]), SecondByteByByte()).emitted == [SecondOfTwo()]
  {
    var t4 := [Data([8])] + [];
    var t3 := [Data([1])] + t4;
    var t2 := [Data([0])] + t3;
    var t1 := [Data([1])] + t2;
    assert SecondByteByByte() == [Data([0])] + t1;
    IntendedSecondFrameLength();
    assert [] + [0] == [0];
    DataRead(Intended, ReadingId([0]), [1], t2);
    DataRead(Intended, ReadingId([]), [0], t1);
  }

  /** As intended, once the id 1 is read, the reads of the length 1 and the
      payload [8] complete the message. */
  lemma IntendedSecondFrameLength()
    ensures var t2 := [Data([0]), Data([1]), Data([8])];
      && Assemble([0, 1]) == Some(1)
      && ReadMessages(Intended, ReadingLength(1, []), t2).emitted == [SecondOfTwo()]
  {
    var t4 := [Data([8])] + [];
    var t3 := [Data([1])] + t4;
    assert [Data([0]), Data([1]), Data([8])] == [Data([0])] + t3;
    assert ToBE(1) == [0] + [1] && [] + [0] == [0] && [] + [8] == [8];
    DataRead(Intended, ReadingMessage(1, 1, []), [8], []);
    DataRead(Intended, ReadingLength(1, [0]), [1], t4);
    DataRead(Intended, ReadingLength(1, []), [0], t3);
  }
}
