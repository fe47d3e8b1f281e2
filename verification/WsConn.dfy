/**
 A WebSocket connection over a byte stream: frames, reassembly and per-message deflate joined,
 and the proof that whatever one end writes the other end reads.
 */
module WsConn {
  import opened Bytes
  import opened WsFrame
  import Reasm = WsReassemble
  import opened WsDeflate

  const OP_TEXT: byte := 1
  const OP_BINARY: byte := 2

  datatype ExtParams = ExtParams(negotiated: bool, serverNoContext: bool, clientNoContext: bool)

  datatype Message = Message(opcode: byte, payload: seq<byte>)

  /** The sending half of a connection. */
  datatype Sender = Sender(isClient: bool, closed: bool, deflater: Option<Context>)

  /** The receiving half. */
  datatype Receiver = Receiver(isClient: bool, reasm: Reasm.State, inflater: Option<Context>)

  function NoContextForReader(isClient: bool, ext: ExtParams): bool {
    if isClient then ext.serverNoContext else ext.clientNoContext
  }

  function NoContextForWriter(isClient: bool, ext: ExtParams): bool {
    if isClient then ext.clientNoContext else ext.serverNoContext
  }

  function NewSender(isClient: bool, ext: ExtParams): Sender {
    Sender(isClient, false, if ext.negotiated then Some(Context(NoContextForWriter(isClient, ext), [])) else None)
  }

  function NewReceiver(isClient: bool, ext: ExtParams): Receiver {
    Receiver(isClient, Reasm.CLOSED,
             if ext.negotiated then Some(Context(NoContextForReader(isClient, ext), [])) else None)
  }

  // ----- writing -----

  predicate Compresses(s: Sender, op: byte, p: Plain) {
    s.deflater.Some? && (op == OP_TEXT || op == OP_BINARY) && |p| > 0
  }

  /** The payload that goes into the frame, and the sender behind it. */
  function Pack(f: Flate, s: Sender, op: byte, p: Plain): (Sender, Slice) {
    if Compresses(s, op, p) then
      var (c, z) := DeflateSpec(f, s.deflater.value, p);
      (s.(deflater := Some(c)), z)
    else (s, p)
  }

  function MessageHeader(s: Sender, op: byte, compressed: bool, key: Key, len: u64): Header {
    Header(true, compressed, false, false, op, s.isClient, if s.isClient then key else ZERO_KEY, len)
  }

  /** `key` is what the random source gives, None when it fails; only a client asks for it. */
  function WriteSpec(f: Flate, s: Sender, op: byte, p: Plain, key: Option<Key>): (Sender, Result<seq<byte>, WsError>) {
    if s.closed then (s, Err(ConnClosed))
    else if s.isClient && key.None? then (s, Err(RandomFailed))
    else
      var k := if key.Some? then key.value else ZERO_KEY;
      var (s1, z) := Pack(f, s, op, p);
      (s1, Ok(FrameBytes(MessageHeader(s, op, Compresses(s, op, p), k, |z|), z)))
  }

  // ----- reading -----

  /** What a receiver makes of one frame: a finished message, nothing yet, or an error. */
  datatype Verdict = Deliver(msg: Message) | Continue | Fail(error: WsError)

  function Accept(f: Flate, r: Receiver, frame: Frame): (Receiver, Verdict) {
    var h := frame.hdr;
    if r.isClient && h.masked then (r, Fail(MaskedFromServer))
    else if !r.isClient && !h.masked && !IsControl(h.opcode) && h.length > 0 then (r, Fail(UnmaskedFromClient))
    else
      var (reasm, out) := Reasm.StepSpec(r.reasm, h, frame.payload);
      var r1 := r.(reasm := reasm);
      match out
      case Failed(e) => (r1, Fail(e))
      case More => (r1, Continue)
      case Ready(m) =>
        if !m.control && m.compressed && r.inflater.Some? then
          var (c, data) := InflateSpec(f, r.inflater.value, m.payload);
          (r1.(inflater := Some(c)), if data.Ok? then Deliver(Message(m.opcode, data.value)) else Fail(data.error))
        else (r1, Deliver(Message(m.opcode, m.payload)))
  }

  function ReadSpec(f: Flate, r: Receiver, b: seq<byte>): (Receiver, Read<Message>)
    decreases |b|
  {
    match ParseFrame(b)
    case Lost(e, rest) => (r, Lost(e, rest))
    case Got(frame, rest) =>
      var (r1, v) := Accept(f, r, frame);
      match v
      case Fail(e) => (r1, Lost(e, rest))
      case Deliver(m) => (r1, Got(m, rest))
      case Continue => ReadSpec(f, r1, rest)
  }

  // ----- the connection object -----

  predicate ValidHistory(c: Option<Context>) {
    c.Some? ==> ValidContext(c.value)
  }

  class Conn {
    const flate: Flate
    const isClient: bool
    const br: ByteReader
    const rwc: Wire
    const reasm: Reasm.Reassembler
    const inflater: Inflater?
    const deflater: Deflater?
    var closed: bool

    ghost predicate Valid()
      reads this, inflater, deflater
    {
      && (inflater != null ==> inflater.flate == flate && ValidContext(inflater.Value()))
      && (deflater != null ==> deflater.flate == flate && ValidContext(deflater.Value()))
    }

    ghost function SenderValue(): Sender
      reads this, deflater
    {
      Sender(isClient, closed, if deflater == null then None else Some(deflater.Value()))
    }

    ghost function ReceiverValue(): Receiver
      reads this, reasm, inflater
    {
      Receiver(isClient, reasm.Value(), if inflater == null then None else Some(inflater.Value()))
    }

    constructor (flate: Flate, incoming: ByteReader, isClient: bool, ext: ExtParams)
      ensures Valid() && br == incoming && this.flate == flate && rwc.bytes == []
      ensures SenderValue() == NewSender(isClient, ext) && ReceiverValue() == NewReceiver(isClient, ext)
    {
      this.flate, this.isClient, br, closed := flate, isClient, incoming, false;
      rwc := new Wire();
      reasm := new Reasm.Reassembler();
      if ext.negotiated {
        inflater := new Inflater(flate, NoContextForReader(isClient, ext));
        deflater := new Deflater(flate, NoContextForWriter(isClient, ext));
      } else {
        inflater, deflater := null, null;
      }
    }

    method WriteMessage(op: byte, p: Plain, random: Option<Key>) returns (r: Result<(), WsError>)
      requires Valid()
      modifies rwc, deflater
      ensures Valid()
      ensures var (s, sent) := WriteSpec(flate, old(SenderValue()), op, p, random);
              && SenderValue() == s
              && rwc.bytes == old(rwc.bytes) + (if sent.Ok? then sent.value else [])
              && r == if sent.Ok? then Ok(()) else Err(sent.error)
    {
      hide FrameBytes, DeflateSpec;
      if closed {
        return Err(ConnClosed);
      }
      var key := ZERO_KEY;
      if isClient {
        if random.None? { return Err(RandomFailed); }
        key := random.value;
      }
      var payload: Slice := p;
      var compressed := false;
      if deflater != null && (op == OP_TEXT || op == OP_BINARY) && |p| > 0 {
        payload := deflater.Deflate(p);
        compressed := true;
      }
      WriteFrame(rwc, Header(true, compressed, false, false, op, isClient, key, |payload|), payload);
      return Ok(());
    }

    /** The mask checks, the reassembler and the inflater on one frame. */
    method AcceptFrame(frame: Frame) returns (v: Verdict)
      requires Valid()
      modifies reasm, inflater
      ensures Valid()
      ensures (ReceiverValue(), v) == Accept(flate, old(ReceiverValue()), frame)
    {
      hide InflateSpec;
      var hdr := frame.hdr;
      if isClient && hdr.masked { return Fail(MaskedFromServer); }
      if !isClient && !hdr.masked && !IsControl(hdr.opcode) && hdr.length > 0 { return Fail(UnmaskedFromClient); }
      var out := reasm.Step(hdr, frame.payload);
      match out
      case Failed(e) => return Fail(e);
      case More => return Continue;
      case Ready(m) =>
        if m.control { return Deliver(Message(m.opcode, m.payload)); }
        if m.compressed && inflater != null {
          var data := inflater.Inflate(m.payload);
          if data.Err? { return Fail(data.error); }
          return Deliver(Message(m.opcode, data.value));
        }
        return Deliver(Message(m.opcode, m.payload));
    }

    method ReadMessage() returns (m: Result<Message, WsError>)
      requires Valid()
      modifies br, reasm, inflater
      ensures Valid()
      ensures var (r, want) := ReadSpec(flate, old(ReceiverValue()), old(br.buf));
              ReceiverValue() == r && br.buf == want.rest && m == ToResult(want)
    {
      hide Accept, InflateSpec;
      ghost var goal := ReadSpec(flate, ReceiverValue(), br.buf);
      while true
        invariant Valid()
        invariant ReadSpec(flate, ReceiverValue(), br.buf) == goal
        decreases |br.buf|
      {
        var frame := ReadFrame(br);
        if frame.Err? { return Err(frame.error); }
        var v := AcceptFrame(frame.value);
        match v
        case Fail(e) => return Err(e);
        case Deliver(msg) => return Ok(msg);
        case Continue =>
      }
    }

    /** `fetched` is how many of the bytes not yet read had come in when the stream was closed. */
    method Close(fetched: nat)
      requires Valid()
      modifies this, br
      ensures Valid() && SenderValue() == old(SenderValue()).(closed := true)
      ensures ReceiverValue() == old(ReceiverValue())
      ensures br.buf == if old(closed) then old(br.buf) else First(old(br.buf), fetched)
    {
      if closed { return; }
      closed := true;
      br.Cut(fetched);
    }
  }

  /** Closing takes messages away and never makes up or changes one: a read from what is left is the read from the whole. */
  lemma {:induction false} CutChangesNoMessage(f: Flate, r: Receiver, b: seq<byte>, fetched: nat)
    requires ReadSpec(f, r, First(b, fetched)).1.Got?
    ensures var (r1, got) := ReadSpec(f, r, First(b, fetched));
            ReadSpec(f, r, b) == (r1, Got(got.value, got.rest + b[|First(b, fetched)|..]))
  {
    var front := First(b, fetched);
    assert b == front + b[|front|..];
    ReadExtends(f, r, front, b[|front|..]);
  }

  lemma {:induction false} ReadExtends(f: Flate, r: Receiver, b: seq<byte>, more: seq<byte>)
    requires ReadSpec(f, r, b).1.Got?
    ensures var (r1, got) := ReadSpec(f, r, b); ReadSpec(f, r, b + more) == (r1, Got(got.value, got.rest + more))
    decreases |b|
  {
    hide Accept, ParseFrame;
    FrameExtends(b, more);
    var frame := ParseFrame(b);
    var (r1, v) := Accept(f, r, frame.value);
    if v == Continue {
      ReadExtends(f, r1, frame.rest, more);
    }
  }

  // ----- one message across -----

  /** The sender of one end and the receiver of the other agree on every message so far. */
  predicate Lockstep(s: Sender, r: Receiver) {
    && !s.closed && s.isClient != r.isClient && r.reasm == Reasm.CLOSED
    && s.deflater == r.inflater && ValidHistory(s.deflater)
  }

  lemma NewPairInLockstep(isClient: bool, ext: ExtParams)
    ensures Lockstep(NewSender(isClient, ext), NewReceiver(!isClient, ext))
  {
  }

  /** What a caller must keep to: a real opcode, and sizes within the limits before and after packing. */
  predicate Deliverable(f: Flate, s: Sender, op: byte, p: Plain) {
    && 0 < op < 16
    && (IsControl(op) ==> |p| <= 125)
    && |p| <= MAX_MESSAGE_SIZE
    && |Pack(f, s, op, p).1| <= MAX_MESSAGE_SIZE
  }

  function SentHeader(s: Sender, op: byte, p: Plain, key: Option<Key>, len: u64): Header {
    MessageHeader(s, op, Compresses(s, op, p), if key.Some? then key.value else ZERO_KEY, len)
  }

  lemma PackKeepsContext(f: Flate, s: Sender, op: byte, p: Plain)
    requires ValidHistory(s.deflater)
    ensures var s1 := Pack(f, s, op, p).0;
            ValidHistory(s1.deflater) && s1 == s.(deflater := s1.deflater)
  {
  }

  /** Once the frame is parsed, the receiver undoes the packing and follows the sender's history. */
  lemma AcceptUndoesPack(f: Flate, s: Sender, r: Receiver, op: byte, p: Plain, key: Option<Key>)
    requires Lockstep(s, r) && 0 < op < 16 && |p| <= MAX_MESSAGE_SIZE
    ensures var (s1, z) := Pack(f, s, op, p);
            var frame := Frame(SeenHeader(SentHeader(s, op, p, key, |z|), z), z);
            Accept(f, r, frame) == (r.(inflater := s1.deflater), Deliver(Message(op, p)))
  {
    hide InflateSpec, DeflateSpec;
    if Compresses(s, op, p) {
      InflateUndoesDeflate(f, s.deflater.value, p);
    }
  }

  /** The frame of a message over the size limit before compression is refused by the inflater. */
  lemma AcceptRefusesLarge(f: Flate, s: Sender, r: Receiver, op: byte, p: Plain, key: Option<Key>)
    requires Lockstep(s, r) && 0 < op < 16 && |p| > MAX_MESSAGE_SIZE && Compresses(s, op, p)
    ensures var z := Pack(f, s, op, p).1;
            Accept(f, r, Frame(SeenHeader(SentHeader(s, op, p, key, |z|), z), z)) == (r, Fail(MessageTooLarge))
  {
    hide InflateSpec, DeflateSpec;
    InflateUndoesDeflate(f, s.deflater.value, p);
  }

  lemma ReadOneFrame(f: Flate, r: Receiver, h: Header, z: Slice, rest: seq<byte>)
    requires HeaderError(h.fin, h.opcode % 16, |z|) == None
    requires Accept(f, r, Frame(SeenHeader(h, z), z)).1 != Continue
    ensures var (r1, v) := Accept(f, r, Frame(SeenHeader(h, z), z));
            ReadSpec(f, r, FrameBytes(h, z) + rest)
              == (r1, if v.Fail? then Lost(v.error, rest) else Got(v.msg, rest))
  {
    hide Accept, FrameBytes, ParseFrame;
    FrameRoundTrip(h, z, rest);
  }

  /**
   What a message that was not deliverable leaves behind: the receiver is as it was and reports an
   error, or takes an opcode from 16 on for its low four bits. The sender has moved on, so lockstep
   survives exactly if packing did not change its history.
   */
  lemma UndeliverableLeaves(f: Flate, s: Sender, r: Receiver, op: byte, p: Plain, key: Option<Key>, rest: seq<byte>)
    requires Lockstep(s, r) && (s.isClient ==> key.Some?) && !Deliverable(f, s, op, p)
    ensures var (s1, sent) := WriteSpec(f, s, op, p, key);
            && sent.Ok?
            && var (r1, got) := ReadSpec(f, r, sent.value + rest);
            && r1 == r
            && (got.Lost? || (op >= 16 && got == Got(Message(op % 16, p), rest)))
            && (Lockstep(s1, r1) <==> (Compresses(s, op, p) ==> Remember(s.deflater.value, p) == s.deflater.value))
  {
    hide Accept, FrameBytes, ParseFrame, Pack;
    var (s1, z) := Pack(f, s, op, p);
    var h := SentHeader(s, op, p, key, |z|);
    PackMoves(f, s, op, p);
    PackKeepsContext(f, s, op, p);
    if HeaderError(true, op % 16, |z|).Some? {
      FrameRoundTrip(h, z, rest);
    } else if op >= 16 || op == 0 {
      AcceptOther(f, s, r, op, p, key);
      ReadOneFrame(f, r, h, z, rest);
    } else {
      AcceptRefusesLarge(f, s, r, op, p, key);
      ReadOneFrame(f, r, h, z, rest);
    }
  }

  lemma PackMoves(f: Flate, s: Sender, op: byte, p: Plain)
    ensures var (s1, z) := Pack(f, s, op, p);
            if Compresses(s, op, p) then s1.deflater == Some(Remember(s.deflater.value, p)) else (s1, z) == (s, p)
  {
  }

  lemma AcceptOther(f: Flate, s: Sender, r: Receiver, op: byte, p: Plain, key: Option<Key>)
    requires Lockstep(s, r) && (op == 0 || op >= 16)
    ensures var v := Accept(f, r, Frame(SeenHeader(SentHeader(s, op, p, key, |p|), p), p));
            v == (r, if op % 16 == 0 then Fail(UnexpectedContinuation) else Deliver(Message(op % 16, p)))
  {
  }

  /**
   One message: the opposite end reads back exactly it, leaves exactly the bytes behind it, and
   ends in lockstep again, if and only if the message was deliverable.
   */
  lemma MessageRoundTrip(f: Flate, s: Sender, r: Receiver, op: byte, p: Plain, key: Option<Key>, rest: seq<byte>)
    requires Lockstep(s, r) && (s.isClient ==> key.Some?)
    ensures var (s1, sent) := WriteSpec(f, s, op, p, key);
            && sent.Ok?
            && var (r1, got) := ReadSpec(f, r, sent.value + rest);
            && (Deliverable(f, s, op, p) <==> got == Got(Message(op, p), rest))
            && (Deliverable(f, s, op, p) ==> Lockstep(s1, r1))
  {
    hide Accept, FrameBytes, ParseFrame, Pack;
    if Deliverable(f, s, op, p) {
      AcceptUndoesPack(f, s, r, op, p, key);
      PackKeepsContext(f, s, op, p);
      PackMoves(f, s, op, p);
      var z := Pack(f, s, op, p).1;
      ReadOneFrame(f, r, SentHeader(s, op, p, key, |z|), z, rest);
    } else {
      UndeliverableLeaves(f, s, r, op, p, key, rest);
    }
  }

  // ----- whole conversations -----

  /** A message to send and the mask key the sender will draw for it. */
  datatype Outgoing = Outgoing(opcode: byte, payload: Plain, key: Key)

  function SendAll(f: Flate, s: Sender, msgs: seq<Outgoing>): (Sender, Result<seq<byte>, WsError>)
    decreases msgs
  {
    if msgs == [] then (s, Ok([]))
    else
      var (s1, first) := WriteSpec(f, s, msgs[0].opcode, msgs[0].payload, Some(msgs[0].key));
      if first.Err? then (s1, first)
      else
        var (s2, others) := SendAll(f, s1, msgs[1..]);
        (s2, if others.Err? then others else Ok(first.value + others.value))
  }

  function ReceiveAll(f: Flate, r: Receiver, b: seq<byte>, n: nat): (Receiver, Read<seq<Message>>)
    decreases n
  {
    if n == 0 then (r, Got([], b))
    else
      var (r1, first) := ReadSpec(f, r, b);
      if first.Lost? then (r1, Lost(first.error, first.rest))
      else
        var (r2, others) := ReceiveAll(f, r1, first.rest, n - 1);
        (r2, if others.Lost? then others else Got([first.value] + others.value, others.rest))
  }

  predicate AllDeliverable(f: Flate, s: Sender, msgs: seq<Outgoing>)
    decreases msgs
  {
    msgs != [] ==>
      && Deliverable(f, s, msgs[0].opcode, msgs[0].payload)
      && AllDeliverable(f, Pack(f, s, msgs[0].opcode, msgs[0].payload).0, msgs[1..])
  }

  function Messages(msgs: seq<Outgoing>): seq<Message> {
    seq(|msgs|, i requires 0 <= i < |msgs| => Message(msgs[i].opcode, msgs[i].payload))
  }

  lemma WriteIsPack(f: Flate, s: Sender, m: Outgoing)
    requires !s.closed
    ensures var (s1, sent) := WriteSpec(f, s, m.opcode, m.payload, Some(m.key));
            sent.Ok? && s1 == Pack(f, s, m.opcode, m.payload).0
  {
  }

  lemma {:induction false} SendAllSends(f: Flate, s: Sender, msgs: seq<Outgoing>)
    requires !s.closed
    ensures SendAll(f, s, msgs).1.Ok?
    decreases msgs
  {
    if msgs != [] {
      WriteIsPack(f, s, msgs[0]);
      SendAllSends(f, WriteSpec(f, s, msgs[0].opcode, msgs[0].payload, Some(msgs[0].key)).0, msgs[1..]);
    }
  }

  lemma SendStep(f: Flate, s: Sender, msgs: seq<Outgoing>)
    requires msgs != [] && !s.closed
    ensures var m := msgs[0];
            var (s1, first) := WriteSpec(f, s, m.opcode, m.payload, Some(m.key));
            && first.Ok? && s1 == Pack(f, s, m.opcode, m.payload).0 && !s1.closed
            && var (s2, others) := SendAll(f, s1, msgs[1..]);
            others.Ok? && SendAll(f, s, msgs) == (s2, Ok(first.value + others.value))
  {
    WriteIsPack(f, s, msgs[0]);
    SendAllSends(f, Pack(f, s, msgs[0].opcode, msgs[0].payload).0, msgs[1..]);
  }

  lemma ReceiveStep(f: Flate, r: Receiver, b: seq<byte>, n: nat)
    ensures var (r1, first) := ReadSpec(f, r, b);
            n > 0 && first.Got? ==>
            var (r2, others) := ReceiveAll(f, r1, first.rest, n - 1);
            others.Got? ==> ReceiveAll(f, r, b, n) == (r2, Got([first.value] + others.value, others.rest))
  {
  }

  /** Any conversation: as many reads as writes give the same messages in order and keep lockstep. */
  lemma {:induction false} ConversationRoundTrip(f: Flate, s: Sender, r: Receiver, msgs: seq<Outgoing>, rest: seq<byte>)
    requires Lockstep(s, r) && AllDeliverable(f, s, msgs)
    ensures var (s1, sent) := SendAll(f, s, msgs);
            && sent.Ok?
            && var (r1, got) := ReceiveAll(f, r, sent.value + rest, |msgs|);
            got == Got(Messages(msgs), rest) && Lockstep(s1, r1)
    decreases msgs
  {
    if msgs == [] {
      assert [] + rest == rest && Messages([]) == [];
    } else {
      var m := msgs[0];
      SendStep(f, s, msgs);
      hide WriteSpec, ReadSpec, Pack, Deliverable, Lockstep, SendAll, ReceiveAll, Messages;
      var (s1, first) := WriteSpec(f, s, m.opcode, m.payload, Some(m.key));
      var (s2, others) := SendAll(f, s1, msgs[1..]);
      var tail := others.value + rest;
      Associative(first.value, others.value, rest);
      MessageRoundTrip(f, s, r, m.opcode, m.payload, Some(m.key), tail);
      ReceiveStep(f, r, first.value + tail, |msgs|);
      ConversationRoundTrip(f, s1, ReadSpec(f, r, first.value + tail).0, msgs[1..], rest);
      MessagesSplit(msgs);
    }
  }

  lemma MessagesSplit(msgs: seq<Outgoing>)
    requires msgs != []
    ensures Messages(msgs) == [Message(msgs[0].opcode, msgs[0].payload)] + Messages(msgs[1..])
  {
  }

  // ----- messages in several frames -----

  /** The mask checks of a role let the frame in. */
  predicate Passes(isClient: bool, h: Header) {
    if isClient then !h.masked else h.masked || IsControl(h.opcode) || h.length == 0
  }

  /** Frames as a peer may write them: legal, and masked as the role of the reader asks. */
  predicate Sendable(isClient: bool, frames: seq<Frame>) {
    forall g <- frames :: Legal(g) && Passes(isClient, g.hdr)
  }

  function AsMessages(done: seq<Reasm.Assembled>): seq<Message> {
    seq(|done|, i requires 0 <= i < |done| => Message(done[i].opcode, done[i].payload))
  }

  /** What a whole payload, compressed or not, turns into, and the inflater behind it. */
  function Opened(f: Flate, inflater: Option<Context>, compressed: bool, whole: seq<byte>): (Option<Context>, Result<seq<byte>, WsError>) {
    if compressed && inflater.Some? then
      var (c, data) := InflateSpec(f, inflater.value, whole);
      (Some(c), data)
    else (inflater, Ok(whole))
  }

  /** Any number of messages, then one more or an error. */
  function Received(before: seq<Message>, op: byte, data: Result<seq<byte>, WsError>, rest: seq<byte>): Read<seq<Message>> {
    match data
    case Err(e) => Lost(e, rest)
    case Ok(p) => Got(before + [Message(op, p)], rest)
  }

  lemma ReadLegal(f: Flate, r: Receiver, g: Frame, tail: seq<byte>)
    requires Legal(g)
    ensures ReadSpec(f, r, FrameBytes(g.hdr, g.payload) + tail)
              == var (r1, v) := Accept(f, r, g);
                 if v.Fail? then (r1, Lost(v.error, tail))
                 else if v.Deliver? then (r1, Got(v.msg, tail))
                 else ReadSpec(f, r1, tail)
  {
    hide Accept, FrameBytes, ParseFrame;
    LegalRoundTrip(g, tail);
    var b := FrameBytes(g.hdr, g.payload) + tail;
    var (r1, v) := Accept(f, r, g);
    assert ParseFrame(b) == Got(g, tail);
    match v
    case Fail(_) =>
    case Deliver(_) =>
    case Continue => assert ReadSpec(f, r, b) == ReadSpec(f, r1, tail);
  }

  /** A control frame is delivered at once and changes nothing. */
  lemma AcceptControl(f: Flate, r: Receiver, g: Frame)
    requires Passes(r.isClient, g.hdr) && IsControl(g.hdr.opcode)
    ensures Accept(f, r, g) == (r, Deliver(Message(g.hdr.opcode, g.payload)))
  {
  }

  lemma AcceptData(f: Flate, r: Receiver, g: Frame)
    requires Passes(r.isClient, g.hdr) && !IsControl(g.hdr.opcode)
    ensures var (reasm, out) := Reasm.StepSpec(r.reasm, g.hdr, g.payload);
            && (out == Reasm.More ==> Accept(f, r, g) == (r.(reasm := reasm), Continue))
            && (out.Failed? ==> Accept(f, r, g) == (r.(reasm := reasm), Fail(out.error)))
            && (out.Ready? ==>
                 var (c, data) := Opened(f, r.inflater, out.msg.compressed, out.msg.payload);
                 Accept(f, r, g) == (r.(reasm := reasm, inflater := c),
                                     if data.Ok? then Deliver(Message(out.msg.opcode, data.value)) else Fail(data.error)))
  {
    hide InflateSpec;
  }

  lemma WireOfAppend(frames: seq<Frame>, more: seq<byte>)
    requires frames != [] && forall g <- frames :: Legal(g)
    ensures Legal(frames[0])
    ensures WireOf(frames) + more == FrameBytes(frames[0].hdr, frames[0].payload) + (WireOf(frames[1..]) + more)
  {
    WireOfCons(frames, more);
  }

  lemma ReceiveContinues(f: Flate, r: Receiver, g: Frame, r1: Receiver, tail: seq<byte>, n: nat)
    requires Legal(g) && Accept(f, r, g) == (r1, Continue) && n > 0
    ensures ReceiveAll(f, r, FrameBytes(g.hdr, g.payload) + tail, n) == ReceiveAll(f, r1, tail, n)
  {
    hide Accept, FrameBytes, ReadSpec;
    ReadLegal(f, r, g, tail);
  }

  lemma ReceiveDelivers(f: Flate, r: Receiver, g: Frame, m: Message, tail: seq<byte>, n: nat)
    requires Legal(g) && Accept(f, r, g) == (r, Deliver(m)) && n > 0
    ensures ReceiveAll(f, r, FrameBytes(g.hdr, g.payload) + tail, n)
              == var (r2, others) := ReceiveAll(f, r, tail, n - 1);
                 (r2, if others.Lost? then others else Got([m] + others.value, others.rest))
  {
    hide Accept, FrameBytes, ReadSpec;
    ReadLegal(f, r, g, tail);
  }

  lemma ReceiveLast(f: Flate, r: Receiver, last: Frame, rest: seq<byte>)
    requires r.reasm.open && Legal(last) && Passes(r.isClient, last.hdr)
    requires last.hdr.opcode == 0 && last.hdr.fin && !last.hdr.rsv1
    requires |r.reasm.buf| + |last.payload| <= MAX_MESSAGE_SIZE
    ensures var (c, data) := Opened(f, r.inflater, r.reasm.compressed, r.reasm.buf + last.payload);
            ReceiveAll(f, r, WireOf([last]) + rest, 1)
              == (r.(reasm := Reasm.CLOSED, inflater := c), Received([], r.reasm.opcode, data, rest))
  {
    hide Accept, FrameBytes, ReadSpec, Opened;
    AcceptData(f, r, last);
    WireOfCons([last], rest);
    assert WireOf([last][1..]) + rest == rest;
    ReadLegal(f, r, last, rest);
    var data := Opened(f, r.inflater, r.reasm.compressed, r.reasm.buf + last.payload).1;
    var (r1, first) := ReadSpec(f, r, WireOf([last]) + rest);
    assert first == if data.Ok? then Got(Message(r.reasm.opcode, data.value), rest) else Lost(data.error, rest);
    assert ReceiveAll(f, r1, rest, 0) == (r1, Got([], rest));
    assert data.Ok? ==> [Message(r.reasm.opcode, data.value)] + [] == [] + [Message(r.reasm.opcode, data.value)];
  }

  lemma ControlsFirst(middle: seq<Frame>)
    requires middle != []
    ensures var g, cs := middle[0], AsMessages(Reasm.Controls(middle[1..]));
            AsMessages(Reasm.Controls(middle)) == if IsControl(g.hdr.opcode) then [Message(g.hdr.opcode, g.payload)] + cs else cs
    ensures |Reasm.Controls(middle)| == |Reasm.Controls(middle[1..])| + if IsControl(middle[0].hdr.opcode) then 1 else 0
  {
    hide AsMessages, IsControl;
    var g, cs := middle[0], Reasm.Controls(middle[1..]);
    if IsControl(g.hdr.opcode) {
      MessagesFirst(Reasm.Assembled(g.hdr.opcode, g.payload, false, true), cs);
    } else {
      assert [] + cs == cs;
    }
  }

  lemma MessagesFirst(a: Reasm.Assembled, done: seq<Reasm.Assembled>)
    ensures AsMessages([a] + done) == [Message(a.opcode, a.payload)] + AsMessages(done)
  {
  }

  /** The first frame of a middle, and what stays true of the others. */
  lemma MiddleFirst(isClient: bool, middle: seq<Frame>, last: Frame)
    requires middle != [] && Reasm.Middle(middle) && Sendable(isClient, middle + [last])
    ensures var frames := middle + [last];
            && frames[0] == middle[0] && frames[1..] == middle[1..] + [last]
            && Sendable(isClient, middle[1..] + [last]) && Reasm.Middle(middle[1..])
            && Legal(middle[0]) && Passes(isClient, middle[0].hdr)
            && (!IsControl(middle[0].hdr.opcode) ==>
                 middle[0].hdr.opcode == 0 && !middle[0].hdr.fin && !middle[0].hdr.rsv1)
  {
    hide Legal, Passes, IsControl;
    var frames := middle + [last];
    assert frames[0] in frames && middle[0] in middle;
    assert frames[1..] == middle[1..] + [last];
    assert forall x <- frames[1..] :: x in frames;
    assert forall x <- middle[1..] :: x in middle;
  }

  lemma LastIsSendable(isClient: bool, middle: seq<Frame>, last: Frame)
    requires Sendable(isClient, middle + [last])
    ensures Legal(last) && Passes(isClient, last.hdr) && forall g <- middle + [last] :: Legal(g)
  {
    hide Legal, Passes;
    assert (middle + [last])[|middle|] == last;
  }

  lemma JoinedFirst(buf: seq<byte>, middle: seq<Frame>, last: seq<byte>)
    requires middle != []
    ensures var g, j := middle[0], Reasm.Joined(middle[1..]);
            buf + Reasm.Joined(middle) + last
              == if IsControl(g.hdr.opcode) then buf + j + last else buf + g.payload + j + last
    ensures |Reasm.Joined(middle)| == |Reasm.Joined(middle[1..])| + if IsControl(middle[0].hdr.opcode) then 0 else |middle[0].payload|
  {
    var j := Reasm.Joined(middle[1..]);
    assert [] + j == j;
    Associative(buf, middle[0].payload, j);
  }

  lemma {:induction false} MiddleReceived(f: Flate, r: Receiver, middle: seq<Frame>, last: Frame, rest: seq<byte>)
    requires r.reasm.open && Reasm.Middle(middle) && Sendable(r.isClient, middle + [last])
    requires last.hdr.opcode == 0 && last.hdr.fin && !last.hdr.rsv1
    requires |r.reasm.buf| + |Reasm.Joined(middle)| + |last.payload| <= MAX_MESSAGE_SIZE
    ensures var whole := r.reasm.buf + Reasm.Joined(middle) + last.payload;
            var (c, data) := Opened(f, r.inflater, r.reasm.compressed, whole);
            ReceiveAll(f, r, WireOf(middle + [last]) + rest, |Reasm.Controls(middle)| + 1)
              == (r.(reasm := Reasm.CLOSED, inflater := c),
                  Received(AsMessages(Reasm.Controls(middle)), r.reasm.opcode, data, rest))
    decreases middle
  {
    hide Accept, FrameBytes, ReadSpec, Opened, ReceiveAll, WireOf, Passes, Sendable, Legal, Received, AsMessages,
      Reasm.Controls, Reasm.Joined, Reasm.Middle;
    LastIsSendable(r.isClient, middle, last);
    if middle == [] {
      NothingBetween(r.reasm.buf, last);
      ReceiveLast(f, r, last, rest);
    } else {
      var g, more := middle[0], middle[1..] + [last];
      MiddleFirst(r.isClient, middle, last);
      LastIsSendable(r.isClient, middle[1..], last);
      WireOfAppend(middle + [last], rest);
      ControlsFirst(middle);
      JoinedFirst(r.reasm.buf, middle, last.payload);
      var tail, n := WireOf(more) + rest, |Reasm.Controls(middle)| + 1;
      if IsControl(g.hdr.opcode) {
        AcceptControl(f, r, g);
        MiddleReceived(f, r, middle[1..], last, rest);
        ReceiveDelivers(f, r, g, Message(g.hdr.opcode, g.payload), tail, n);
        var data := Opened(f, r.inflater, r.reasm.compressed, r.reasm.buf + Reasm.Joined(middle) + last.payload).1;
        ReceivedMore(Message(g.hdr.opcode, g.payload), AsMessages(Reasm.Controls(middle[1..])), r.reasm.opcode, data, rest);
      } else {
        var r1 := r.(reasm := r.reasm.(buf := r.reasm.buf + g.payload));
        MiddleContinues(f, r, g);
        MiddleReceived(f, r1, middle[1..], last, rest);
        ReceiveContinues(f, r, g, r1, tail, n);
      }
    }
  }

  lemma NothingBetween(buf: seq<byte>, last: Frame)
    ensures AsMessages(Reasm.Controls([])) == [] && buf + Reasm.Joined([]) + last.payload == buf + last.payload
    ensures [] + [last] == [last] && Reasm.Controls([]) == []
  {
    assert buf + [] == buf;
  }

  lemma ReceivedMore(m: Message, before: seq<Message>, op: byte, data: Result<seq<byte>, WsError>, rest: seq<byte>)
    ensures var others := Received(before, op, data, rest);
            Received([m] + before, op, data, rest)
              == if others.Lost? then others else Got([m] + others.value, others.rest)
  {
    if data.Ok? {
      Associative([m], before, [Message(op, data.value)]);
    }
  }

  lemma MiddleContinues(f: Flate, r: Receiver, g: Frame)
    requires r.reasm.open && Passes(r.isClient, g.hdr)
    requires !IsControl(g.hdr.opcode) && g.hdr.opcode == 0 && !g.hdr.fin && !g.hdr.rsv1
    requires |r.reasm.buf| + |g.payload| <= MAX_MESSAGE_SIZE
    ensures Accept(f, r, g) == (r.(reasm := r.reasm.(buf := r.reasm.buf + g.payload)), Continue)
  {
    hide Opened;
    AcceptData(f, r, g);
  }

  /**
   A message in any number of frames, with control frames anywhere between: reading the control messages and one more
   gives them in order and then one message with the first frame's opcode and the joined payload, inflated if its
   first frame said so. Exactly the bytes of the frames are gone and the reassembler is closed again.
   */
  lemma FragmentsReceived(f: Flate, r: Receiver, first: Frame, middle: seq<Frame>, last: Frame, rest: seq<byte>)
    requires r.reasm == Reasm.CLOSED && Reasm.Fragmented(first, middle, last)
    requires Sendable(r.isClient, [first] + middle + [last])
    requires |first.payload| + |Reasm.Joined(middle)| + |last.payload| <= MAX_MESSAGE_SIZE
    ensures var whole := first.payload + Reasm.Joined(middle) + last.payload;
            var (c, data) := Opened(f, r.inflater, first.hdr.rsv1, whole);
            ReceiveAll(f, r, WireOf([first] + middle + [last]) + rest, |Reasm.Controls(middle)| + 1)
              == (r.(inflater := c), Received(AsMessages(Reasm.Controls(middle)), first.hdr.opcode, data, rest))
  {
    hide Accept, FrameBytes, ReadSpec, Opened, ReceiveAll, WireOf, AsMessages;
    var frames, more := [first] + middle + [last], middle + [last];
    assert frames[0] == first && frames[1..] == more && first in frames;
    assert forall x <- more :: x in frames;
    AcceptData(f, r, first);
    var r1 := r.(reasm := Reasm.State(first.hdr.opcode, first.hdr.rsv1, true, first.payload));
    WireOfAppend(frames, rest);
    ReceiveContinues(f, r, first, r1, WireOf(more) + rest, |Reasm.Controls(middle)| + 1);
    MiddleReceived(f, r1, middle, last, rest);
  }

  /** What one end packs may reach the other in any number of frames: the message arrives and lockstep is kept. */
  lemma FragmentedRoundTrip(f: Flate, s: Sender, r: Receiver, op: byte, p: Plain, first: Frame, middle: seq<Frame>, last: Frame, rest: seq<byte>)
    requires Lockstep(s, r) && Deliverable(f, s, op, p) && Reasm.Fragmented(first, middle, last)
    requires Sendable(r.isClient, [first] + middle + [last])
    requires first.hdr.opcode == op && first.hdr.rsv1 == Compresses(s, op, p)
    requires first.payload + Reasm.Joined(middle) + last.payload == Pack(f, s, op, p).1
    ensures var (r1, got) := ReceiveAll(f, r, WireOf([first] + middle + [last]) + rest, |Reasm.Controls(middle)| + 1);
            && got == Got(AsMessages(Reasm.Controls(middle)) + [Message(op, p)], rest)
            && Lockstep(Pack(f, s, op, p).0, r1)
  {
    assert |p| <= MAX_MESSAGE_SIZE && |Pack(f, s, op, p).1| <= MAX_MESSAGE_SIZE;
    hide ReceiveAll, WireOf, AsMessages, InflateSpec, DeflateSpec, Reasm.Joined, Reasm.Fragmented, Sendable, Deliverable, Legal;
    FragmentsReceived(f, r, first, middle, last, rest);
    PackKeepsContext(f, s, op, p);
    if Compresses(s, op, p) {
      InflateUndoesDeflate(f, s.deflater.value, p);
    }
  }

  lemma {:induction false} MiddleRefused(f: Flate, r: Receiver, middle: seq<Frame>, last: Frame, rest: seq<byte>)
    requires r.reasm.open && Reasm.Middle(middle) && Sendable(r.isClient, middle + [last])
    requires last.hdr.opcode == 0 && last.hdr.fin && !last.hdr.rsv1 && |r.reasm.buf| <= MAX_MESSAGE_SIZE
    requires |r.reasm.buf| + |Reasm.Joined(middle)| + |last.payload| > MAX_MESSAGE_SIZE
    ensures var (r1, got) := ReceiveAll(f, r, WireOf(middle + [last]) + rest, |Reasm.Controls(middle)| + 1);
            r1 == r.(reasm := Reasm.CLOSED) && got.Lost? && got.error == MessageTooLarge
    decreases middle
  {
    hide Accept, FrameBytes, ReadSpec, Opened, ReceiveAll, WireOf, Passes, Sendable, Legal, AsMessages,
      Reasm.Controls, Reasm.Joined, Reasm.Middle;
    LastIsSendable(r.isClient, middle, last);
    WireOfAppend(middle + [last], rest);
    var n := |Reasm.Controls(middle)| + 1;
    if middle == [] {
      NothingBetween(r.reasm.buf, last);
      RefuseLarge(f, r, last, WireOf((middle + [last])[1..]) + rest, n);
    } else {
      var g, more := middle[0], middle[1..] + [last];
      MiddleFirst(r.isClient, middle, last);
      LastIsSendable(r.isClient, middle[1..], last);
      ControlsFirst(middle);
      JoinedFirst(r.reasm.buf, middle, last.payload);
      var tail := WireOf(more) + rest;
      if IsControl(g.hdr.opcode) {
        AcceptControl(f, r, g);
        MiddleRefused(f, r, middle[1..], last, rest);
        ReceiveDelivers(f, r, g, Message(g.hdr.opcode, g.payload), tail, n);
      } else if |r.reasm.buf| + |g.payload| > MAX_MESSAGE_SIZE {
        RefuseLarge(f, r, g, tail, n);
      } else {
        var r1 := r.(reasm := r.reasm.(buf := r.reasm.buf + g.payload));
        MiddleContinues(f, r, g);
        MiddleRefused(f, r1, middle[1..], last, rest);
        ReceiveContinues(f, r, g, r1, tail, n);
      }
    }
  }

  /** A continuation beyond the limit. */
  lemma RefuseLarge(f: Flate, r: Receiver, g: Frame, tail: seq<byte>, n: nat)
    requires r.reasm.open && Legal(g) && Passes(r.isClient, g.hdr) && n > 0
    requires g.hdr.opcode == 0 && !g.hdr.rsv1 && |r.reasm.buf| + |g.payload| > MAX_MESSAGE_SIZE
    ensures ReceiveAll(f, r, FrameBytes(g.hdr, g.payload) + tail, n)
              == (r.(reasm := Reasm.CLOSED), Lost(MessageTooLarge, tail))
  {
    hide Opened, FrameBytes, Legal;
    AcceptData(f, r, g);
    hide Accept, Passes;
    ReceiveFails(f, r, g, MessageTooLarge, tail, n);
  }

  lemma ReceiveFails(f: Flate, r: Receiver, g: Frame, e: WsError, tail: seq<byte>, n: nat)
    requires Legal(g) && Accept(f, r, g).1 == Fail(e) && n > 0
    ensures ReceiveAll(f, r, FrameBytes(g.hdr, g.payload) + tail, n) == (Accept(f, r, g).0, Lost(e, tail))
  {
    hide Accept, FrameBytes, ReadSpec;
    ReadLegal(f, r, g, tail);
  }

  /** Joined to more than 64 MiB, it is refused instead, and the reassembler is closed all the same. */
  lemma LargeFragmentsRefused(f: Flate, r: Receiver, first: Frame, middle: seq<Frame>, last: Frame, rest: seq<byte>)
    requires r.reasm == Reasm.CLOSED && Reasm.Fragmented(first, middle, last)
    requires Sendable(r.isClient, [first] + middle + [last])
    requires |first.payload| + |Reasm.Joined(middle)| + |last.payload| > MAX_MESSAGE_SIZE
    ensures var (r1, got) := ReceiveAll(f, r, WireOf([first] + middle + [last]) + rest, |Reasm.Controls(middle)| + 1);
            r1 == r && got.Lost? && got.error == MessageTooLarge
  {
    hide Accept, FrameBytes, ReadSpec, Opened, ReceiveAll, WireOf;
    var frames, more := [first] + middle + [last], middle + [last];
    assert frames[0] == first && frames[1..] == more && first in frames;
    assert forall x <- more :: x in frames;
    AcceptData(f, r, first);
    var r1 := r.(reasm := Reasm.State(first.hdr.opcode, first.hdr.rsv1, true, first.payload));
    WireOfAppend(frames, rest);
    ReceiveContinues(f, r, first, r1, WireOf(more) + rest, |Reasm.Controls(middle)| + 1);
    MiddleRefused(f, r1, middle, last, rest);
  }

  /** A frame masked against the rules of the role is refused, whatever it is, and changes nothing. */
  lemma WrongMaskRefused(f: Flate, r: Receiver, g: Frame, rest: seq<byte>)
    requires Legal(g)
    requires if r.isClient then g.hdr.masked else !g.hdr.masked && !IsControl(g.hdr.opcode) && g.payload != []
    ensures ReadSpec(f, r, FrameBytes(g.hdr, g.payload) + rest)
              == (r, Lost(if r.isClient then MaskedFromServer else UnmaskedFromClient, rest))
  {
    hide ReadSpec, FrameBytes, ParseFrame, Reasm.StepSpec;
    ReadLegal(f, r, g, rest);
  }

  /** What is on the wire behind a write: one final frame, masked with the drawn key exactly if the sender is a client. */
  lemma SentFrame(f: Flate, s: Sender, op: byte, p: Plain, key: Option<Key>, rest: seq<byte>)
    requires !s.closed && (s.isClient ==> key.Some?) && Deliverable(f, s, op, p)
    ensures var z := Pack(f, s, op, p).1;
            ParseFrame(WriteSpec(f, s, op, p, key).1.value + rest)
              == Got(Frame(Header(true, Compresses(s, op, p), false, false, op, s.isClient,
                                  if s.isClient then key.value else ZERO_KEY, |z|), z), rest)
  {
    hide FrameBytes, ParseFrame, Pack;
    PackMoves(f, s, op, p);
    var z := Pack(f, s, op, p).1;
    FrameRoundTrip(SentHeader(s, op, p, key, |z|), z, rest);
  }

  // ----- what both histories hold -----

  /** The non-empty text and binary payloads, joined. */
  function DataOf(msgs: seq<Outgoing>): seq<byte> {
    if msgs == [] then []
    else (if msgs[0].opcode == OP_TEXT || msgs[0].opcode == OP_BINARY then msgs[0].payload else [])
         + DataOf(msgs[1..])
  }

  lemma PackRemembers(f: Flate, s: Sender, m: Outgoing, past: seq<byte>)
    requires s.deflater.Some? && !s.deflater.value.noContext
    requires s.deflater.value.history == Last(past, HISTORY_SIZE)
    ensures var d := Pack(f, s, m.opcode, m.payload).0.deflater;
            d == Some(Context(false, Last(past + DataOf([m]), HISTORY_SIZE)))
  {
    assert [m][1..] == [];
    var data := if m.opcode == OP_TEXT || m.opcode == OP_BINARY then m.payload else [];
    assert DataOf([m]) == data + [] == data;
    assert past + [] == past;
    LastOfLast(past, m.payload, HISTORY_SIZE);
  }

  lemma DataSplit(msgs: seq<Outgoing>)
    requires msgs != []
    ensures DataOf(msgs) == DataOf([msgs[0]]) + DataOf(msgs[1..])
  {
    var m := msgs[0];
    assert [m][1..] == [];
    var data := if m.opcode == OP_TEXT || m.opcode == OP_BINARY then m.payload else [];
    assert DataOf([m]) == data + [] == data;
  }

  lemma PackForgets(f: Flate, s: Sender, m: Outgoing)
    requires s.deflater.Some? && s.deflater.value.noContext
    ensures Pack(f, s, m.opcode, m.payload).0 == s
  {
  }

  /**
   With context takeover the history is the last 32768 bytes of all data sent, empty and control
   messages adding nothing; without it there is none.
   */
  lemma {:induction false} HistoryIsLastData(f: Flate, s: Sender, msgs: seq<Outgoing>, past: seq<byte>)
    requires !s.closed && s.deflater.Some? && ValidContext(s.deflater.value)
    requires !s.deflater.value.noContext ==> s.deflater.value.history == Last(past, HISTORY_SIZE)
    ensures var c := s.deflater.value;
            SendAll(f, s, msgs).0.deflater
              == Some(if c.noContext then c else Context(false, Last(past + DataOf(msgs), HISTORY_SIZE)))
    decreases msgs
  {
    if msgs == [] {
      assert past + [] == past;
    } else {
      var m := msgs[0];
      SendStep(f, s, msgs);
      PackKeepsContext(f, s, m.opcode, m.payload);
      if s.deflater.value.noContext {
        PackForgets(f, s, m);
      } else {
        PackRemembers(f, s, m, past);
        DataSplit(msgs);
        Associative(past, DataOf([m]), DataOf(msgs[1..]));
      }
      hide WriteSpec, Pack, SendAll, Last, DataOf;
      HistoryIsLastData(f, WriteSpec(f, s, m.opcode, m.payload, Some(m.key)).0, msgs[1..], past + DataOf([m]));
    }
  }

  /** Two fresh ends with the same parameters: every message arrives and both histories agree with the data sent. */
  lemma EndToEnd(f: Flate, isClient: bool, ext: ExtParams, msgs: seq<Outgoing>, rest: seq<byte>)
    requires AllDeliverable(f, NewSender(isClient, ext), msgs)
    ensures var (s, sent) := SendAll(f, NewSender(isClient, ext), msgs);
            && sent.Ok?
            && var (r, got) := ReceiveAll(f, NewReceiver(!isClient, ext), sent.value + rest, |msgs|);
            && got == Got(Messages(msgs), rest)
            && r.inflater == s.deflater
            && s.deflater == if !ext.negotiated then None
                             else if NoContextForWriter(isClient, ext) then Some(Context(true, []))
                             else Some(Context(false, Last(DataOf(msgs), HISTORY_SIZE)))
  {
    ConversationRoundTrip(f, NewSender(isClient, ext), NewReceiver(!isClient, ext), msgs, rest);
    if ext.negotiated {
      HistoryIsLastData(f, NewSender(isClient, ext), msgs, []);
      assert [] + DataOf(msgs) == DataOf(msgs);
    } else {
      NoDeflaterStays(f, NewSender(isClient, ext), msgs);
    }
  }

  lemma {:induction false} NoDeflaterStays(f: Flate, s: Sender, msgs: seq<Outgoing>)
    requires !s.closed && s.deflater.None?
    ensures SendAll(f, s, msgs).0 == s
    decreases msgs
  {
    if msgs != [] {
      WriteIsPack(f, s, msgs[0]);
      NoDeflaterStays(f, s, msgs[1..]);
    }
  }

  /**
   What the next message is compressed against: with context takeover the last 32768 bytes of all data sent before,
   without it nothing. The frame carries the compressor's output without its sync tail.
   */
  lemma PackedAgainstHistory(f: Flate, isClient: bool, ext: ExtParams, msgs: seq<Outgoing>, op: byte, p: Plain)
    requires ext.negotiated && (op == OP_TEXT || op == OP_BINARY) && p != []
    ensures var s := SendAll(f, NewSender(isClient, ext), msgs).0;
            var dict := if NoContextForWriter(isClient, ext) then [] else Last(DataOf(msgs), HISTORY_SIZE);
            Pack(f, s, op, p).1 + SYNC_TAIL == f.deflate(dict, p)
  {
    HistoryIsLastData(f, NewSender(isClient, ext), msgs, []);
    assert [] + DataOf(msgs) == DataOf(msgs);
    hide SendAll, DataOf, Remember;
    var s := SendAll(f, NewSender(isClient, ext), msgs).0;
    var c := s.deflater.value;
    TailStripped(f, c, p);
  }

  lemma TailStripped(f: Flate, c: Context, p: Plain)
    requires ValidContext(c)
    ensures StripTail(f.deflate(Dict(c), p)) + SYNC_TAIL == f.deflate(Dict(c), p)
  {
    var d := f.deflate(Dict(c), p);
    assert EndsInSyncTail(d);
  }
}
