/** Reassembly of fragmented messages, section 5.4 of RFC 6455. */
module WsReassemble {
  import opened Bytes
  import opened WsFrame

  const OP_CONTINUATION: byte := 0

  datatype Assembled = Assembled(opcode: byte, payload: seq<byte>, compressed: bool, control: bool)

  datatype State = State(opcode: byte, compressed: bool, open: bool, buf: seq<byte>)

  const CLOSED := State(0, false, false, [])

  /** What one frame produces: a finished message, nothing yet, or an error. */
  datatype Outcome = Ready(msg: Assembled) | More | Failed(error: WsError)

  function StepSpec(s: State, h: Header, payload: seq<byte>): (State, Outcome) {
    if IsControl(h.opcode) then (s, Ready(Assembled(h.opcode, payload, false, true)))
    else if h.opcode == OP_CONTINUATION then
      if !s.open then (s, Failed(UnexpectedContinuation))
      else if h.rsv1 then (s, Failed(UnexpectedRsv1))
      else if |s.buf| + |payload| > MAX_MESSAGE_SIZE then (CLOSED, Failed(MessageTooLarge))
      else if !h.fin then (s.(buf := s.buf + payload), More)
      else (CLOSED, Ready(Assembled(s.opcode, s.buf + payload, s.compressed, false)))
    else if s.open then (s, Failed(UnexpectedDataFrame))
    else if h.fin then (s, Ready(Assembled(h.opcode, payload, h.rsv1, false)))
    else (State(h.opcode, h.rsv1, true, payload), More)
  }

  class Reassembler {
    var opcode: byte
    var compressed: bool
    var open: bool
    var buf: seq<byte>

    ghost function Value(): State
      reads this
    {
      State(opcode, compressed, open, buf)
    }

    constructor ()
      ensures Value() == CLOSED
    {
      opcode, compressed, open, buf := 0, false, false, [];
    }

    method Reset()
      modifies this
      ensures Value() == CLOSED
    {
      opcode, compressed, open, buf := 0, false, false, [];
    }

    method Step(hdr: Header, payload: seq<byte>) returns (out: Outcome)
      modifies this
      ensures (Value(), out) == StepSpec(old(Value()), hdr, payload)
    {
      if IsControl(hdr.opcode) {
        return Ready(Assembled(hdr.opcode, payload, false, true));
      }
      if hdr.opcode == OP_CONTINUATION {
        if !open { return Failed(UnexpectedContinuation); }
        if hdr.rsv1 { return Failed(UnexpectedRsv1); }
        if |buf| + |payload| > MAX_MESSAGE_SIZE {
          Reset();
          return Failed(MessageTooLarge);
        }
        buf := buf + payload;
        if !hdr.fin { return More; }
        out := Ready(Assembled(opcode, buf, compressed, false));
        Reset();
        return;
      }
      if open { return Failed(UnexpectedDataFrame); }
      if hdr.fin {
        return Ready(Assembled(hdr.opcode, payload, hdr.rsv1, false));
      }
      opcode, compressed, open, buf := hdr.opcode, hdr.rsv1, true, payload;
      return More;
    }
  }

  // ----- invariants of every reachable state -----

  /** Closed means empty; open means a data opcode and at most 64 MiB. */
  predicate Valid(s: State) {
    && |s.buf| <= MAX_MESSAGE_SIZE
    && (if s.open then s.opcode != OP_CONTINUATION && !IsControl(s.opcode) else s == CLOSED)
  }

  /** The states after any frames whatsoever, errors included. */
  function After(s: State, frames: seq<Frame>): State
    decreases frames
  {
    if frames == [] then s
    else After(StepSpec(s, frames[0].hdr, frames[0].payload).0, frames[1..])
  }

  lemma {:induction false} ReachableIsValid(s: State, frames: seq<Frame>)
    requires Valid(s)
    requires forall f <- frames :: |f.payload| <= MAX_MESSAGE_SIZE
    ensures Valid(After(s, frames))
    decreases frames
  {
    if frames != [] {
      ReachableIsValid(StepSpec(s, frames[0].hdr, frames[0].payload).0, frames[1..]);
    }
  }

  /** Which frames fail, why, and that only the size error loses the open message. */
  lemma StepFails(s: State, h: Header, p: seq<byte>)
    ensures var (s', out) := StepSpec(s, h, p);
            var data := !IsControl(h.opcode);
            && (out == Failed(UnexpectedContinuation) <==> data && h.opcode == 0 && !s.open)
            && (out == Failed(UnexpectedRsv1) <==> data && h.opcode == 0 && s.open && h.rsv1)
            && (out == Failed(UnexpectedDataFrame) <==> data && h.opcode != 0 && s.open)
            && (out == Failed(MessageTooLarge) <==>
                 data && h.opcode == 0 && s.open && !h.rsv1 && |s.buf| + |p| > MAX_MESSAGE_SIZE)
            && (out.Failed? ==> s' == if out.error == MessageTooLarge then CLOSED else s)
  {
  }

  // ----- fragmentation -----

  /** Feed frames until they run out or one fails; the messages come in order. */
  function Feed(s: State, frames: seq<Frame>): (State, Result<seq<Assembled>, WsError>)
    decreases frames
  {
    if frames == [] then (s, Ok([]))
    else
      var (s1, out) := StepSpec(s, frames[0].hdr, frames[0].payload);
      if out.Failed? then (s1, Err(out.error))
      else
        var (s2, rest) := Feed(s1, frames[1..]);
        (s2, if rest.Err? then rest else Ok((if out.Ready? then [out.msg] else []) + rest.value))
  }

  function Controls(frames: seq<Frame>): seq<Assembled> {
    if frames == [] then []
    else (if IsControl(frames[0].hdr.opcode)
          then [Assembled(frames[0].hdr.opcode, frames[0].payload, false, true)] else [])
         + Controls(frames[1..])
  }

  /** The data payloads, joined. */
  function Joined(frames: seq<Frame>): seq<byte> {
    if frames == [] then []
    else (if IsControl(frames[0].hdr.opcode) then [] else frames[0].payload) + Joined(frames[1..])
  }

  /** Control frames and continuation frames, none of them final. */
  predicate Middle(frames: seq<Frame>) {
    forall f <- frames :: IsControl(f.hdr.opcode) || (f.hdr.opcode == 0 && !f.hdr.fin && !f.hdr.rsv1)
  }

  /** One whole message: a first fragment, any middle, a final continuation. */
  predicate Fragmented(first: Frame, middle: seq<Frame>, last: Frame) {
    && !IsControl(first.hdr.opcode) && first.hdr.opcode != 0 && !first.hdr.fin
    && Middle(middle)
    && last.hdr.opcode == 0 && last.hdr.fin && !last.hdr.rsv1
  }

  lemma {:induction false} MiddleAccumulates(s: State, middle: seq<Frame>)
    requires s.open && Middle(middle) && |s.buf| + |Joined(middle)| <= MAX_MESSAGE_SIZE
    ensures Feed(s, middle) == (s.(buf := s.buf + Joined(middle)), Ok(Controls(middle)))
    decreases middle
  {
    if middle == [] {
      assert s.buf + [] == s.buf;
    } else {
      var f := middle[0];
      var s1 := StepSpec(s, f.hdr, f.payload).0;
      MiddleAccumulates(s1, middle[1..]);
      assert s1.buf + Joined(middle[1..]) == s.buf + Joined(middle);
    }
  }

  lemma {:induction false} FeedAppend(s: State, a: seq<Frame>, b: seq<Frame>)
    requires Feed(s, a).1.Ok?
    ensures var (s1, x) := Feed(s, a);
            var (s2, y) := Feed(s1, b);
            Feed(s, a + b) == (s2, if y.Err? then y else Ok(x.value + y.value))
    decreases a
  {
    if a == [] {
      assert a + b == b;
      var y := Feed(s, b).1;
      assert y.Ok? ==> [] + y.value == y.value;
    } else {
      assert (a + b)[1..] == a[1..] + b;
      var (t, out) := StepSpec(s, a[0].hdr, a[0].payload);
      FeedAppend(t, a[1..], b);
      var (t1, x) := Feed(t, a[1..]);
      var (t2, y) := Feed(t1, b);
      var now := if out.Ready? then [out.msg] else [];
      assert Feed(s, a).1 == Ok(now + x.value);
      if y.Ok? {
        assert now + (x.value + y.value) == now + x.value + y.value;
      }
    }
  }

  lemma LastFrame(s: State, last: Frame)
    requires s.open && last.hdr.opcode == 0 && last.hdr.fin && !last.hdr.rsv1
    ensures Feed(s, [last]) ==
            if |s.buf| + |last.payload| > MAX_MESSAGE_SIZE then (CLOSED, Err(MessageTooLarge))
            else (CLOSED, Ok([Assembled(s.opcode, s.buf + last.payload, s.compressed, false)]))
  {
    var (s1, out) := StepSpec(s, last.hdr, last.payload);
    assert [last][1..] == [];
    assert Feed(s1, []) == (s1, Ok([]));
    if out.Ready? {
      assert [out.msg] + [] == [out.msg];
    }
  }

  /**
   Any fragmentation with any control frames in between yields those control frames, unchanged
   and in order, and one data message with the first fragment's opcode and RSV1 and the joined
   payload, exactly when the joined payload is at most 64 MiB.
   */
  lemma FragmentsReassemble(first: Frame, middle: seq<Frame>, last: Frame)
    requires Fragmented(first, middle, last)
    ensures var frames := [first] + middle + [last];
            var whole := first.payload + Joined(middle) + last.payload;
            var msg := Assembled(first.hdr.opcode, whole, first.hdr.rsv1, false);
            if |whole| <= MAX_MESSAGE_SIZE
            then Feed(CLOSED, frames) == (CLOSED, Ok(Controls(middle) + [msg]))
            else |first.payload| <= MAX_MESSAGE_SIZE ==> Feed(CLOSED, frames) == (CLOSED, Err(MessageTooLarge))
  {
    var s1 := State(first.hdr.opcode, first.hdr.rsv1, true, first.payload);
    var rest := middle + [last];
    var frames := [first] + middle + [last];
    assert frames[0] == first && frames[1..] == rest;
    var (s2, out) := Feed(s1, rest);
    assert out.Ok? ==> [] + out.value == out.value;
    assert Feed(CLOSED, frames) == (s2, out);
    var whole := first.payload + Joined(middle) + last.payload;
    if |first.payload| + |Joined(middle)| <= MAX_MESSAGE_SIZE {
      MiddleAccumulates(s1, middle);
      FeedAppend(s1, middle, [last]);
      LastFrame(s1.(buf := s1.buf + Joined(middle)), last);
    } else if |first.payload| <= MAX_MESSAGE_SIZE {
      MiddleOverflows(s1, middle, [last]);
    }
  }

  lemma {:induction false} MiddleOverflows(s: State, middle: seq<Frame>, more: seq<Frame>)
    requires s.open && Middle(middle) && |s.buf| <= MAX_MESSAGE_SIZE < |s.buf| + |Joined(middle)|
    ensures Feed(s, middle + more) == (CLOSED, Err(MessageTooLarge))
    decreases middle
  {
    var f := middle[0];
    assert (middle + more)[1..] == middle[1..] + more;
    var (s1, out) := StepSpec(s, f.hdr, f.payload);
    if !out.Failed? {
      MiddleOverflows(s1, middle[1..], more);
    }
  }
}
