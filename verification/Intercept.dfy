/**
 The manual interceptor: proxy goroutines hold messages, the user forwards or drops them, turning
 interception off drains the queue. First the mutex-protected queue, then the whole protocol as a
 state machine whose steps are the atomic actions of the source, in every interleaving.
 */
module Intercept {
  import opened Bytes

  /** One queued message: which Hold call it belongs to, and the ID it was given. */
  datatype Entry = Entry(msg: nat, id: nat)

  // ----- the critical sections -----

  /** The first entry with the ID. */
  function Find(q: seq<Entry>, id: nat): (r: Option<nat>)
    ensures r.Some? ==> r.value < |q| && q[r.value].id == id && forall k | 0 <= k < r.value :: q[k].id != id
    ensures r.None? ==> forall k | 0 <= k < |q| :: q[k].id != id
  {
    if q == [] then None
    else if q[0].id == id then Some(0)
    else
      var r := Find(q[1..], id);
      if r.None? then None else Some(r.value + 1)
  }

  function Without(q: seq<Entry>, i: nat): seq<Entry>
    requires i < |q|
  {
    q[..i] + q[i + 1..]
  }

  /** What the mutex protects. */
  class Queue {
    var queue: seq<Entry>
    var nextID: nat

    constructor ()
      ensures queue == [] && nextID == 0
    {
      queue, nextID := [], 0;
    }

    method Enqueue(msg: nat) returns (id: nat)
      modifies this
      ensures id == nextID == old(nextID) + 1 && queue == old(queue) + [Entry(msg, id)]
    {
      nextID := nextID + 1;
      id := nextID;
      queue := queue + [Entry(msg, id)];
    }

    method Take(id: nat) returns (found: Option<Entry>)
      modifies this
      ensures nextID == old(nextID)
      ensures match Find(old(queue), id)
              case None => found == None && queue == old(queue)
              case Some(i) => found == Some(old(queue)[i]) && queue == Without(old(queue), i)
    {
      for i := 0 to |queue|
        invariant queue == old(queue) && forall k | 0 <= k < i :: queue[k].id != id
      {
        if queue[i].id == id {
          found := Some(queue[i]);
          queue := queue[..i] + queue[i + 1..];
          return;
        }
      }
      return None;
    }

    method TakeAll() returns (q: seq<Entry>)
      modifies this
      ensures q == old(queue) && queue == [] && nextID == old(nextID)
    {
      q := queue;
      queue := [];
    }
  }

  // ----- the protocol -----

  datatype Answer = Answer(edited: seq<byte>, drop: bool)

  /** A Hold call: before its gate, past the gate, waiting on its channel, returned. */
  datatype Phase = Called | PastGate | Waiting(id: nat) | Returned(id: nat, answer: Answer)

  /** `slot` is the channel of capacity one. */
  datatype Held = Held(raw: seq<byte>, phase: Phase, slot: Option<Answer>)

  /** A message some resolver has taken from the queue and must still answer. */
  datatype Delivery = Delivery(resolver: nat, msg: nat, answer: Answer)

  /** A Forward (with or without edits) or Drop that the user issued. */
  datatype Command = Command(id: nat, edited: Option<seq<byte>>, drop: bool)

  datatype State = State(
    on: bool,
    queue: seq<Entry>,
    nextID: nat,
    held: map<nat, Held>,
    hands: seq<Delivery>,
    issued: set<Command>)

  const START := State(false, [], 0, map[], [], {})

  /** The atomic steps; `Send` names a position in the hands. */
  datatype Step =
    | Call(msg: nat, raw: seq<byte>)
    | Gate(msg: nat)
    | Enqueue(msg: nat)
    | Resolve(resolver: nat, cmd: Command)
    | Store(on: bool)
    | Drain(resolver: nat)
    | Send(at: nat)
    | Receive(msg: nat)

  predicate InPhase(s: State, m: nat, called: bool) {
    m in s.held && (if called then s.held[m].phase.Called? else s.held[m].phase.PastGate?)
  }

  /** A resolver answers its messages in the order it took them. */
  predicate FirstOfResolver(hands: seq<Delivery>, at: nat) {
    at < |hands| && forall k | 0 <= k < at :: hands[k].resolver != hands[at].resolver
  }

  predicate Enabled(s: State, step: Step) {
    match step
    case Call(m, _) => m !in s.held
    case Gate(m) => InPhase(s, m, true)
    case Enqueue(m) => InPhase(s, m, false)
    case Resolve(_, _) => true
    case Store(_) => true
    case Drain(_) => forall e <- s.queue :: e.msg in s.held
    case Send(at) => FirstOfResolver(s.hands, at) && s.hands[at].msg in s.held && s.held[s.hands[at].msg].slot.None?
    case Receive(m) => m in s.held && s.held[m].phase.Waiting? && s.held[m].slot.Some?
  }

  function Phased(s: State, m: nat, p: Phase): map<nat, Held>
    requires m in s.held
  {
    s.held[m := s.held[m].(phase := p)]
  }

  function AnswerTo(s: State, cmd: Command, m: nat): Answer {
    Answer(if cmd.edited.Some? then cmd.edited.value
           else if m in s.held then s.held[m].raw else [], cmd.drop)
  }

  function DrainAnswers(s: State, resolver: nat, q: seq<Entry>): seq<Delivery>
    requires forall e <- q :: e.msg in s.held
  {
    seq(|q|, i requires 0 <= i < |q| => Delivery(resolver, q[i].msg, Answer(s.held[q[i].msg].raw, false)))
  }

  function Apply(s: State, step: Step): State
    requires Enabled(s, step)
  {
    match step
    case Call(m, raw) => s.(held := s.held[m := Held(raw, Called, None)])
    case Gate(m) =>
      if s.on then s.(held := Phased(s, m, PastGate))
      else s.(held := Phased(s, m, Returned(0, Answer(s.held[m].raw, false))))
    case Enqueue(m) =>
      var id := s.nextID + 1;
      s.(nextID := id, queue := s.queue + [Entry(m, id)], held := Phased(s, m, Waiting(id)))
    case Resolve(r, cmd) =>
      var s1 := s.(issued := s.issued + {cmd});
      (match Find(s.queue, cmd.id)
       case None => s1
       case Some(i) =>
         var m := s.queue[i].msg;
         s1.(queue := Without(s.queue, i), hands := s.hands + [Delivery(r, m, AnswerTo(s, cmd, m))]))
    case Store(on) => s.(on := on)
    case Drain(r) => s.(queue := [], hands := s.hands + DrainAnswers(s, r, s.queue))
    case Send(at) =>
      var d := s.hands[at];
      s.(hands := s.hands[..at] + s.hands[at + 1..],
         held := s.held[d.msg := s.held[d.msg].(slot := Some(d.answer))])
    case Receive(m) =>
      var h := s.held[m];
      s.(held := s.held[m := h.(phase := Returned(h.phase.id, h.slot.value), slot := None)])
  }

  function Run(s: State, steps: seq<Step>): Option<State>
    decreases |steps|
  {
    if steps == [] then Some(s)
    else if !Enabled(s, steps[0]) then None
    else Run(Apply(s, steps[0]), steps[1..])
  }

  // ----- the invariant -----

  /** The answer is the message's own bytes undropped, or what a command naming its ID said. */
  ghost predicate Justified(issued: set<Command>, h: Held, id: nat, a: Answer) {
    || a == Answer(h.raw, false)
    || exists c :: c in issued && c.id == id && a.drop == c.drop
                   && a.edited == if c.edited.Some? then c.edited.value else h.raw
  }

  /** Queued: waiting with an empty slot under the queued ID; the IDs ascend; no message twice. */
  ghost predicate QueueOk(s: State) {
    && (forall e :: e in s.queue ==>
          e.msg in s.held && s.held[e.msg].phase == Waiting(e.id) && s.held[e.msg].slot == None)
    && (forall i, j | 0 <= i < j < |s.queue| :: s.queue[i].id < s.queue[j].id)
    && (forall i, j | 0 <= i < j < |s.queue| :: s.queue[i].msg != s.queue[j].msg)
  }

  /** In hand: waiting with an empty slot, a justified answer, not queued, in one hand only. */
  ghost predicate HandsOk(s: State) {
    && (forall d :: d in s.hands ==>
          && d.msg in s.held && s.held[d.msg].phase.Waiting? && s.held[d.msg].slot == None
          && Justified(s.issued, s.held[d.msg], s.held[d.msg].phase.id, d.answer))
    && (forall i, j | 0 <= i < j < |s.hands| :: s.hands[i].msg != s.hands[j].msg)
    && (forall d, e :: d in s.hands && e in s.queue ==> d.msg != e.msg)
  }

  ghost predicate IsQueued(s: State, m: nat) { exists e :: e in s.queue && e.msg == m }

  ghost predicate InHand(s: State, m: nat) { exists d :: d in s.hands && d.msg == m }

  ghost predicate HeldOk(s: State, m: nat)
    requires m in s.held
  {
    var h := s.held[m];
    match h.phase
    case Called => h.slot == None
    case PastGate => h.slot == None
    case Waiting(id) =>
      && 0 < id <= s.nextID
      && (h.slot.None? ==> IsQueued(s, m) || InHand(s, m))
      && (h.slot.Some? ==> Justified(s.issued, h, id, h.slot.value))
    case Returned(id, a) => h.slot == None && id <= s.nextID && Justified(s.issued, h, id, a)
  }

  function IdOf(h: Held): nat {
    match h.phase
    case Waiting(id) => id
    case Returned(id, _) => id
    case _ => 0
  }

  ghost predicate IdsDistinct(s: State) {
    forall m, n :: m in s.held && n in s.held && m != n && IdOf(s.held[m]) > 0 ==>
      IdOf(s.held[m]) != IdOf(s.held[n])
  }

  ghost predicate Inv(s: State) {
    && QueueOk(s) && HandsOk(s) && IdsDistinct(s)
    && forall m :: m in s.held ==> HeldOk(s, m)
  }

  lemma CallKeeps(s: State, m: nat, raw: seq<byte>)
    requires Inv(s) && Enabled(s, Call(m, raw))
    ensures Inv(Apply(s, Call(m, raw)))
  {
    hide Justified;
  }

  lemma GateKeeps(s: State, m: nat)
    requires Inv(s) && Enabled(s, Gate(m))
    ensures Inv(Apply(s, Gate(m)))
  {
    hide HandsOk, QueueOk, HeldOk, IdsDistinct, Justified;
    var t := Apply(s, Gate(m));
    GateQueue(s, m);
    forall n | n in t.held ensures HeldOk(t, n) {
      GateHeld(s, m, n);
    }
  }

  lemma GateQueue(s: State, m: nat)
    requires Inv(s) && Enabled(s, Gate(m))
    ensures var t := Apply(s, Gate(m)); QueueOk(t) && HandsOk(t) && IdsDistinct(t)
  {
    hide HeldOk, Justified;
  }

  lemma GateHeld(s: State, m: nat, n: nat)
    requires Inv(s) && Enabled(s, Gate(m)) && n in s.held
    ensures HeldOk(Apply(s, Gate(m)), n)
  {
    hide HandsOk, QueueOk, IdsDistinct, Justified;
    OwnBytesJustified(s.issued, Apply(s, Gate(m)).held[m]);
    assert HeldOk(s, n);
  }

  lemma OwnBytesJustified(issued: set<Command>, h: Held)
    ensures forall id: nat :: Justified(issued, h, id, Answer(h.raw, false))
  {
  }

  lemma EnqueueQueue(s: State, m: nat)
    requires Inv(s) && Enabled(s, Enqueue(m))
    ensures QueueOk(Apply(s, Enqueue(m)))
  {
    hide HandsOk, IdsDistinct, Justified;
    var t := Apply(s, Enqueue(m));
    forall i | 0 <= i < |s.queue| ensures s.queue[i].id < t.nextID && s.queue[i].msg != m {
      assert s.queue[i] in s.queue;
    }
  }

  lemma EnqueueHeld(s: State, m: nat, n: nat)
    requires Inv(s) && Enabled(s, Enqueue(m)) && n in s.held
    ensures HeldOk(Apply(s, Enqueue(m)), n)
  {
    hide QueueOk, HandsOk, IdsDistinct, Justified;
    var t := Apply(s, Enqueue(m));
    assert Entry(m, t.nextID) in t.queue;
    if IsQueued(s, n) {
      var e :| e in s.queue && e.msg == n;
      assert e in t.queue;
    }
  }

  lemma EnqueueKeeps(s: State, m: nat)
    requires Inv(s) && Enabled(s, Enqueue(m))
    ensures Inv(Apply(s, Enqueue(m)))
  {
    hide QueueOk, HeldOk;
    var t := Apply(s, Enqueue(m));
    EnqueueQueue(s, m);
    forall n | n in t.held ensures HeldOk(t, n) {
      EnqueueHeld(s, m, n);
    }
    EnqueueHandsAndIds(s, m);
  }

  lemma EnqueueHandsAndIds(s: State, m: nat)
    requires Inv(s) && Enabled(s, Enqueue(m))
    ensures HandsOk(Apply(s, Enqueue(m))) && IdsDistinct(Apply(s, Enqueue(m)))
  {
    hide QueueOk, Justified;
    var t := Apply(s, Enqueue(m));
    forall n | n in s.held ensures IdOf(s.held[n]) <= s.nextID {
      assert HeldOk(s, n);
    }
  }

  lemma WithoutOne(q: seq<Entry>, i: nat)
    requires i < |q|
    ensures forall e :: e in Without(q, i) ==> e in q
    ensures forall e :: e in q && e != q[i] ==> e in Without(q, i)
    ensures var w := Without(q, i);
            |w| == |q| - 1 && forall k | 0 <= k < |w| :: w[k] == q[if k < i then k else k + 1]
  {
  }

  lemma ResolveQueue(s: State, r: nat, cmd: Command)
    requires Inv(s)
    ensures QueueOk(Apply(s, Resolve(r, cmd)))
  {
    hide HandsOk, HeldOk, IdsDistinct, Justified, Without;
    var i := Find(s.queue, cmd.id);
    if i.Some? {
      WithoutOne(s.queue, i.value);
    }
  }

  lemma MoreIssued(issued: set<Command>, cmd: Command, h: Held, id: nat, a: Answer)
    requires Justified(issued, h, id, a)
    ensures Justified(issued + {cmd}, h, id, a)
  {
    if a != Answer(h.raw, false) {
      var c :| c in issued && c.id == id && a.drop == c.drop
               && a.edited == if c.edited.Some? then c.edited.value else h.raw;
      assert c in issued + {cmd};
    }
  }

  lemma OthersQueued(s: State, i: nat)
    requires Inv(s) && i < |s.queue|
    ensures forall x :: x in Without(s.queue, i) ==> x in s.queue && x.msg != s.queue[i].msg
  {
    hide HandsOk, HeldOk, IdsDistinct;
    WithoutOne(s.queue, i);
    forall x | x in Without(s.queue, i) ensures x.msg != s.queue[i].msg {
      var k :| 0 <= k < |Without(s.queue, i)| && Without(s.queue, i)[k] == x;
      assert x == s.queue[if k < i then k else k + 1];
    }
  }

  lemma IssueKeepsHands(s: State, cmd: Command)
    requires Inv(s)
    ensures HandsOk(s.(issued := s.issued + {cmd}))
  {
    hide HeldOk, IdsDistinct, Justified, QueueOk;
    forall d | d in s.hands
      ensures Justified(s.issued + {cmd}, s.held[d.msg], s.held[d.msg].phase.id, d.answer)
    {
      MoreIssued(s.issued, cmd, s.held[d.msg], s.held[d.msg].phase.id, d.answer);
    }
  }

  lemma ResolveHands(s: State, r: nat, cmd: Command)
    requires Inv(s)
    ensures HandsOk(Apply(s, Resolve(r, cmd)))
  {
    hide HeldOk, IdsDistinct, Justified;
    IssueKeepsHands(s, cmd);
    var i := Find(s.queue, cmd.id);
    if i.Some? {
      var e := s.queue[i.value];
      assert e in s.queue;
      OthersQueued(s, i.value);
      NamedIsJustified(s.issued + {cmd}, s.held[e.msg], cmd);
      hide Without;
    }
  }

  lemma NamedIsJustified(issued: set<Command>, h: Held, cmd: Command)
    requires cmd in issued
    ensures Justified(issued, h, cmd.id, Answer(if cmd.edited.Some? then cmd.edited.value else h.raw, cmd.drop))
  {
  }

  lemma ResolveHeld(s: State, r: nat, cmd: Command, n: nat)
    requires Inv(s) && n in s.held
    ensures HeldOk(Apply(s, Resolve(r, cmd)), n)
  {
    hide HandsOk, IdsDistinct, Justified, QueueOk;
    var t, i := Apply(s, Resolve(r, cmd)), Find(s.queue, cmd.id);
    var h := s.held[n];
    if h.phase.Waiting? && h.slot.Some? {
      MoreIssued(s.issued, cmd, h, h.phase.id, h.slot.value);
    }
    if h.phase.Returned? {
      MoreIssued(s.issued, cmd, h, h.phase.id, h.phase.answer);
    }
    if i.Some? {
      WithoutOne(s.queue, i.value);
      assert t.hands[|s.hands|].msg == s.queue[i.value].msg && t.hands[|s.hands|] in t.hands;
      assert forall d :: d in s.hands ==> d in t.hands;
    }
  }

  lemma ResolveKeeps(s: State, r: nat, cmd: Command)
    requires Inv(s)
    ensures Inv(Apply(s, Resolve(r, cmd)))
  {
    hide QueueOk, HandsOk, HeldOk;
    var t := Apply(s, Resolve(r, cmd));
    ResolveQueue(s, r, cmd);
    ResolveHands(s, r, cmd);
    forall n | n in t.held ensures HeldOk(t, n) {
      ResolveHeld(s, r, cmd, n);
    }
  }

  lemma StoreKeeps(s: State, on: bool)
    requires Inv(s)
    ensures Inv(Apply(s, Store(on)))
  {
  }

  lemma DrainHeld(s: State, r: nat, n: nat)
    requires Inv(s) && Enabled(s, Drain(r)) && n in s.held
    ensures HeldOk(Apply(s, Drain(r)), n)
  {
    hide HandsOk, IdsDistinct, Justified, QueueOk;
    var t := Apply(s, Drain(r));
    assert forall d :: d in s.hands ==> d in t.hands;
    if IsQueued(s, n) {
      var k :| 0 <= k < |s.queue| && s.queue[k].msg == n;
      assert t.hands[|s.hands| + k] in t.hands;
    }
  }

  lemma DrainHands(s: State, r: nat)
    requires Inv(s) && Enabled(s, Drain(r))
    ensures HandsOk(Apply(s, Drain(r)))
  {
    hide HeldOk, IdsDistinct;
    var t, more := Apply(s, Drain(r)), DrainAnswers(s, r, s.queue);
    forall d | d in more
      ensures exists k :: 0 <= k < |s.queue| && d.msg == s.queue[k].msg && d.answer == Answer(s.held[d.msg].raw, false)
    {
      var k :| 0 <= k < |more| && more[k] == d;
    }
    forall i, j | 0 <= i < j < |t.hands| ensures t.hands[i].msg != t.hands[j].msg {
      if i < |s.hands| <= j {
        assert s.hands[i] in s.hands && s.queue[j - |s.hands|] in s.queue;
      }
    }
  }

  lemma DrainKeeps(s: State, r: nat)
    requires Inv(s) && Enabled(s, Drain(r))
    ensures Inv(Apply(s, Drain(r)))
  {
    hide HandsOk, HeldOk;
    var t := Apply(s, Drain(r));
    DrainHands(s, r);
    forall n | n in t.held ensures HeldOk(t, n) {
      DrainHeld(s, r, n);
    }
  }

  lemma OtherHands(s: State, at: nat)
    requires Inv(s) && at < |s.hands|
    ensures forall d :: d in s.hands[..at] + s.hands[at + 1..] ==> d in s.hands && d.msg != s.hands[at].msg
  {
    hide QueueOk, HeldOk, IdsDistinct, Justified;
    forall d | d in s.hands[..at] + s.hands[at + 1..] ensures d in s.hands && d.msg != s.hands[at].msg {
      var k :| 0 <= k < |s.hands| - 1 && (s.hands[..at] + s.hands[at + 1..])[k] == d;
      assert d == s.hands[if k < at then k else k + 1];
    }
  }

  lemma SendQueue(s: State, at: nat)
    requires Inv(s) && Enabled(s, Send(at))
    ensures QueueOk(Apply(s, Send(at)))
  {
    hide HeldOk, IdsDistinct, Justified;
    assert s.hands[at] in s.hands;
  }

  lemma SendHands(s: State, at: nat)
    requires Inv(s) && Enabled(s, Send(at))
    ensures HandsOk(Apply(s, Send(at)))
  {
    hide QueueOk, HeldOk, IdsDistinct, Justified;
    OtherHands(s, at);
  }

  lemma SendHeld(s: State, at: nat, n: nat)
    requires Inv(s) && Enabled(s, Send(at)) && n in s.held
    ensures HeldOk(Apply(s, Send(at)), n)
  {
    hide IdsDistinct, Justified, QueueOk;
    var t := Apply(s, Send(at));
    assert s.hands[at] in s.hands;
    forall d | d in s.hands && d != s.hands[at] ensures d in t.hands {
      var k :| 0 <= k < |s.hands| && s.hands[k] == d;
      assert d == t.hands[if k < at then k else k - 1];
    }
    SameJustified(s.issued, s.held[n], t.held[n]);
    assert HeldOk(s, n);
  }

  lemma SameJustified(issued: set<Command>, h: Held, g: Held)
    requires h.raw == g.raw
    ensures forall id: nat, a: Answer :: Justified(issued, h, id, a) <==> Justified(issued, g, id, a)
  {
  }

  lemma SendKeeps(s: State, at: nat)
    requires Inv(s) && Enabled(s, Send(at))
    ensures Inv(Apply(s, Send(at)))
  {
    hide HeldOk, HandsOk, QueueOk;
    var t := Apply(s, Send(at));
    SendQueue(s, at);
    SendHands(s, at);
    forall n | n in t.held ensures HeldOk(t, n) {
      SendHeld(s, at, n);
    }
  }

  lemma ReceiveKeeps(s: State, m: nat)
    requires Inv(s) && Enabled(s, Receive(m))
    ensures Inv(Apply(s, Receive(m)))
  {
    hide Justified, HeldOk;
    var t := Apply(s, Receive(m));
    SameJustified(s.issued, s.held[m], t.held[m]);
    forall n | n in t.held ensures HeldOk(t, n) {
      ReceiveHeld(s, m, n);
    }
  }

  lemma ReceiveHeld(s: State, m: nat, n: nat)
    requires Inv(s) && Enabled(s, Receive(m)) && n in s.held
    ensures HeldOk(Apply(s, Receive(m)), n)
  {
    hide Justified, QueueOk, HandsOk, IdsDistinct;
    SameJustified(s.issued, s.held[m], Apply(s, Receive(m)).held[m]);
    assert HeldOk(s, n) && HeldOk(s, m);
  }

  lemma StepKeeps(s: State, step: Step)
    requires Inv(s) && Enabled(s, step)
    ensures Inv(Apply(s, step))
  {
    hide Inv, Apply, Enabled;
    match step
    case Call(m, raw) => CallKeeps(s, m, raw);
    case Gate(m) => GateKeeps(s, m);
    case Enqueue(m) => EnqueueKeeps(s, m);
    case Resolve(r, cmd) => ResolveKeeps(s, r, cmd);
    case Store(on) => StoreKeeps(s, on);
    case Drain(r) => DrainKeeps(s, r);
    case Send(at) => SendKeeps(s, at);
    case Receive(m) => ReceiveKeeps(s, m);
  }

  lemma {:induction false} RunKeeps(s: State, steps: seq<Step>)
    requires Inv(s)
    ensures Run(s, steps).Some? ==> Inv(Run(s, steps).value)
    decreases |steps|
  {
    hide Inv, Apply, Enabled;
    if steps != [] && Enabled(s, steps[0]) {
      StepKeeps(s, steps[0]);
      RunKeeps(Apply(s, steps[0]), steps[1..]);
    }
  }
}
