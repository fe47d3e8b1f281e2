/** What the interceptor promises in every state that any interleaving reaches. */
module InterceptSafety {
  import opened Bytes
  import opened Intercept

  ghost predicate Reachable(s: State) {
    exists steps :: Run(START, steps) == Some(s)
  }

  lemma ReachableInv(s: State)
    requires Reachable(s)
    ensures Inv(s)
  {
    hide Apply, Run, Enabled;
    var steps :| Run(START, steps) == Some(s);
    assert Inv(START);
    RunKeeps(START, steps);
  }

  /** A waiting message is in exactly one place: the queue, one hand, or its filled slot. No other message is in any. */
  lemma ExactlyOnePlace(s: State, m: nat)
    requires Reachable(s) && m in s.held
    ensures var queued, inHand, answered := IsQueued(s, m), InHand(s, m), s.held[m].slot.Some?;
            if s.held[m].phase.Waiting?
            then (queued || inHand || answered) && !(queued && inHand) && !(queued && answered) && !(inHand && answered)
            else !queued && !inHand && !answered
    ensures forall i, j | 0 <= i < j < |s.queue| :: !(s.queue[i].msg == m == s.queue[j].msg)
    ensures forall i, j | 0 <= i < j < |s.hands| :: !(s.hands[i].msg == m == s.hands[j].msg)
  {
    ReachableInv(s);
    assert HeldOk(s, m);
  }

  /** The send on the one-slot channel never blocks: whoever is next in a resolver's hands can be answered. */
  lemma SendNeverBlocks(s: State, at: nat)
    requires Reachable(s) && FirstOfResolver(s.hands, at)
    ensures Enabled(s, Send(at))
  {
    ReachableInv(s);
    assert s.hands[at] in s.hands;
  }

  /** Draining never meets an unknown message. */
  lemma DrainAlwaysEnabled(s: State, r: nat)
    requires Reachable(s)
    ensures Enabled(s, Drain(r))
  {
    ReachableInv(s);
  }

  /** Queued IDs strictly ascend, and no two messages ever share an ID. */
  lemma IdsAscend(s: State)
    requires Reachable(s)
    ensures forall i, j | 0 <= i < j < |s.queue| :: s.queue[i].id < s.queue[j].id <= s.nextID
    ensures forall m, n :: m in s.held && n in s.held && m != n && IdOf(s.held[m]) > 0 ==>
              IdOf(s.held[m]) != IdOf(s.held[n])
  {
    ReachableInv(s);
    forall j | 0 <= j < |s.queue| ensures s.queue[j].id <= s.nextID {
      assert s.queue[j] in s.queue && HeldOk(s, s.queue[j].msg);
    }
  }

  /** A message comes back as its own bytes, undropped, unless a Forward or Drop named its ID. */
  lemma OnlyNamedMessagesChange(s: State, m: nat)
    requires Reachable(s) && m in s.held && s.held[m].phase.Returned?
    ensures var h := s.held[m];
            || h.phase.answer == Answer(h.raw, false)
            || exists c :: c in s.issued && c.id == h.phase.id && h.phase.answer.drop == c.drop
                           && h.phase.answer.edited == if c.edited.Some? then c.edited.value else h.raw
  {
    ReachableInv(s);
    assert HeldOk(s, m);
  }

  /** Once answered a message stays as it was answered: no step gives it a second result. */
  lemma AnsweredOnce(s: State, step: Step, m: nat)
    requires Reachable(s) && Enabled(s, step) && m in s.held
    ensures s.held[m].phase.Returned? ==> Apply(s, step).held[m] == s.held[m]
    ensures s.held[m].slot.Some? && Apply(s, step).held[m].slot.Some? ==>
              Apply(s, step).held[m].slot == s.held[m].slot
  {
    ReachableInv(s);
    if step.Send? {
      assert s.hands[step.at] in s.hands;
    }
  }

  // ----- what a command does -----

  /** The message has left the queue for good, and whatever it returns with is this. */
  ghost predicate Decided(s: State, m: nat, id: nat, raw: seq<byte>, a: Answer) {
    && m in s.held && s.held[m].raw == raw && !IsQueued(s, m)
    && (forall d :: d in s.hands && d.msg == m ==> d.answer == a)
    && match s.held[m].phase
       case Waiting(i) => i == id && (s.held[m].slot.Some? ==> s.held[m].slot.value == a)
       case Returned(i, x) => i == id && x == a && s.held[m].slot.None?
       case _ => false
  }

  lemma QueueGrows(s: State, x: Entry, m: nat)
    requires !IsQueued(s, m) && x.msg != m
    ensures !IsQueued(s.(queue := s.queue + [x]), m)
  {
  }

  lemma DecidedStays(s: State, step: Step, m: nat, id: nat, raw: seq<byte>, a: Answer)
    requires Inv(s) && Enabled(s, step) && Decided(s, m, id, raw, a)
    ensures Decided(Apply(s, step), m, id, raw, a)
  {
    hide HeldOk, IdsDistinct, Justified, QueueOk;
    var t := Apply(s, step);
    match step
    case Call(_, _) =>
    case Gate(_) =>
    case Enqueue(n) => QueueGrows(s, Entry(n, s.nextID + 1), m);
    case Resolve(r, cmd) => ResolveOther(s, r, cmd, m);
    case Store(_) =>
    case Drain(r) => DrainOther(s, r, m);
    case Send(at) => assert s.hands[at] in s.hands; OtherHands(s, at);
    case Receive(_) =>
  }

  /** A message that is not queued is not taken. */
  lemma ResolveOther(s: State, r: nat, cmd: Command, m: nat)
    requires !IsQueued(s, m)
    ensures var t := Apply(s, Resolve(r, cmd));
            t.held == s.held && !IsQueued(t, m) && forall d :: d in t.hands && d.msg == m ==> d in s.hands
  {
    var i := Find(s.queue, cmd.id);
    if i.Some? {
      assert s.queue[i.value] in s.queue;
      WithoutOne(s.queue, i.value);
      hide Without;
    }
  }

  lemma DrainOther(s: State, r: nat, m: nat)
    requires !IsQueued(s, m) && Enabled(s, Drain(r))
    ensures var t := Apply(s, Drain(r));
            t.held == s.held && !IsQueued(t, m) && forall d :: d in t.hands && d.msg == m ==> d in s.hands
  {
    var more := DrainAnswers(s, r, s.queue);
    forall d | d in more ensures d.msg != m {
      var k :| 0 <= k < |more| && more[k] == d;
      assert s.queue[k] in s.queue;
    }
  }

  lemma {:induction false} DecidedForGood(s: State, steps: seq<Step>, m: nat, id: nat, raw: seq<byte>, a: Answer)
    requires Inv(s) && Decided(s, m, id, raw, a)
    ensures Run(s, steps).Some? ==> Decided(Run(s, steps).value, m, id, raw, a)
    decreases |steps|
  {
    hide Inv, Apply, Enabled, Decided;
    if steps != [] && Enabled(s, steps[0]) {
      StepKeeps(s, steps[0]);
      DecidedStays(s, steps[0], m, id, raw, a);
      DecidedForGood(Apply(s, steps[0]), steps[1..], m, id, raw, a);
    }
  }

  /** What the caller of a Hold gets, whenever it gets it. */
  ghost predicate ComesBackAs(t: State, m: nat, id: nat, raw: seq<byte>, edited: seq<byte>, drop: bool) {
    && m in t.held && t.held[m].raw == raw && !IsQueued(t, m)
    && (t.held[m].slot.Some? ==> t.held[m].slot.value == Answer(edited, drop))
    && (if t.held[m].phase.Returned? then t.held[m].phase == Returned(id, Answer(edited, drop))
        else t.held[m].phase == Waiting(id))
  }

  /** A Forward or Drop of a queued message decides it: it comes back with the command's verdict and bytes, its own if there are none. */
  lemma ResolveDecides(s: State, e: Entry, r: nat, cmd: Command, steps: seq<Step>)
    requires Reachable(s) && e in s.queue && cmd.id == e.id
    ensures e.msg in s.held
    ensures var after := Run(Apply(s, Resolve(r, cmd)), steps);
            var raw := s.held[e.msg].raw;
            after.Some? ==>
              ComesBackAs(after.value, e.msg, e.id, raw, if cmd.edited.Some? then cmd.edited.value else raw, cmd.drop)
  {
    hide Reachable, Run;
    ReachableInv(s);
    StepKeeps(s, Resolve(r, cmd));
    var raw := s.held[e.msg].raw;
    var a := Answer(if cmd.edited.Some? then cmd.edited.value else raw, cmd.drop);
    ResolveTakes(s, e, r, cmd);
    hide Inv, Apply;
    DecidedForGood(Apply(s, Resolve(r, cmd)), steps, e.msg, e.id, raw, a);
  }

  lemma ResolveTakes(s: State, e: Entry, r: nat, cmd: Command)
    requires Inv(s) && e in s.queue && cmd.id == e.id
    ensures var raw := s.held[e.msg].raw;
            Decided(Apply(s, Resolve(r, cmd)), e.msg, e.id, raw,
                    Answer(if cmd.edited.Some? then cmd.edited.value else raw, cmd.drop))
  {
    hide HeldOk, IdsDistinct, Justified;
    var k :| 0 <= k < |s.queue| && s.queue[k] == e;
    var i := Find(s.queue, cmd.id);
    assert i == Some(k);
    OthersQueued(s, k);
    hide Without;
    forall d | d in s.hands ensures d.msg != e.msg {
    }
  }

  /** Turning interception off sends every queued message on as it is. */
  lemma DrainDecides(s: State, e: Entry, r: nat, steps: seq<Step>)
    requires Reachable(s) && e in s.queue
    ensures Enabled(s, Drain(r)) && e.msg in s.held
    ensures var after := Run(Apply(s, Drain(r)), steps);
            var raw := s.held[e.msg].raw;
            after.Some? ==> ComesBackAs(after.value, e.msg, e.id, raw, raw, false)
  {
    hide Reachable, Run;
    ReachableInv(s);
    assert Enabled(s, Drain(r));
    StepKeeps(s, Drain(r));
    var raw := s.held[e.msg].raw;
    DrainTakes(s, e, r);
    hide Inv, Apply;
    DecidedForGood(Apply(s, Drain(r)), steps, e.msg, e.id, raw, Answer(raw, false));
  }

  lemma DrainTakes(s: State, e: Entry, r: nat)
    requires Inv(s) && e in s.queue && Enabled(s, Drain(r))
    ensures var raw := s.held[e.msg].raw; Decided(Apply(s, Drain(r)), e.msg, e.id, raw, Answer(raw, false))
  {
    hide HeldOk, IdsDistinct, Justified;
    var more := DrainAnswers(s, r, s.queue);
    forall d | d in more && d.msg == e.msg ensures d.answer == Answer(s.held[e.msg].raw, false) {
      var k :| 0 <= k < |more| && more[k] == d;
    }
  }

  /** Nothing but a command with its ID or a drain takes a message out of the queue. */
  lemma QueuedStays(s: State, e: Entry, step: Step)
    requires Reachable(s) && e in s.queue && Enabled(s, step)
    ensures e in Apply(s, step).queue <==> !step.Drain? && !(step.Resolve? && step.cmd.id == e.id)
  {
    ReachableInv(s);
    if step.Resolve? {
      ResolveLeaves(s, e, step.resolver, step.cmd);
    } else {
      hide Inv;
    }
  }

  lemma ResolveLeaves(s: State, e: Entry, r: nat, cmd: Command)
    requires Inv(s) && e in s.queue
    ensures e in Apply(s, Resolve(r, cmd)).queue <==> cmd.id != e.id
  {
    hide HandsOk, HeldOk, IdsDistinct, Justified, Without;
    var i := Find(s.queue, cmd.id);
    if i.Some? {
      WithoutOne(s.queue, i.value);
      OthersQueued(s, i.value);
      if e.id == cmd.id {
        SameIdSameEntry(s, e, s.queue[i.value]);
      }
    }
  }

  lemma SameIdSameEntry(s: State, e: Entry, x: Entry)
    requires Inv(s) && e in s.queue && x in s.queue && e.id == x.id
    ensures e == x
  {
    hide HandsOk, HeldOk, IdsDistinct;
  }

  // ----- what the gate does -----

  /** Held in earnest: it waits for its place in the queue, waits, or has come back under an ID. */
  ghost predicate IsHeld(s: State, m: nat) {
    m in s.held && match s.held[m].phase
                   case Called => false
                   case PastGate => true
                   case Waiting(id) => id > 0
                   case Returned(id, _) => id > 0
  }

  lemma HeldStays(s: State, step: Step, m: nat)
    requires Inv(s) && Enabled(s, step) && IsHeld(s, m)
    ensures IsHeld(Apply(s, step), m)
  {
    hide QueueOk, HandsOk, HeldOk, IdsDistinct;
  }

  lemma {:induction false} HeldForGood(s: State, steps: seq<Step>, m: nat)
    requires Inv(s) && IsHeld(s, m)
    ensures Run(s, steps).Some? ==> IsHeld(Run(s, steps).value, m)
    decreases |steps|
  {
    hide Inv, Apply, Enabled, IsHeld;
    if steps != [] && Enabled(s, steps[0]) {
      StepKeeps(s, steps[0]);
      HeldStays(s, steps[0], m);
      HeldForGood(Apply(s, steps[0]), steps[1..], m);
    }
  }

  /**
   The switch is read once: off, the message comes back at once as it is, and stays so; on, it never
   comes back without having been queued under an ID of its own.
   */
  lemma GateDecides(s: State, m: nat, steps: seq<Step>)
    requires Reachable(s) && Enabled(s, Gate(m))
    ensures var after := Run(Apply(s, Gate(m)), steps);
            after.Some? ==>
              if s.on then IsHeld(after.value, m)
              else ComesBackAs(after.value, m, 0, s.held[m].raw, s.held[m].raw, false) && after.value.held[m].phase.Returned?
  {
    hide Reachable, Run;
    ReachableInv(s);
    StepKeeps(s, Gate(m));
    var t, raw := Apply(s, Gate(m)), s.held[m].raw;
    if s.on {
      HeldForGood(t, steps, m);
    } else {
      NotGoneIn(s, m);
      DecidedForGood(t, steps, m, 0, raw, Answer(raw, false));
      ReturnedForGood(t, steps, m);
    }
  }

  lemma NotGoneIn(s: State, m: nat)
    requires Inv(s) && Enabled(s, Gate(m)) && !s.on
    ensures Decided(Apply(s, Gate(m)), m, 0, s.held[m].raw, Answer(s.held[m].raw, false))
  {
    hide IdsDistinct, Justified;
    assert HeldOk(s, m);
  }

  lemma {:induction false} ReturnedForGood(s: State, steps: seq<Step>, m: nat)
    requires Inv(s) && m in s.held && s.held[m].phase.Returned?
    ensures Run(s, steps).Some? ==> m in Run(s, steps).value.held && Run(s, steps).value.held[m].phase.Returned?
    decreases |steps|
  {
    hide Inv;
    if steps != [] && Enabled(s, steps[0]) {
      ReturnedStays(s, steps[0], m);
      StepKeeps(s, steps[0]);
      hide Apply, Enabled;
      ReturnedForGood(Apply(s, steps[0]), steps[1..], m);
    }
  }

  lemma ReturnedStays(s: State, step: Step, m: nat)
    requires Inv(s) && Enabled(s, step) && m in s.held && s.held[m].phase.Returned?
    ensures m in Apply(s, step).held && Apply(s, step).held[m].phase.Returned?
  {
    hide Inv;
  }

  /** Past the gate a message gets the next ID and the last place in the queue. */
  lemma EnqueueWaits(s: State, m: nat)
    requires Reachable(s) && Enabled(s, Enqueue(m))
    ensures var t := Apply(s, Enqueue(m));
            && t.queue == s.queue + [Entry(m, s.nextID + 1)] && t.held[m].phase == Waiting(s.nextID + 1)
            && t.held[m].slot == None && t.held[m].raw == s.held[m].raw
            && forall n :: n in s.held ==> IdOf(s.held[n]) <= s.nextID
  {
    ReachableInv(s);
    assert HeldOk(s, m);
    forall n | n in s.held ensures IdOf(s.held[n]) <= s.nextID {
      assert HeldOk(s, n);
    }
  }

  /** A command that names nobody in the queue does nothing. */
  lemma UnknownIgnored(s: State, r: nat, cmd: Command)
    requires forall e <- s.queue :: e.id != cmd.id
    ensures Apply(s, Resolve(r, cmd)) == s.(issued := s.issued + {cmd})
  {
    assert forall k | 0 <= k < |s.queue| :: s.queue[k] in s.queue;
  }

  /** Whoever is next in a resolver's hands comes back by one send and one receive, with the answer in the hand. */
  lemma AnsweredComesBack(s: State, at: nat)
    requires Reachable(s) && FirstOfResolver(s.hands, at)
    ensures s.hands[at].msg in s.held
    ensures var d := s.hands[at];
            var t := Run(s, [Send(at), Receive(d.msg)]);
            t.Some? && d.msg in t.value.held && t.value.held[d.msg].phase == Returned(IdOf(s.held[d.msg]), d.answer)
  {
    SendNeverBlocks(s, at);
    ReachableInv(s);
    var d := s.hands[at];
    assert d in s.hands;
    var steps := [Send(at), Receive(d.msg)];
    hide Inv, Reachable;
    var s1 := Apply(s, Send(at));
    assert steps[1..] == [Receive(d.msg)] && steps[1..][1..] == [];
    assert Run(s1, steps[1..]) == Run(Apply(s1, Receive(d.msg)), []);
  }
}
