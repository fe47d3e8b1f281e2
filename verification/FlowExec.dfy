/**
 The scenario runner: a recursive walk over an arbitrary graph, cyclic or with nested loops, made
 finite by one global step budget. Requests, arrow conditions, loop sources and cancellation are
 unknown: each is chosen freely whenever the source asks for it.
 */
module FlowExec {
  import opened Bytes

  const MAX_RUN_STEPS := 10000
  const MAX_HISTORY_RUNS := 20

  datatype NodeKind = KStart | KRequest | KCondition | KLoop | KDelay | KSetVar | KNote | KWSRequest | KGQLRequest | KWSSend

  predicate IsRequest(k: NodeKind) { k.KRequest? || k.KWSRequest? || k.KGQLRequest? || k.KWSSend? }

  datatype Edge = Edge(id: string, to: string)

  /** `count` is the number of rounds of a loop without a source; `entries` are the inner nodes it starts. */
  datatype Node = Node(kind: NodeKind, outs: seq<Edge>, count: nat, hasSource: bool, entries: seq<string>)

  type Plan = map<string, Node>

  datatype Status = Running | Good | Bad

  datatype Entry = Entry(node: string, ok: bool)

  datatype Record = Record(seqNo: nat, done: bool, stopped: bool, failed: bool, entries: seq<Entry>)

  function OkCount(es: seq<Entry>): (n: nat)
    ensures n <= |es|
  {
    if es == [] then 0 else OkCount(es[..|es| - 1]) + if es[|es| - 1].ok then 1 else 0
  }

  // ----- the trace of a run -----

  /** Why a visit was made: the run began, an arrow passed, or a loop started its entry node number `slot`. */
  datatype Origin = Root | Arrow(answer: nat) | Entered(visit: nat, slot: nat)

  /**
   What the condition of an arrow said: the arrow of the node that visit number `visit` was made to, and the
   number `at` that the next visit was going to have.
   */
  datatype Answer = Answer(visit: nat, arrow: nat, edge: string, pass: bool, at: nat)

  /** The arrows that one visit had answered, in order. */
  function AnswersOf(answers: seq<Answer>, v: nat): seq<nat> {
    if answers == [] then []
    else
      var a := answers[|answers| - 1];
      AnswersOf(answers[..|answers| - 1], v) + if a.visit == v then [a.arrow] else []
  }

  /** The entry nodes that one visit of a loop started, in order. */
  function StartsOf(origins: seq<Origin>, v: nat): seq<nat> {
    if origins == [] then []
    else
      var o := origins[|origins| - 1];
      StartsOf(origins[..|origins| - 1], v) + if o.Entered? && o.visit == v then [o.slot] else []
  }

  function UpTo(n: nat): seq<nat> { seq(n, i requires 0 <= i < n => i) }

  /** All slots in order, round after round. */
  function RoundsOf(rounds: nat, slots: nat): seq<nat> {
    if rounds == 0 then [] else RoundsOf(rounds - 1, slots) + UpTo(slots)
  }

  /** The last answer of an arrow with this identifier. */
  function LastAnswer(answers: seq<Answer>, edge: string): Option<bool> {
    if answers == [] then None
    else
      var a := answers[|answers| - 1];
      if a.edge == edge then Some(a.pass) else LastAnswer(answers[..|answers| - 1], edge)
  }

  /** Arrows are shown as their last answer says. */
  ghost predicate Shown(edgeSt: map<string, Status>, answers: seq<Answer>) {
    forall e: string :: match LastAnswer(answers, e)
                        case None => e !in edgeSt
                        case Some(pass) => e in edgeSt && edgeSt[e] == if pass then Good else Bad
  }

  /** The visits of request nodes, in order. */
  function RequestsOf(plan: Plan, visits: seq<string>): seq<string> {
    if visits == [] then []
    else
      var id := visits[|visits| - 1];
      RequestsOf(plan, visits[..|visits| - 1]) + if id in plan && IsRequest(plan[id].kind) then [id] else []
  }

  function Names(es: seq<Entry>): seq<string> { seq(|es|, i requires 0 <= i < |es| => es[i].node) }

  predicate AnswerOk(plan: Plan, visits: seq<string>, a: Answer) {
    && a.visit < |visits| && a.visit < a.at <= |visits| && visits[a.visit] in plan
    && a.arrow < |plan[visits[a.visit]].outs| && plan[visits[a.visit]].outs[a.arrow].id == a.edge
  }

  predicate OriginOk(plan: Plan, visits: seq<string>, answers: seq<Answer>, j: nat, o: Origin)
    requires j < |visits|
  {
    match o
    case Root => j == 0
    case Arrow(k) =>
      && k < |answers| && AnswerOk(plan, visits, answers[k]) && answers[k].pass && answers[k].at == j
      && plan[visits[answers[k].visit]].outs[answers[k].arrow].to == visits[j]
    case Entered(v, e) =>
      && v < j && visits[v] in plan && plan[visits[v]].kind.KLoop?
      && e < |plan[visits[v]].entries| && plan[visits[v]].entries[e] == visits[j]
  }

  /** Every answer is about an arrow of a visited node, and every visit has its reason. */
  ghost predicate Sound(plan: Plan, visits: seq<string>, origins: seq<Origin>, answers: seq<Answer>) {
    && |origins| == |visits|
    && (forall k | 0 <= k < |answers| :: AnswerOk(plan, visits, answers[k]))
    && (forall j | 0 <= j < |origins| :: OriginOk(plan, visits, answers, j, origins[j]))
  }

  /** Each of the first n answers, if true, was followed: the very next visit was made for it. */
  ghost predicate Followed(origins: seq<Origin>, answers: seq<Answer>, n: nat)
    requires n <= |answers|
  {
    forall k | 0 <= k < n :: answers[k].pass ==> answers[k].at < |origins| && origins[answers[k].at] == Arrow(k)
  }

  /**
   The node of a visit has had all its arrows answered, each once and in order; and if it is a loop it has
   started all its entry nodes, in order and round after round, as often as it counts or some array has items.
   */
  ghost predicate Done(plan: Plan, visits: seq<string>, origins: seq<Origin>, answers: seq<Answer>, v: nat)
    requires v < |visits|
  {
    var id := visits[v];
    if id !in plan || plan[id].kind.KNote? then AnswersOf(answers, v) == [] && StartsOf(origins, v) == []
    else
      && AnswersOf(answers, v) == UpTo(|plan[id].outs|)
      && Looped(plan[id], StartsOf(origins, v))
  }

  ghost predicate Looped(n: Node, starts: seq<nat>) {
    if !n.kind.KLoop? then starts == []
    else if n.hasSource then exists rounds: nat :: starts == RoundsOf(rounds, |n.entries|)
    else starts == RoundsOf(n.count, |n.entries|)
  }

  /** Every visit from number `from` on is done. */
  ghost predicate AllDone(plan: Plan, visits: seq<string>, origins: seq<Origin>, answers: seq<Answer>, from: nat) {
    forall v | from <= v < |visits| :: Done(plan, visits, origins, answers, v)
  }

  /** Only visits from number n on have answered anything since. */
  ghost predicate AnswersFrom(before: seq<Answer>, after: seq<Answer>, n: nat) {
    before <= after && forall k | |before| <= k < |after| :: after[k].visit >= n
  }

  ghost predicate StartsFrom(before: seq<Origin>, after: seq<Origin>, n: nat) {
    before <= after && forall j | |before| <= j < |after| :: after[j].Entered? ==> after[j].visit >= n
  }

  // ----- how the trace grows -----

  lemma AnswersOfNext(answers: seq<Answer>, a: Answer, v: nat)
    ensures AnswersOf(answers + [a], v) == AnswersOf(answers, v) + if a.visit == v then [a.arrow] else []
  {
    assert (answers + [a])[..|answers|] == answers;
  }

  lemma StartsOfNext(origins: seq<Origin>, o: Origin, v: nat)
    ensures StartsOf(origins + [o], v) == StartsOf(origins, v) + if o.Entered? && o.visit == v then [o.slot] else []
  {
    assert (origins + [o])[..|origins|] == origins;
  }

  lemma {:induction false} AnswersKept(before: seq<Answer>, after: seq<Answer>, v: nat)
    requires before <= after && forall k | |before| <= k < |after| :: after[k].visit != v
    ensures AnswersOf(after, v) == AnswersOf(before, v)
    decreases |after|
  {
    if |after| == |before| {
      assert after == before;
    } else {
      var n := |after| - 1;
      AnswersKept(before, after[..n], v);
      assert after[n].visit != v;
    }
  }

  lemma {:induction false} StartsKept(before: seq<Origin>, after: seq<Origin>, v: nat)
    requires before <= after && forall j | |before| <= j < |after| :: after[j].Entered? ==> after[j].visit != v
    ensures StartsOf(after, v) == StartsOf(before, v)
    decreases |after|
  {
    if |after| == |before| {
      assert after == before;
    } else {
      var n := |after| - 1;
      StartsKept(before, after[..n], v);
      assert !(after[n].Entered? && after[n].visit == v);
    }
  }

  lemma FromTrans(a: seq<Answer>, b: seq<Answer>, c: seq<Answer>, n: nat)
    requires AnswersFrom(a, b, n) && AnswersFrom(b, c, n)
    ensures AnswersFrom(a, c, n)
  {
  }

  lemma StartsTrans(a: seq<Origin>, b: seq<Origin>, c: seq<Origin>, n: nat)
    requires StartsFrom(a, b, n) && StartsFrom(b, c, n)
    ensures StartsFrom(a, c, n)
  {
  }

  /** A visit that has just been made has answered and started nothing. */
  lemma NothingYet(plan: Plan, visits: seq<string>, origins: seq<Origin>, answers: seq<Answer>)
    requires Sound(plan, visits, origins, answers)
    ensures AnswersOf(answers, |visits|) == [] && StartsOf(origins, |visits|) == []
  {
    forall k | 0 <= k < |answers| ensures answers[k].visit != |visits| {
      assert AnswerOk(plan, visits, answers[k]);
    }
    AnswersKept([], answers, |visits|);
    forall j | 0 <= j < |origins| ensures origins[j].Entered? ==> origins[j].visit != |visits| {
      assert OriginOk(plan, visits, answers, j, origins[j]);
    }
    StartsKept([], origins, |visits|);
  }

  /** Visits that are done stay done while visit v and new ones answer and start. */
  lemma StillDone(plan: Plan, v: nat, vis0: seq<string>, or0: seq<Origin>, an0: seq<Answer>, vis1: seq<string>, or1: seq<Origin>, an1: seq<Answer>)
    requires AllDone(plan, vis0, or0, an0, v + 1) && vis0 <= vis1 && or0 <= or1 && an0 <= an1
    requires forall k | |an0| <= k < |an1| :: an1[k].visit == v || an1[k].visit >= |vis0|
    requires forall j | |or0| <= j < |or1| :: or1[j].Entered? ==> or1[j].visit == v || or1[j].visit >= |vis0|
    requires AllDone(plan, vis1, or1, an1, |vis0|)
    ensures AllDone(plan, vis1, or1, an1, v + 1)
  {
    hide AnswersOf, StartsOf, Looped;
    forall x | v + 1 <= x < |vis1| ensures Done(plan, vis1, or1, an1, x) {
      if x < |vis0| {
        AnswersKept(an0, an1, x);
        StartsKept(or0, or1, x);
        assert Done(plan, vis0, or0, an0, x);
      }
    }
  }

  lemma SoundStays(plan: Plan, visits: seq<string>, a: Answer, j: nat, o: Origin, answers: seq<Answer>, more: seq<Answer>, vis1: seq<string>)
    requires visits <= vis1 && answers <= more
    ensures AnswerOk(plan, visits, a) ==> AnswerOk(plan, vis1, a)
    ensures j < |visits| && OriginOk(plan, visits, answers, j, o) ==> OriginOk(plan, vis1, more, j, o)
  {
  }

  lemma SoundVisit(plan: Plan, visits: seq<string>, origins: seq<Origin>, answers: seq<Answer>, id: string, o: Origin)
    requires Sound(plan, visits, origins, answers) && OriginOk(plan, visits + [id], answers, |visits|, o)
    ensures Sound(plan, visits + [id], origins + [o], answers)
  {
    hide AnswerOk, OriginOk;
    var vis1, or1 := visits + [id], origins + [o];
    forall k | 0 <= k < |answers| ensures AnswerOk(plan, vis1, answers[k]) {
      SoundStays(plan, visits, answers[k], 0, Root, answers, answers, vis1);
    }
    forall j | 0 <= j < |or1| ensures OriginOk(plan, vis1, answers, j, or1[j]) {
      if j < |origins| {
        SoundStays(plan, visits, Answer(0, 0, "", false, 0), j, origins[j], answers, answers, vis1);
      }
    }
  }

  lemma SoundAnswer(plan: Plan, visits: seq<string>, origins: seq<Origin>, answers: seq<Answer>, a: Answer)
    requires Sound(plan, visits, origins, answers) && AnswerOk(plan, visits, a)
    ensures Sound(plan, visits, origins, answers + [a])
  {
    hide AnswerOk, OriginOk;
    forall j | 0 <= j < |origins| ensures OriginOk(plan, visits, answers + [a], j, origins[j]) {
      SoundStays(plan, visits, a, j, origins[j], answers, answers + [a], visits);
    }
  }

  /** The visit that an answer called for has been made. */
  lemma FollowedVisit(origins: seq<Origin>, answers: seq<Answer>, o: Origin)
    requires o.Arrow? ==> o.answer == |answers| - 1 && answers[o.answer].at == |origins|
    requires Followed(origins, answers, if o.Arrow? then |answers| - 1 else |answers|)
    ensures Followed(origins + [o], answers, |answers|)
  {
  }

  lemma FollowedAnswer(origins: seq<Origin>, answers: seq<Answer>, a: Answer)
    requires Followed(origins, answers, |answers|)
    ensures Followed(origins, answers + [a], |answers|)
    ensures !a.pass ==> Followed(origins, answers + [a], |answers| + 1)
  {
  }

  lemma ShownNext(edgeSt: map<string, Status>, answers: seq<Answer>, a: Answer)
    requires Shown(edgeSt, answers)
    ensures Shown(edgeSt[a.edge := if a.pass then Good else Bad], answers + [a])
  {
    var more := answers + [a];
    assert more[..|answers|] == answers;
    forall e: string ensures LastAnswer(more, e) == if e == a.edge then Some(a.pass) else LastAnswer(answers, e) {
    }
  }

  /** One answer to one arrow, and whatever later visits answered behind it; without a pass there were none. */
  ghost predicate OneAnswer(an0: seq<Answer>, an1: seq<Answer>, vis0: seq<string>, vis1: seq<string>, v: nat, i: nat, e: Edge, pass: bool) {
    var a := Answer(v, i, e.id, pass, |vis0|);
    && AnswersFrom(an0 + [a], an1, |vis0|)
    && (!pass ==> an1 == an0 + [a] && vis1 == vis0)
  }

  lemma IdleDone(plan: Plan, visits: seq<string>, origins: seq<Origin>, answers: seq<Answer>, v: nat)
    requires v == |visits| - 1 && (visits[v] !in plan || plan[visits[v]].kind.KNote?)
    requires AnswersOf(answers, v) == [] && StartsOf(origins, v) == []
    ensures AllDone(plan, visits, origins, answers, v)
  {
  }

  lemma LastDone(plan: Plan, visits: seq<string>, origins: seq<Origin>, answers: seq<Answer>, v: nat)
    requires v < |visits| && visits[v] in plan && !plan[visits[v]].kind.KNote?
    requires AnswersOf(answers, v) == UpTo(|plan[visits[v]].outs|) && Looped(plan[visits[v]], StartsOf(origins, v))
    requires AllDone(plan, visits, origins, answers, v + 1)
    ensures AllDone(plan, visits, origins, answers, v)
  {
    hide Looped, AnswersOf, StartsOf, UpTo;
  }

  lemma NoneLeft(plan: Plan, visits: seq<string>, origins: seq<Origin>, answers: seq<Answer>)
    ensures AllDone(plan, visits, origins, answers, |visits|)
  {
  }

  lemma RoundsLoop(n: Node, items: Option<nat>, starts: seq<nat>)
    requires n.kind.KLoop? && starts == RoundsOf(RoundCount(n, items), |n.entries|)
    ensures Looped(n, starts)
  {
    hide RoundsOf;
  }

  lemma NoLoop(n: Node)
    requires !n.kind.KLoop?
    ensures Looped(n, [])
  {
  }

  lemma RequestsNext(plan: Plan, visits: seq<string>, id: string)
    ensures RequestsOf(plan, visits + [id])
      == RequestsOf(plan, visits) + if id in plan && IsRequest(plan[id].kind) then [id] else []
  {
    assert (visits + [id])[..|visits|] == visits;
  }

  lemma OkNext(es: seq<Entry>, e: Entry)
    ensures OkCount(es + [e]) == OkCount(es) + if e.ok then 1 else 0
  {
    assert (es + [e])[..|es|] == es;
  }

  lemma NamesNext(es: seq<Entry>, e: Entry)
    ensures Names(es + [e]) == Names(es) + [e.node]
  {
  }

  /** How often a loop starts its entry nodes. */
  function RoundCount(n: Node, items: Option<nat>): nat {
    if !n.hasSource then n.count else if items.Some? then items.value else 0
  }

  class Run {
    const plan: Plan
    var steps: nat
    var okReq: nat
    var failReq: nat
    var anyFail: bool
    var limitHit: bool
    var cancelled: bool
    var nodeSt: map<string, Status>
    var edgeSt: map<string, Status>
    var entries: seq<Entry>
    // Every counted visit in order and its reason, every answer of a condition, and the loops that missed their array.
    ghost var visits: seq<string>
    ghost var origins: seq<Origin>
    ghost var answers: seq<Answer>
    ghost var missed: nat

    /** Nothing has happened yet. */
    ghost predicate Untouched()
      reads this
    {
      Inv() && !cancelled && !limitHit && Quiet() && visits == [] && answers == [] && entries == []
    }

    constructor (plan: Plan)
      ensures this.plan == plan && Untouched()
    {
      this.plan := plan;
      steps, okReq, failReq := 0, 0, 0;
      anyFail, limitHit, cancelled := false, false, false;
      nodeSt, edgeSt, entries := map[], map[], [];
      visits, origins, answers, missed := [], [], [], 0;
    }

    ghost predicate Counts()
      reads this
    {
      && |visits| == steps <= MAX_RUN_STEPS
      && |entries| == okReq + failReq <= steps
      && (limitHit ==> steps == MAX_RUN_STEPS)
      && (!cancelled ==> okReq == OkCount(entries))
      && (!cancelled ==> (anyFail <==> failReq > 0 || missed > 0))
    }

    /** The trace accounts for everything, and arrows are shown as they were answered. */
    ghost predicate Traced()
      reads this
    {
      Sound(plan, visits, origins, answers) && Shown(edgeSt, answers)
    }

    /** The record has one entry for each visit of a request, in order. */
    ghost predicate Recorded()
      reads this
    {
      !cancelled ==> Names(entries) == RequestsOf(plan, visits)
    }

    /** What holds whenever a visit begins or ends; cancelled or not. */
    ghost predicate Base()
      reads this
    {
      Counts() && Traced() && Recorded() && (!cancelled ==> Quiet())
    }

    /** The same, and nothing that passed is still to be followed. */
    ghost predicate Inv()
      reads this
    {
      Base() && (Whole() ==> Followed(origins, answers, |answers|))
    }

    /** No node is shown as running. */
    ghost predicate Quiet()
      reads this`nodeSt
    {
      forall id :: id in nodeSt ==> nodeSt[id] != Running
    }

    ghost predicate Whole()
      reads this`cancelled, this`limitHit
    {
      !cancelled && !limitHit
    }

    /** Every visit from number `from` on is done. */
    ghost predicate DoneFrom(from: nat)
      reads this
    {
      AllDone(plan, visits, origins, answers, from)
    }

    /** Visit number v was made to this node of the plan. */
    ghost predicate At(v: nat, id: string, n: Node)
      reads this`visits
    {
      v < |visits| && visits[v] == id && id in plan && plan[id] == n && !n.kind.KNote?
    }

    /** The next visit may be made to this node for this reason. */
    ghost predicate Ready(id: string, o: Origin)
      reads this
    {
      && OriginOk(plan, visits + [id], answers, |visits|, o)
      && (o.Arrow? ==> o.answer == |answers| - 1)
      && (Whole() ==> Followed(origins, answers, if o.Arrow? then |answers| - 1 else |answers|))
    }

    /** From one boundary to a later one: counters grow and records only append. */
    twostate predicate Later()
      reads this
    {
      && old(steps) <= steps && old(entries) <= entries && old(visits) <= visits
      && old(origins) <= origins && old(answers) <= answers
      && (old(cancelled) ==> cancelled) && (old(limitHit) ==> limitHit) && old(missed) <= missed
    }

    /** Reading the context: a cancellation may arrive at any moment, and stays. */
    method Cancelled() returns (c: bool)
      modifies this`cancelled
      ensures old(cancelled) ==> cancelled
      ensures c == cancelled
    {
      var arrives: bool := *;
      cancelled := cancelled || arrives;
      c := cancelled;
    }

    /** Visit a node. Unless cancelled or over the budget, when it returns this visit and all it led to are done. */
    method Visit(id: string, ghost o: Origin)
      requires Base() && Ready(id, o)
      modifies this
      ensures Inv() && Later()
      ensures AnswersFrom(old(answers), answers, old(|visits|))
      ensures Whole() ==>
        && old(visits) + [id] <= visits && StartsFrom(old(origins) + [o], origins, old(|visits|))
        && DoneFrom(old(|visits|))
      decreases MAX_RUN_STEPS - steps, 1
    {
      hide Sound, Shown, Followed, AllDone, Done, RequestsOf, Names, OkCount, OriginOk, AnswersOf, StartsOf;
      var stop := Cancelled();
      if stop { return; }
      if steps >= MAX_RUN_STEPS {
        limitHit := true;
        return;
      }
      ghost var v := |visits|;
      NothingYet(plan, visits, origins, answers);
      Count(id, o);
      ghost var vis := visits;
      StartsOfNext(old(origins), o, v);
      assert o.Entered? ==> o.visit != v by { OwnOrigin(id, o); }
      if id !in plan || plan[id].kind.KNote? {
        IdleDone(plan, visits, origins, answers, v);
        return;
      }
      Work(id, plan[id], v);
      assert vis <= visits;
    }

    lemma OwnOrigin(id: string, o: Origin)
      requires 0 < |visits| && OriginOk(plan, visits, answers, |visits| - 1, o)
      ensures o.Entered? ==> o.visit != |visits| - 1
    {
    }

    lemma ReadyAt(id: string, o: Origin)
      requires Sound(plan, visits, origins, answers) && OriginOk(plan, visits + [id], answers, |visits|, o)
      ensures |origins| == |visits|
      ensures o.Arrow? ==> o.answer < |answers| && answers[o.answer].at == |origins|
    {
    }

    method Count(id: string, ghost o: Origin)
      requires Counts() && steps < MAX_RUN_STEPS && Traced() && Recorded() && Ready(id, o) && Whole()
      modifies this`steps, this`visits, this`origins
      ensures Counts() && Traced() && visits == old(visits) + [id] && origins == old(origins) + [o]
      ensures Followed(origins, answers, |answers|)
      ensures okReq + failReq < steps && OriginOk(plan, visits, answers, |visits| - 1, o)
      ensures Names(entries) == RequestsOf(plan, visits[..|visits| - 1])
      ensures id !in plan || !IsRequest(plan[id].kind) ==> Recorded()
    {
      hide Sound, Shown, Followed, RequestsOf, Names, OkCount, OriginOk;
      SoundVisit(plan, visits, origins, answers, id, o);
      RequestsNext(plan, visits, id);
      ReadyAt(id, o);
      FollowedVisit(origins, answers, o);
      steps := steps + 1;
      visits := visits + [id];
      origins := origins + [o];
      assert visits[..|visits| - 1] == old(visits);
    }

    /** A counted visit of a real node: its own work, its rounds if it is a loop, then its arrows. */
    method Work(id: string, n: Node, ghost v: nat)
      requires Counts() && Traced() && Whole() && Quiet() && okReq + failReq < steps
      requires Followed(origins, answers, |answers|)
      requires Names(entries) == RequestsOf(plan, visits[..|visits| - 1])
      requires v == |visits| - 1 && At(v, id, n) && AnswersOf(answers, v) == [] && StartsOf(origins, v) == []
      modifies this
      ensures Inv() && Later()
      ensures AnswersFrom(old(answers), answers, v)
      ensures Whole() ==> StartsFrom(old(origins), origins, v) && DoneFrom(v)
      decreases MAX_RUN_STEPS - steps, 6
    {
      hide Sound, Shown, Followed, Done, RequestsOf, Names, OkCount, OnlyRunning, AnswersOf, StartsOf;
      Show(id);
      var stop := Cancelled();
      if stop { return; }
      Perform(id, n);
      stop := Cancelled();
      if stop { return; }
      Onward(id, n, v);
    }

    /** Behind the node's own work: its rounds if it is a loop, then its arrows. */
    method Onward(id: string, n: Node, ghost v: nat)
      requires Inv() && !cancelled && At(v, id, n)
      requires Whole() ==> AnswersOf(answers, v) == [] && StartsOf(origins, v) == [] && DoneFrom(v + 1)
      modifies this
      ensures Inv() && Later()
      ensures AnswersFrom(old(answers), answers, v)
      ensures Whole() ==> StartsFrom(old(origins), origins, v) && DoneFrom(v)
      decreases MAX_RUN_STEPS - steps, 5
    {
      hide Sound, Shown, Followed, Done, RequestsOf, Names, OkCount, AnswersOf, StartsOf, AllDone, Looped, Quiet, Recorded, Traced;
      assert AnswersFrom(answers, answers, v) && StartsFrom(origins, origins, v);
      if n.kind.KLoop? {
        var items := SourceItems();
        var stop := Rounds(id, n, items, v);
        if stop { return; }
        if Whole() {
          AnswersKept(old(answers), answers, v);
          RoundsLoop(n, items, StartsOf(origins, v));
        }
      } else {
        NoLoop(n);
      }
      ghost var an, ors := answers, origins;
      FollowOuts(id, n, v);
      FromTrans(old(answers), an, answers, v);
      if Whole() {
        StartsKept(ors, origins, v);
        StartsTrans(old(origins), ors, origins, v);
        LastDone(plan, visits, origins, answers, v);
      }
    }

    ghost predicate OnlyRunning(id: string)
      reads this`nodeSt
    {
      forall k :: k in nodeSt && k != id ==> nodeSt[k] != Running
    }

    method Show(id: string)
      requires Quiet()
      modifies this`nodeSt
      ensures OnlyRunning(id)
    {
      nodeSt := nodeSt[id := Running];
    }

    /** The node's own work: a request is recorded and counted; anything else succeeds unless cancelled. */
    method Perform(id: string, n: Node)
      requires Counts() && Whole() && okReq + failReq < steps
      requires OnlyRunning(id) && visits != [] && visits[|visits| - 1] == id && id in plan && plan[id] == n
      requires Names(entries) == RequestsOf(plan, visits[..|visits| - 1])
      modifies this`okReq, this`failReq, this`anyFail, this`cancelled, this`nodeSt, this`entries
      ensures Counts() && Recorded() && (!cancelled ==> Quiet()) && old(entries) <= entries
      ensures okReq + failReq == old(okReq + failReq) + (if IsRequest(n.kind) then 1 else 0)
      ensures !cancelled ==> id in nodeSt && (nodeSt[id] == Good <==> failReq == old(failReq))
    {
      hide RequestsOf, Names, OkCount;
      var failed := false;
      if IsRequest(n.kind) {
        failed := *;
        NamesNext(entries, Entry(id, !failed));
        OkNext(entries, Entry(id, !failed));
        entries := entries + [Entry(id, !failed)];
      }
      RequestsNext(plan, visits[..|visits| - 1], id);
      assert visits[..|visits| - 1] + [id] == visits;
      var cut := Cancelled();
      var ok := !cut && (!failed || !IsRequest(n.kind));
      if !ok {
        anyFail := true;
      }
      if IsRequest(n.kind) {
        if ok {
          okReq := okReq + 1;
        } else {
          failReq := failReq + 1;
        }
      }
      nodeSt := nodeSt[id := if ok then Good else Bad];
    }

    /** The number of items at the source of a loop, none if there is no array; unknown, so chosen freely. */
    method SourceItems() returns (items: Option<nat>)
    {
      var found: bool, n: nat := *, *;
      items := if found then Some(n) else None;
    }

    /** One round of a loop: its entry nodes in order. */
    method OneRound(id: string, n: Node, ghost v: nat) returns (stop: bool)
      requires Inv() && At(v, id, n) && n.kind.KLoop? && (Whole() ==> DoneFrom(v + 1))
      modifies this
      ensures Inv() && Later() && (stop ==> cancelled)
      ensures AnswersFrom(old(answers), answers, v + 1)
      ensures Whole() ==>
        && StartsOf(origins, v) == StartsOf(old(origins), v) + UpTo(|n.entries|)
        && StartsFrom(old(origins), origins, v) && DoneFrom(v + 1)
      decreases MAX_RUN_STEPS - steps, 3
    {
      hide Sound, Shown, Followed, Done, RequestsOf, Names, OkCount, AnswersOf, StartsOf, AllDone, Quiet, OriginOk;
      assert UpTo(0) == [] && StartsOf(origins, v) + [] == StartsOf(origins, v);
      for k := 0 to |n.entries|
        invariant Inv() && Later() && AnswersFrom(old(answers), answers, v + 1)
        invariant Whole() ==>
          && StartsOf(origins, v) == StartsOf(old(origins), v) + UpTo(k)
          && StartsFrom(old(origins), origins, v) && DoneFrom(v + 1)
      {
        stop := Cancelled();
        if stop { return; }
        StartEntry(id, n, k, v);
        ghost var was := StartsOf(old(origins), v);
        assert was + UpTo(k) + [k] == was + UpTo(k + 1);
      }
      return false;
    }

    /** One entry node of a loop. */
    method StartEntry(id: string, n: Node, k: nat, ghost v: nat)
      requires Inv() && At(v, id, n) && n.kind.KLoop? && k < |n.entries| && (Whole() ==> DoneFrom(v + 1))
      modifies this
      ensures Inv() && Later() && AnswersFrom(old(answers), answers, old(|visits|))
      ensures Whole() ==>
        && StartsOf(origins, v) == StartsOf(old(origins), v) + [k]
        && StartsFrom(old(origins), origins, v) && DoneFrom(v + 1)
      decreases MAX_RUN_STEPS - steps, 2
    {
      ghost var o := Entered(v, k);
      assert OriginOk(plan, visits + [n.entries[k]], answers, |visits|, o);
      hide Sound, Shown, Followed, Done, RequestsOf, Names, OkCount, AnswersOf, StartsOf, AllDone, Quiet, OriginOk;
      Visit(n.entries[k], o);
      if Whole() {
        StartsOfNext(old(origins), o, v);
        StartsKept(old(origins) + [o], origins, v);
        StillDone(plan, v, old(visits), old(origins), old(answers), visits, origins, answers);
      }
    }

    /** The rounds of a loop node: as many as its count, or as its source has items, or none when there is no array. */
    method Rounds(id: string, n: Node, items: Option<nat>, ghost v: nat) returns (stop: bool)
      requires Inv() && !cancelled && At(v, id, n) && n.kind.KLoop?
      requires Whole() ==> StartsOf(origins, v) == [] && DoneFrom(v + 1)
      modifies this
      ensures Inv() && Later() && (stop ==> cancelled)
      ensures AnswersFrom(old(answers), answers, v + 1)
      ensures Whole() ==>
        && StartsOf(origins, v) == RoundsOf(RoundCount(n, items), |n.entries|)
        && StartsFrom(old(origins), origins, v) && DoneFrom(v + 1)
      ensures n.hasSource && items.None? ==> missed > old(missed)
      decreases MAX_RUN_STEPS - steps, 4
    {
      hide Sound, Shown, Followed, Done, RequestsOf, Names, OkCount, AnswersOf, StartsOf, AllDone;
      var iters := n.count;
      if n.hasSource {
        if items.Some? {
          iters := items.value;
        } else {
          iters := 0;
          anyFail := true;
          missed := missed + 1;
          nodeSt := nodeSt[id := Bad];
        }
      }
      ghost var missedHere := missed;
      hide Quiet;
      for it := 0 to iters
        invariant Inv() && Later() && AnswersFrom(old(answers), answers, v + 1)
        invariant Whole() ==>
          && StartsOf(origins, v) == RoundsOf(it, |n.entries|)
          && StartsFrom(old(origins), origins, v) && DoneFrom(v + 1)
        invariant missedHere <= missed
      {
        stop := Cancelled();
        if stop { return; }
        ghost var an, ors := answers, origins;
        stop := OneRound(id, n, v);
        FromTrans(old(answers), an, answers, v + 1);
        if Whole() {
          StartsTrans(old(origins), ors, origins, v);
        }
        if stop { return; }
      }
      stop := false;
    }

    /** What the condition of an arrow says; unknown, so chosen freely, and noted. */
    method Condition(i: nat, edge: string, ghost v: nat) returns (pass: bool)
      modifies this`answers
      ensures answers == old(answers) + [Answer(v, i, edge, pass, |visits|)]
    {
      pass := *;
      answers := answers + [Answer(v, i, edge, pass, |visits|)];
    }

    /** One arrow: its condition decides whether it is followed, and it is followed at once. */
    method FollowOne(id: string, n: Node, i: nat, ghost v: nat)
      requires Inv() && !cancelled && At(v, id, n) && i < |n.outs| && (Whole() ==> DoneFrom(v + 1))
      modifies this
      ensures Inv() && Later()
      ensures exists pass: bool :: OneAnswer(old(answers), answers, old(visits), visits, v, i, n.outs[i], pass)
      ensures Whole() ==>
        && AnswersOf(answers, v) == AnswersOf(old(answers), v) + [i]
        && StartsFrom(old(origins), origins, v + 1) && DoneFrom(v + 1)
        && (answers[|old(answers)|].pass ==> old(visits) + [n.outs[i].to] <= visits)
      decreases MAX_RUN_STEPS - steps, 2
    {
      hide Shown, Done, RequestsOf, Names, OkCount, AnswersOf, StartsOf, AllDone, Quiet, Sound, Followed;
      var pass := Condition(i, n.outs[i].id, v);
      ghost var a := Answer(v, i, n.outs[i].id, pass, |visits|);
      edgeSt := edgeSt[n.outs[i].id := if pass then Good else Bad];
      Noted(old(edgeSt), old(answers), a);
      ghost var o := Arrow(|answers| - 1);
      if pass {
        assert Ready(n.outs[i].to, o) by { ArrowReady(id, n, i, v, a); }
        hide OriginOk, AnswerOk;
        Visit(n.outs[i].to, o);
      } else {
        hide OriginOk, AnswerOk;
        assert AnswersFrom(answers, answers, |visits|);
      }
      assert OneAnswer(old(answers), answers, old(visits), visits, v, i, n.outs[i], pass);
      if Whole() {
        AnswersOfNext(old(answers), a, v);
        AnswersKept(old(answers) + [a], answers, v);
        if !pass {
          assert AllDone(plan, visits, origins, answers, |visits|) by { NoneLeft(plan, visits, origins, answers); }
        }
        assert forall j | |old(origins)| <= j < |origins| :: origins[j].Entered? ==> origins[j].visit >= old(|visits|);
        StillDone(plan, v, old(visits), old(origins), old(answers), visits, origins, answers);
      }
    }

    lemma Noted(edges: map<string, Status>, an: seq<Answer>, a: Answer)
      requires Sound(plan, visits, origins, an) && Shown(edges, an) && AnswerOk(plan, visits, a)
      ensures Sound(plan, visits, origins, an + [a])
      ensures Shown(edges[a.edge := if a.pass then Good else Bad], an + [a])
      ensures Followed(origins, an, |an|) ==>
        Followed(origins, an + [a], |an|) && (!a.pass ==> Followed(origins, an + [a], |an| + 1))
    {
      SoundAnswer(plan, visits, origins, an, a);
      ShownNext(edges, an, a);
      if Followed(origins, an, |an|) {
        FollowedAnswer(origins, an, a);
      }
    }

    lemma ArrowReady(id: string, n: Node, i: nat, v: nat, a: Answer)
      requires At(v, id, n) && i < |n.outs| && answers != [] && answers[|answers| - 1] == a
      requires a == Answer(v, i, n.outs[i].id, true, |visits|)
      ensures OriginOk(plan, visits + [n.outs[i].to], answers, |visits|, Arrow(|answers| - 1))
    {
    }

    /** The outgoing arrows in order. */
    method FollowOuts(id: string, n: Node, ghost v: nat)
      requires Inv() && At(v, id, n)
      requires Whole() ==> AnswersOf(answers, v) == [] && DoneFrom(v + 1)
      modifies this
      ensures Inv() && Later()
      ensures AnswersFrom(old(answers), answers, v)
      ensures Whole() ==>
        && AnswersOf(answers, v) == UpTo(|n.outs|)
        && StartsFrom(old(origins), origins, v + 1) && DoneFrom(v + 1)
      decreases MAX_RUN_STEPS - steps, 3
    {
      hide Shown, Done, RequestsOf, Names, OkCount, AnswersOf, StartsOf, AllDone, Quiet, Sound, Followed;
      for i := 0 to |n.outs|
        invariant Inv() && Later() && AnswersFrom(old(answers), answers, v)
        invariant Whole() ==>
          && AnswersOf(answers, v) == UpTo(i)
          && StartsFrom(old(origins), origins, v + 1) && DoneFrom(v + 1)
      {
        var stop := Cancelled();
        if stop { return; }
        ghost var an, ors := answers, origins;
        FollowOne(id, n, i, v);
        assert UpTo(i) + [i] == UpTo(i + 1);
        FromTrans(old(answers), an, answers, v);
        if Whole() {
          StartsTrans(old(origins), ors, origins, v + 1);
        }
      }
    }
  }

  /** The history keeps the last twenty runs. */
  function Kept(runs: seq<Record>, rec: Record): (r: seq<Record>)
    ensures |runs| <= MAX_HISTORY_RUNS ==> |r| <= MAX_HISTORY_RUNS
    ensures r != [] && r[|r| - 1] == rec
  {
    var all := runs + [rec];
    if |all| > MAX_HISTORY_RUNS then all[1..] else all
  }

  /** The record of a run that has begun. */
  function Begun(seqNo: nat): Record { Record(seqNo, false, false, false, []) }

  /** The record of a finished run: stopped if cancelled, else failed at the limit, on a failed request or a missing array. */
  ghost function RecordOf(run: Run, seqNo: nat): Record
    reads run
  {
    Record(seqNo, true, run.cancelled,
           !run.cancelled && (run.limitHit || run.failReq > 0 || run.missed > 0), run.entries)
  }

  /** The run that is going on, if any, has the last record. */
  class Runner {
    var running: bool
    var runs: seq<Record>
    var runSeq: nat

    ghost predicate Valid()
      reads this
    {
      |runs| <= MAX_HISTORY_RUNS && (running ==> runs != [] && runs[|runs| - 1] == Begun(runSeq))
    }

    constructor ()
      ensures Valid() && !running && runs == []
    {
      running, runs, runSeq := false, [], 0;
    }

    /** Begin a run and leave it going; while it goes, no other begins. */
    method Start(plan: Plan, startID: Option<string>) returns (run: Run?)
      requires Valid() && (startID.Some? ==> startID.value in plan)
      modifies this
      ensures Valid()
      ensures run == null <==> old(running) || startID.None? || |plan[startID.value].outs| == 0
      ensures run == null ==> runs == old(runs) && running == old(running) && runSeq == old(runSeq)
      ensures run != null ==>
        && fresh(run) && run.plan == plan && run.Untouched() && running
        && runSeq == old(runSeq) + 1 && runs == Kept(old(runs), Begun(runSeq))
    {
      if running || startID.None? || |plan[startID.value].outs| == 0 {
        return null;
      }
      running, runSeq := true, runSeq + 1;
      runs := runs + [Begun(runSeq)];
      if |runs| > MAX_HISTORY_RUNS {
        runs := runs[1..];
      }
      run := new Run(plan);
    }

    /**
     The run itself, from its start node to its record. Whatever the graph and the outcomes, it ends; it
     counts at most 10000 visits; every visit but the first was made for an arrow that passed or by a loop;
     uncancelled it leaves no node running and has recorded each visit of a request, in order; and uncancelled
     within the budget every visit has had all its arrows answered, every arrow that passed was followed at
     once, and every loop has started its entry nodes as often as it should. Then another run may begin.
     */
    method Go(run: Run, start: string)
      requires Valid() && running && run.Untouched()
      modifies this, run
      ensures Valid() && !running && runSeq == old(runSeq)
      ensures run.Inv()
      ensures run.Whole() ==> [start] <= run.visits && run.DoneFrom(0)
      ensures runs == old(runs)[|old(runs)| - 1 := RecordOf(run, runSeq)]
    {
      run.Visit(start, Root);
      var rec := Record(runSeq, true, run.cancelled, !run.cancelled && (run.limitHit || run.anyFail), run.entries);
      runs := runs[|runs| - 1 := rec];
      running := false;
    }
  }
}
