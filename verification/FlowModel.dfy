/**
 Scenarios and their serialised form: what decoding fills in, and that doing it once is enough.
 Text editors are plain strings; trimming, JSON and the random identifiers are parameters.
 */
module FlowModel {
  import opened Bytes

  datatype NodeKind = KStart | KRequest | KCondition | KLoop | KDelay | KSetVar | KNote | KWSRequest | KGQLRequest | KWSSend
    | KOther(code: int)

  /** The fields that decoding copies as they are. */
  datatype NodeData = NodeData(
    x: real, y: real, w: real, h: real, envID: string, name: string, url: string, headers: string, body: string,
    count: string, delay: string, varName: string, varValue: string, loopSrc: string,
    authType: string, authToken: string, authUser: string, authPass: string,
    cookies: string, vars: string, subprotos: string, binPath: string,
    insecureTLS: bool, keepOpen: bool, wsClose: bool)

  /** `kind`, and the fields that decoding may fill with a default. */
  datatype Node = Node(id: string, kind: NodeKind, method_: string, bodyType: string, wsOpcode: string,
                       waitMs: string, data: NodeData)

  datatype Edge = Edge(id: string, from: string, to: string, fromSide: string, toSide: string,
                       cond: int, value: string, op: string, count: string, value2: string)

  datatype View = View(x: real, y: real, zoom: real)

  /** The same records serve as live objects and as their transfer form. */
  datatype Scenario = Scenario(id: string, name: string, nodes: seq<Node>, edges: seq<Edge>, view: Option<View>)

  // ----- defaults -----

  function DefaultMethod(k: NodeKind): string { if k.KRequest? then "GET" else "" }

  function DefaultBodyType(k: NodeKind): string { if k.KRequest? then "raw" else "" }

  function DefaultOpcode(k: NodeKind): string { if k.KWSRequest? || k.KWSSend? then "TEXT" else "" }

  function DefaultWait(k: NodeKind): string { if k.KWSRequest? || k.KWSSend? then "1000" else "" }

  function Or(s: string, default: string): string { if s == "" then default else s }

  function NormFromSide(side: string): string {
    if side == "left" || side == "top" || side == "bottom" then side else "right"
  }

  function NormToSide(side: string): string {
    if side == "top" || side == "right" || side == "bottom" then side else "left"
  }

  /** Identifiers drawn at random are never empty. */
  type Ids = f: nat -> string | forall k :: f(k) != "" witness (k: nat) => "x"

  function NodeFromDTO(n: Node, id: string): Node {
    Node(Or(n.id, id), n.kind,
         Or(n.method_, DefaultMethod(n.kind)), Or(n.bodyType, DefaultBodyType(n.kind)),
         Or(n.wsOpcode, DefaultOpcode(n.kind)), Or(n.waitMs, DefaultWait(n.kind)), n.data)
  }

  function EdgeFromDTO(e: Edge, id: string): Edge {
    e.(id := Or(e.id, id), fromSide := NormFromSide(e.fromSide), toSide := NormToSide(e.toSide),
       op := Or(e.op, ">"), count := Or(e.count, "0"))
  }

  predicate HasNode(nodes: seq<Node>, id: string) {
    exists n :: n in nodes && n.id == id
  }

  predicate HasStart(nodes: seq<Node>) {
    exists n :: n in nodes && n.kind.KStart?
  }

  /** A fresh start node, where the source puts it. */
  function NewStart(id: string): Node {
    Node(id, KStart, "", "", "", "",
         NodeData(80.0, 200.0, 0.0, 0.0, "", "Start", "", "", "", "", "", "", "", "", "", "", "", "", "", "", "", "",
                  false, false, false))
  }

  function NodesFrom(ns: seq<Node>, ids: Ids): seq<Node> {
    seq(|ns|, i requires 0 <= i < |ns| => NodeFromDTO(ns[i], ids(i + 2)))
  }

  /** Edges whose ends are not both among the nodes are dropped. */
  function EdgesFrom(es: seq<Edge>, nodes: seq<Node>, ids: Ids, k: nat): seq<Edge> {
    if es == [] then []
    else if HasNode(nodes, es[0].from) && HasNode(nodes, es[0].to)
    then [EdgeFromDTO(es[0], ids(k))] + EdgesFrom(es[1..], nodes, ids, k + 1)
    else EdgesFrom(es[1..], nodes, ids, k)
  }

  function FromDTO(d: Scenario, ids: Ids): Scenario {
    var nodes := NodesFrom(d.nodes, ids);
    Scenario(Or(d.id, ids(0)), d.name,
             if HasStart(nodes) then nodes else [NewStart(ids(1))] + nodes,
             EdgesFrom(d.edges, nodes, ids, |d.nodes| + 2),
             if d.view.Some? && d.view.value.zoom > 0.0 then d.view else None)
  }

  method LoadNodes(ns: seq<Node>, ids: Ids) returns (nodes: seq<Node>, hasStart: bool)
    ensures nodes == NodesFrom(ns, ids) && (hasStart <==> HasStart(nodes))
  {
    nodes := [];
    for i := 0 to |ns|
      invariant nodes == NodesFrom(ns, ids)[..i]
    {
      nodes := nodes + [NodeFromDTO(ns[i], ids(i + 2))];
    }
    assert nodes == NodesFrom(ns, ids);
    hasStart := false;
    for i := 0 to |nodes|
      invariant !hasStart && !HasStart(nodes[..i])
    {
      assert nodes[..i + 1] == nodes[..i] + [nodes[i]];
      if nodes[i].kind.KStart? {
        return nodes, true;
      }
    }
    assert nodes[..|nodes|] == nodes;
  }

  method LoadEdges(es: seq<Edge>, nodes: seq<Node>, ids: Ids, k: nat) returns (edges: seq<Edge>)
    ensures edges == EdgesFrom(es, nodes, ids, k)
  {
    hide HasNode, EdgeFromDTO;
    ghost var all := EdgesFrom(es, nodes, ids, k);
    edges := [];
    assert es[0..] == es;
    for i := 0 to |es|
      invariant all == edges + EdgesFrom(es[i..], nodes, ids, k + |edges|)
    {
      var e := es[i];
      assert es[i..][0] == e && es[i..][1..] == es[i + 1..];
      if !HasNode(nodes, e.from) || !HasNode(nodes, e.to) { continue; }
      edges := edges + [EdgeFromDTO(e, ids(k + |edges|))];
    }
    assert edges + [] == edges;
  }

  method ScenarioFromDTO(d: Scenario, ids: Ids) returns (s: Scenario)
    ensures s == FromDTO(d, ids)
  {
    hide NodesFrom, EdgesFrom, HasStart;
    var nodes, hasStart := LoadNodes(d.nodes, ids);
    var edges := LoadEdges(d.edges, nodes, ids, |d.nodes| + 2);
    s := Scenario(Or(d.id, ids(0)), d.name, nodes, edges,
                  if d.view.Some? && d.view.value.zoom > 0.0 then d.view else None);
    if !hasStart {
      s := s.(nodes := [NewStart(ids(1))] + nodes);
    }
  }

  /** The libraries: trimming white space, and JSON. */
  datatype Libs = Libs(trim: string -> string, marshal: Scenario -> Option<string>, unmarshal: string -> Option<Scenario>)

  ghost predicate Lawful(l: Libs) {
    && (forall s {:trigger l.trim(s)} :: l.trim(l.trim(s)) == l.trim(s))
    && (forall d {:trigger l.marshal(d)} :: l.marshal(d).Some? ==>
          l.marshal(d).value != "" && l.unmarshal(l.marshal(d).value) == Some(d))
  }

  function ToDTO(l: Libs, s: Scenario): Scenario {
    s.(name := l.trim(s.name), view := None)
  }

  /** The encoding; empty when JSON fails. */
  function Encode(l: Libs, s: Scenario): string {
    match l.marshal(ToDTO(l, s))
    case None => ""
    case Some(data) => data
  }

  function Decode(l: Libs, data: string, ids: Ids): Option<Scenario> {
    match l.unmarshal(data)
    case None => None
    case Some(d) => Some(FromDTO(d, ids))
  }

  // ----- decoding once is enough -----

  /** Nothing is left for decoding to fill in or drop. */
  predicate Settled(s: Scenario) {
    && s.id != ""
    && HasStart(s.nodes)
    && (forall n :: n in s.nodes ==> n.id != "" && NodeFromDTO(n, "") == n)
    && (forall e :: e in s.edges ==> e.id != "" && EdgeFromDTO(e, "") == e
                                     && HasNode(s.nodes, e.from) && HasNode(s.nodes, e.to))
  }

  lemma {:induction false} EdgesSettled(es: seq<Edge>, nodes: seq<Node>, ids: Ids, k: nat)
    ensures forall e :: e in EdgesFrom(es, nodes, ids, k) ==>
              e.id != "" && EdgeFromDTO(e, "") == e && HasNode(nodes, e.from) && HasNode(nodes, e.to)
    decreases es
  {
    if es != [] {
      EdgesSettled(es[1..], nodes, ids, k);
      EdgesSettled(es[1..], nodes, ids, k + 1);
    }
  }

  lemma NodesSettled(ns: seq<Node>, ids: Ids)
    ensures forall n :: n in NodesFrom(ns, ids) ==> n.id != "" && NodeFromDTO(n, "") == n
  {
    var nodes := NodesFrom(ns, ids);
    forall n | n in nodes ensures n.id != "" && NodeFromDTO(n, "") == n {
      var i :| 0 <= i < |nodes| && nodes[i] == n;
      assert n == NodeFromDTO(ns[i], ids(i + 2));
    }
  }

  lemma DecodedIsSettled(d: Scenario, ids: Ids)
    ensures Settled(FromDTO(d, ids))
  {
    hide NodesFrom, EdgesFrom, EdgeFromDTO, HasNode, NodeFromDTO;
    var s, nodes := FromDTO(d, ids), NodesFrom(d.nodes, ids);
    NodesSettled(d.nodes, ids);
    StartSettled(ids(1));
    EdgesSettled(d.edges, nodes, ids, |d.nodes| + 2);
    assert HasStart(s.nodes) by {
      assert !HasStart(nodes) ==> s.nodes[0] in s.nodes;
    }
    forall e | e in s.edges ensures HasNode(s.nodes, e.from) && HasNode(s.nodes, e.to) {
      MoreNodes(nodes, s.nodes, e.from);
      MoreNodes(nodes, s.nodes, e.to);
    }
  }

  lemma StartSettled(id: string)
    requires id != ""
    ensures var n := NewStart(id); n.id != "" && NodeFromDTO(n, "") == n
  {
  }

  lemma MoreNodes(a: seq<Node>, b: seq<Node>, id: string)
    requires HasNode(a, id) && forall n :: n in a ==> n in b
    ensures HasNode(b, id)
  {
    var n :| n in a && n.id == id;
    assert n in b;
  }

  lemma {:induction false} SettledEdgesStay(es: seq<Edge>, nodes: seq<Node>, ids: Ids, k: nat)
    requires forall e :: e in es ==>
               e.id != "" && EdgeFromDTO(e, "") == e && HasNode(nodes, e.from) && HasNode(nodes, e.to)
    ensures EdgesFrom(es, nodes, ids, k) == es
    decreases es
  {
    if es != [] {
      assert es[0] in es;
      SettledEdgesStay(es[1..], nodes, ids, k + 1);
      assert EdgeFromDTO(es[0], ids(k)) == EdgeFromDTO(es[0], "");
      assert [es[0]] + es[1..] == es;
    }
  }

  lemma SettledStays(s: Scenario, ids: Ids)
    requires Settled(s) && s.view == None
    ensures FromDTO(s, ids) == s
  {
    hide EdgesFrom, EdgeFromDTO, HasNode;
    var nodes := NodesFrom(s.nodes, ids);
    assert nodes == s.nodes by {
      forall i | 0 <= i < |nodes| ensures nodes[i] == s.nodes[i] {
        assert s.nodes[i] in s.nodes;
      }
    }
    SettledEdgesStay(s.edges, s.nodes, ids, |s.nodes| + 2);
  }

  /** The normal form of an encoding: decoded and encoded again. */
  function Normal(l: Libs, data: string, ids: Ids): Option<string> {
    match Decode(l, data, ids)
    case None => None
    case Some(s) => Some(Encode(l, s))
  }

  /** Encode after decode is idempotent, whatever identifiers are drawn the second time. */
  lemma NormalIsIdempotent(l: Libs, data: string, ids: Ids, ids2: Ids)
    requires Lawful(l) && Normal(l, data, ids).Some? && Normal(l, data, ids).value != ""
    ensures Normal(l, Normal(l, data, ids).value, ids2) == Normal(l, data, ids)
  {
    var d := l.unmarshal(data).value;
    var s := FromDTO(d, ids);
    DecodedIsSettled(d, ids);
    var t := ToDTO(l, s);
    assert Settled(t);
    SettledStays(t, ids2);
  }

  /** For a settled scenario the encoding decodes to itself, up to the trimmed name and the view. */
  lemma SettledRoundTrip(l: Libs, s: Scenario, ids: Ids)
    requires Lawful(l) && Settled(s) && Encode(l, s) != ""
    ensures Decode(l, Encode(l, s), ids) == Some(ToDTO(l, s))
    ensures Normal(l, Encode(l, s), ids) == Some(Encode(l, s))
  {
    var t := ToDTO(l, s);
    assert Settled(t);
    SettledStays(t, ids);
  }

  /** Scenarios with the same encoding are settled alike. */
  lemma SameEncodingSettled(l: Libs, a: Scenario, b: Scenario)
    requires Lawful(l) && Encode(l, a) == Encode(l, b) != "" && Settled(a)
    ensures Settled(b)
  {
    hide NodeFromDTO, EdgeFromDTO, HasNode, HasStart;
    assert l.unmarshal(Encode(l, a)) == Some(ToDTO(l, a));
    assert l.unmarshal(Encode(l, b)) == Some(ToDTO(l, b));
    assert ToDTO(l, a).nodes == a.nodes && ToDTO(l, b).nodes == b.nodes;
  }

  /** A WebSocket send whose waiting time was cleared: decoding would fill it in. */
  predicate WaitCleared(n: Node) { n.kind.KWSSend? && n.waitMs == "" }

  lemma ClearedIsUnsettled(s: Scenario, n: Node)
    requires n in s.nodes && WaitCleared(n)
    ensures !Settled(s)
  {
    assert NodeFromDTO(n, "").waitMs == "1000";
  }

  // ----- what is filled in -----

  /** Whatever a node brings is kept, and only an empty field gets its default, which depends on the kind alone. */
  lemma FieldsFilled(n: Node, id: string)
    ensures var m := NodeFromDTO(n, id);
            && m.kind == n.kind && m.data == n.data
            && m.id == (if n.id != "" then n.id else id)
            && m.method_ == (if n.method_ == "" && n.kind == KRequest then "GET" else n.method_)
            && m.bodyType == (if n.bodyType == "" && n.kind == KRequest then "raw" else n.bodyType)
            && m.wsOpcode == (if n.wsOpcode == "" && n.kind in {KWSRequest, KWSSend} then "TEXT" else n.wsOpcode)
            && m.waitMs == (if n.waitMs == "" && n.kind in {KWSRequest, KWSSend} then "1000" else n.waitMs)
  {
  }

  /** An arrow keeps its ends and its condition; a side that a handle cannot have becomes the usual one. */
  lemma ArrowFilled(e: Edge, id: string)
    ensures var f := EdgeFromDTO(e, id);
            && f.from == e.from && f.to == e.to && f.cond == e.cond && f.value == e.value && f.value2 == e.value2
            && f.id == (if e.id != "" then e.id else id)
            && f.op == (if e.op == "" then ">" else e.op) && f.count == (if e.count == "" then "0" else e.count)
            && f.fromSide == (if e.fromSide in {"left", "top", "bottom"} then e.fromSide else "right")
            && f.toSide == (if e.toSide in {"top", "right", "bottom"} then e.toSide else "left")
  {
  }

  /** The arrows that stay are those between nodes that are there, in order. */
  lemma {:induction false} ArrowsStay(es: seq<Edge>, nodes: seq<Node>, ids: Ids, k: nat)
    ensures var kept := Kept(es, nodes);
            var out := EdgesFrom(es, nodes, ids, k);
            |out| == |kept| && forall i | 0 <= i < |out| :: out[i] == EdgeFromDTO(kept[i], ids(k + i))
    decreases es
  {
    hide EdgeFromDTO, HasNode;
    if es != [] {
      var here := HasNode(nodes, es[0].from) && HasNode(nodes, es[0].to);
      ArrowsStay(es[1..], nodes, ids, if here then k + 1 else k);
      var kept, out := Kept(es, nodes), EdgesFrom(es, nodes, ids, k);
      if here {
        forall i | 0 <= i < |out| ensures out[i] == EdgeFromDTO(kept[i], ids(k + i)) {
          if i > 0 {
            assert out[i] == EdgesFrom(es[1..], nodes, ids, k + 1)[i - 1];
            assert kept[i] == Kept(es[1..], nodes)[i - 1];
            assert k + 1 + (i - 1) == k + i;
          }
        }
      }
    }
  }

  function Kept(es: seq<Edge>, nodes: seq<Node>): seq<Edge> {
    if es == [] then []
    else if HasNode(nodes, es[0].from) && HasNode(nodes, es[0].to) then [es[0]] + Kept(es[1..], nodes)
    else Kept(es[1..], nodes)
  }
}
