/** Undo and redo over encoded snapshots of a scenario. */
module FlowEditor {
  import opened Bytes
  import opened FlowModel

  const HISTORY_LIMIT := 100

  /** The history part of an editor. */
  datatype Editor = Editor(scenario: Scenario, undo: seq<string>, redo: seq<string>, pending: string)

  function PushSnapshotSpec(e: Editor, snap: string): Editor {
    if snap == "" || (e.undo != [] && e.undo[|e.undo| - 1] == snap) then e
    else
      var u := e.undo + [snap];
      e.(undo := if |u| > HISTORY_LIMIT then u[1..] else u, redo := [])
  }

  function RestoreSpec(l: Libs, e: Editor, data: string, ids: Ids): Editor {
    match Decode(l, data, ids)
    case None => e
    case Some(s) => e.(scenario := s)
  }

  /** Snapshots equal to the current state are dropped on the way down. */
  function UndoSpec(l: Libs, e: Editor, cur: string, ids: Ids): Editor
    decreases |e.undo|
  {
    if e.undo == [] then e
    else
      var top := e.undo[|e.undo| - 1];
      var e1 := e.(undo := e.undo[..|e.undo| - 1]);
      if top == cur then UndoSpec(l, e1, cur, ids)
      else RestoreSpec(l, if cur != "" then e1.(redo := e.redo + [cur]) else e1, top, ids)
  }

  function RedoSpec(l: Libs, e: Editor, ids: Ids): Editor {
    if e.redo == [] then e
    else
      var top := e.redo[|e.redo| - 1];
      var e1 := e.(redo := e.redo[..|e.redo| - 1]);
      var cur := Encode(l, e.scenario);
      RestoreSpec(l, if cur != "" then e1.(undo := e.undo + [cur]) else e1, top, ids)
  }

  class History {
    const libs: Libs
    var scenario: Scenario
    var undoStack: seq<string>
    var redoStack: seq<string>
    var pendingSnap: string

    ghost function Value(): Editor
      reads this
    {
      Editor(scenario, undoStack, redoStack, pendingSnap)
    }

    constructor (libs: Libs, scenario: Scenario)
      ensures this.libs == libs && Value() == Editor(scenario, [], [], "")
    {
      this.libs, this.scenario := libs, scenario;
      undoStack, redoStack, pendingSnap := [], [], "";
    }

    method PushSnapshot(snap: string)
      modifies this
      ensures Value() == PushSnapshotSpec(old(Value()), snap)
    {
      if snap == "" { return; }
      if |undoStack| > 0 && undoStack[|undoStack| - 1] == snap { return; }
      undoStack := undoStack + [snap];
      if |undoStack| > HISTORY_LIMIT {
        undoStack := undoStack[1..];
      }
      redoStack := [];
    }

    method PushHistory()
      modifies this
      ensures Value() == PushSnapshotSpec(old(Value()), Encode(libs, old(scenario)))
    {
      PushSnapshot(Encode(libs, scenario));
    }

    method CommitPending()
      modifies this
      ensures Value() == if old(pendingSnap) != "" then PushSnapshotSpec(old(Value()), old(pendingSnap)).(pending := "")
                         else old(Value())
    {
      if pendingSnap != "" {
        PushSnapshot(pendingSnap);
        pendingSnap := "";
      }
    }

    method Restore(data: string, ids: Ids)
      modifies this
      ensures Value() == RestoreSpec(libs, old(Value()), data, ids)
    {
      var s := Decode(libs, data, ids);
      if s.None? { return; }
      scenario := s.value;
    }

    method Undo(ids: Ids)
      modifies this
      ensures Value() == UndoSpec(libs, old(Value()), Encode(libs, old(scenario)), ids)
    {
      var cur := Encode(libs, scenario);
      ghost var goal := UndoSpec(libs, Value(), cur, ids);
      while |undoStack| > 0
        invariant UndoSpec(libs, Value(), cur, ids) == goal
        decreases |undoStack|
      {
        var top := undoStack[|undoStack| - 1];
        undoStack := undoStack[..|undoStack| - 1];
        if top == cur { continue; }
        if cur != "" {
          redoStack := redoStack + [cur];
        }
        Restore(top, ids);
        return;
      }
    }

    method Redo(ids: Ids)
      modifies this
      ensures Value() == RedoSpec(libs, old(Value()), ids)
    {
      if |redoStack| == 0 { return; }
      var top := redoStack[|redoStack| - 1];
      redoStack := redoStack[..|redoStack| - 1];
      var cur := Encode(libs, scenario);
      if cur != "" {
        undoStack := undoStack + [cur];
      }
      Restore(top, ids);
    }
  }

  // ----- runs -----

  /** What can happen to an editor; edits change the scenario and the pending snapshot in any way. */
  datatype Step =
    | Edit(scenario: Scenario)
    | Remember(snap: string)
    | Snapshot(snap: string)
    | Commit
    | Undo(ids: Ids)
    | Redo(ids: Ids)

  function Apply(l: Libs, e: Editor, step: Step): Editor {
    match step
    case Edit(s) => e.(scenario := s)
    case Remember(snap) => e.(pending := snap)
    case Snapshot(snap) => PushSnapshotSpec(e, snap)
    case Commit => if e.pending != "" then PushSnapshotSpec(e, e.pending).(pending := "") else e
    case Undo(ids) => UndoSpec(l, e, Encode(l, e.scenario), ids)
    case Redo(ids) => RedoSpec(l, e, ids)
  }

  function Run(l: Libs, e: Editor, steps: seq<Step>): Editor
    decreases |steps|
  {
    if steps == [] then e else Run(l, Apply(l, e, steps[0]), steps[1..])
  }

  lemma {:induction false} UndoShrinks(l: Libs, e: Editor, cur: string, ids: Ids)
    ensures var u := UndoSpec(l, e, cur, ids); |u.undo| + |u.redo| <= |e.undo| + |e.redo|
    decreases |e.undo|
  {
    if e.undo != [] && e.undo[|e.undo| - 1] == cur {
      UndoShrinks(l, e.(undo := e.undo[..|e.undo| - 1]), cur, ids);
    }
  }

  /** Both stacks together never exceed the limit, although redo checks nothing. */
  lemma {:induction false} StacksBounded(l: Libs, e: Editor, steps: seq<Step>)
    requires |e.undo| + |e.redo| <= HISTORY_LIMIT
    ensures var r := Run(l, e, steps); |r.undo| + |r.redo| <= HISTORY_LIMIT
    decreases |steps|
  {
    if steps != [] {
      if steps[0].Undo? {
        UndoShrinks(l, e, Encode(l, e.scenario), steps[0].ids);
      }
      StacksBounded(l, Apply(l, e, steps[0]), steps[1..]);
    }
  }

  /** The snapshot an undo will restore: the topmost that differs from the current state. */
  function Target(undo: seq<string>, cur: string): Option<string> {
    if undo == [] then None
    else if undo[|undo| - 1] == cur then Target(undo[..|undo| - 1], cur)
    else Some(undo[|undo| - 1])
  }

  lemma {:induction false} UndoReaches(l: Libs, e: Editor, cur: string, ids: Ids)
    requires cur != ""
    ensures var u := UndoSpec(l, e, cur, ids);
            match Target(e.undo, cur)
            case None => u == e.(undo := [])
            case Some(top) =>
              && u.redo == e.redo + [cur] && u.undo + [top] <= e.undo && u.pending == e.pending
              && u.scenario == (match Decode(l, top, ids) case None => e.scenario case Some(s) => s)
    decreases |e.undo|
  {
    hide Decode;
    if e.undo != [] {
      var n := |e.undo| - 1;
      if e.undo[n] == cur {
        UndoReaches(l, e.(undo := e.undo[..n]), cur, ids);
        assert e.undo[..n] <= e.undo;
      } else {
        assert e.undo[..n] + [e.undo[n]] == e.undo;
      }
    }
  }

  /**
   A redo right after an undo that changed something brings the scenario back: its encoding is the
   normal form of the one it started from, the redo stack is as before, and it is the very same
   encoding if and only if the scenario was settled, as after decoding.
   */
  lemma RedoUndoesUndo(l: Libs, e: Editor, ids: Ids, ids2: Ids)
    requires Lawful(l)
    requires var cur := Encode(l, e.scenario); cur != "" && Target(e.undo, cur).Some?
    ensures var cur := Encode(l, e.scenario);
            var u := UndoSpec(l, e, cur, ids);
            var r := RedoSpec(l, u, ids2);
            && r.redo == e.redo
            && Some(Encode(l, r.scenario)) == Normal(l, cur, ids2)
            && (Settled(e.scenario) <==> Encode(l, r.scenario) == cur)
            && r.undo == u.undo + (if Encode(l, u.scenario) != "" then [Encode(l, u.scenario)] else [])
  {
    hide UndoSpec, FromDTO, Settled, Target;
    var cur := Encode(l, e.scenario);
    UndoReaches(l, e, cur, ids);
    var u := UndoSpec(l, e, cur, ids);
    assert u.redo[..|u.redo| - 1] == e.redo && u.redo[|u.redo| - 1] == cur;
    assert Decode(l, cur, ids2).Some?;
    var r := RedoSpec(l, u, ids2);
    assert r.scenario == FromDTO(ToDTO(l, e.scenario), ids2);
    DecodedIsSettled(ToDTO(l, e.scenario), ids2);
    if Settled(e.scenario) {
      SettledRoundTrip(l, e.scenario, ids2);
    } else if Encode(l, r.scenario) == cur {
      SameEncodingSettled(l, r.scenario, e.scenario);
    }
  }

  /** A cleared waiting time does not come back empty. */
  lemma ClearedWaitComesBack(l: Libs, e: Editor, n: Node, ids: Ids, ids2: Ids)
    requires Lawful(l) && n in e.scenario.nodes && WaitCleared(n)
    requires var cur := Encode(l, e.scenario); cur != "" && Target(e.undo, cur).Some?
    ensures var cur := Encode(l, e.scenario);
            Encode(l, RedoSpec(l, UndoSpec(l, e, cur, ids), ids2).scenario) != cur
  {
    hide Settled, UndoSpec, RedoSpec, Encode, Target;
    ClearedIsUnsettled(e.scenario, n);
    RedoUndoesUndo(l, e, ids, ids2);
  }

  // ----- snapshots -----

  /** A new snapshot lies on top, of those below the latest 99 stay, and nothing can be redone any more. */
  lemma PushAdds(e: Editor, snap: string)
    requires snap != "" && (e.undo == [] || e.undo[|e.undo| - 1] != snap) && |e.undo| <= HISTORY_LIMIT
    ensures var p := PushSnapshotSpec(e, snap);
            && p.redo == [] && p.scenario == e.scenario && p.pending == e.pending
            && p.undo == (if |e.undo| == 100 then e.undo[1..] else e.undo) + [snap]
  {
    assert |e.undo| == 100 ==> (e.undo + [snap])[1..] == e.undo[1..] + [snap];
  }

  /**
   An edit is undone: behind a snapshot of the state and any change that shows in the encoding, an undo brings back the
   normal form of that state, and a redo can bring back the change.
   */
  lemma EditUndone(l: Libs, e: Editor, changed: Scenario, ids: Ids)
    requires Lawful(l) && |e.undo| <= HISTORY_LIMIT
    requires Encode(l, e.scenario) != "" && Encode(l, changed) != "" && Encode(l, changed) != Encode(l, e.scenario)
    ensures var was := Encode(l, e.scenario);
            var u := Run(l, e, [Snapshot(was), Edit(changed), Undo(ids)]);
            && Some(Encode(l, u.scenario)) == Normal(l, was, ids)
            && u.redo != [] && u.redo[|u.redo| - 1] == Encode(l, changed)
  {
    hide UndoSpec, PushSnapshotSpec, FromDTO, Run;
    var was := Encode(l, e.scenario);
    ThreeSteps(l, e, Snapshot(was), Edit(changed), Undo(ids));
    OnTop(e, was);
    UndoReaches(l, PushSnapshotSpec(e, was).(scenario := changed), Encode(l, changed), ids);
  }

  lemma OnTop(e: Editor, snap: string)
    requires snap != ""
    ensures var p := PushSnapshotSpec(e, snap); p.undo != [] && p.undo[|p.undo| - 1] == snap
  {
  }

  lemma ThreeSteps(l: Libs, e: Editor, a: Step, b: Step, c: Step)
    ensures Run(l, e, [a, b, c]) == Apply(l, Apply(l, Apply(l, e, a), b), c)
  {
    hide Apply;
    var e1 := Apply(l, e, a);
    var e2 := Apply(l, e1, b);
    assert [a, b, c][1..] == [b, c] && [b, c][1..] == [c] && [c][1..] == [];
    assert Run(l, e, [a, b, c]) == Run(l, e1, [b, c]) == Run(l, e2, [c]) == Run(l, Apply(l, e2, c), []);
  }
}
