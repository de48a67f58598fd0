/**
 * Security labels of one request: racing plugin calls that snapshot and overwrite the shared
 * extensions, the host's taint repair, and the session store behind it.
 */
module Labels {
  import opened Prelude
  import opened Policy

  type LabelSet = set<string>

  /** The labels that session-scoped taints name. */
  function SessionLabels(taints: seq<TaintEvent>): LabelSet {
    set i | 0 <= i < |taints| && Session in taints[i].scopes :: taints[i].name
  }

  /** One taint per label a call added. */
  predicate ReportsExactly(taints: seq<TaintEvent>, added: LabelSet) {
    && SessionLabels(taints) == added
    && forall i :: 0 <= i < |taints| ==> taints[i].scopes == [Session]
  }

  type StoreContents = map<string, LabelSet>

  function Stored(contents: StoreContents, sid: string): LabelSet {
    if sid in contents then contents[sid] else {}
  }

  /** A session holds what was last stored under its own id, and nothing before that. */
  lemma StoredExactly(contents: StoreContents, sid: string, labels: LabelSet, other: string)
    ensures Stored(map[], other) == {}
    ensures Stored(contents[sid := labels], other) == if other == sid then labels else Stored(contents, other)
  {
  }

  datatype StoreError = Backend

  /** The session store; `available` is false while the backend is down. */
  class SessionStore {
    var contents: StoreContents
    var available: bool

    method LoadLabels(sid: string) returns (loaded: Result<LabelSet, StoreError>)
      ensures loaded == if available then Ok(Stored(contents, sid)) else Err(Backend)
    {
      if !available {
        return Err(Backend);
      }
      return Ok(Stored(contents, sid));
    }

    method AppendLabels(sid: string, labels: LabelSet) returns (done: Result<(), StoreError>)
      modifies this
      ensures available == old(available)
      ensures done.Ok? <==> available
      ensures done.Ok? ==> contents == old(contents)[sid := Stored(old(contents), sid) + labels]
      ensures done.Err? ==> contents == old(contents)
    {
      if !available {
        return Err(Backend);
      }
      contents := contents[sid := Stored(contents, sid) + labels];
      return Ok(());
    }
  }

  /** The invoker of one request: the shared label set, and what it was once the session was loaded. */
  class CmfPluginInvoker {
    var labels: LabelSet
    const sessionId: Option<string>
    const initialLabels: LabelSet
    const store: SessionStore

    constructor (labels: LabelSet, sessionId: Option<string>, store: SessionStore)
      ensures this.labels == labels && initialLabels == labels
      ensures this.sessionId == sessionId && this.store == store
    {
      this.labels := labels;
      this.initialLabels := labels;
      this.sessionId := sessionId;
      this.store := store;
    }

    /** Hydrates the request's labels with the session's; fails closed when they cannot be read. */
    static method ForRequest(labels: LabelSet, sessionId: Option<string>, store: SessionStore)
      returns (invoker: Result<CmfPluginInvoker, StoreError>)
      ensures invoker.Err? <==> sessionId.Some? && !store.available
      ensures invoker.Ok? ==>
                && fresh(invoker.value)
                && invoker.value.sessionId == sessionId && invoker.value.store == store
                && invoker.value.labels == invoker.value.initialLabels
                && invoker.value.labels == labels + if sessionId.Some? then Stored(store.contents, sessionId.value) else {}
    {
      var hydrated := labels;
      if sessionId.Some? {
        var loaded := store.LoadLabels(sessionId.value);
        if loaded.Err? {
          return Err(loaded.error);
        }
        hydrated := labels + loaded.value;
      }
      var made := new CmfPluginInvoker(hydrated, sessionId, store);
      return Ok(made);
    }

    /** The end of one plugin call: overwrite the shared labels, report what this call added to its own snapshot. */
    method AcceptExtensions(before: LabelSet, modified: Option<LabelSet>) returns (taints: seq<TaintEvent>)
      modifies this
      ensures labels == if modified.Some? then modified.value else old(labels)
      ensures ReportsExactly(taints, if modified.Some? then modified.value - before else {})
    {
      taints := [];
      if modified.Some? {
        var added := modified.value - before;
        labels := modified.value;
        var todo := added;
        while todo != {}
          invariant todo <= added
          invariant ReportsExactly(taints, added - todo)
          invariant labels == modified.value
        {
          var one :| one in todo;
          AppendReported(taints, one);
          taints := taints + [TaintEvent(one, [Session])];
          todo := todo - {one};
        }
      }
    }

    method ApplySessionTaints(taints: seq<TaintEvent>)
      modifies this
      ensures labels == old(labels) + SessionLabels(taints)
    {
      labels := labels + SessionLabels(taints);
    }

    /** Appends what the request added; the labels it started with are never written back. */
    method PersistSession() returns (done: Result<(), StoreError>)
      modifies store
      ensures labels == old(labels)
      ensures done.Ok? && sessionId.Some? ==>
                Stored(store.contents, sessionId.value) == Stored(old(store.contents), sessionId.value) + (labels - initialLabels)
      ensures forall sid :: Some(sid) != sessionId ==> Stored(store.contents, sid) == Stored(old(store.contents), sid)
      ensures done.Err? ==> store.contents == old(store.contents) && sessionId.Some? && !(labels <= initialLabels)
    {
      if sessionId.None? {
        return Ok(());
      }
      var added := labels - initialLabels;
      if added != {} {
        done := store.AppendLabels(sessionId.value, added);
      } else {
        done := Ok(());
      }
    }
  }

  lemma AppendReported(taints: seq<TaintEvent>, one: string)
    ensures SessionLabels(taints + [TaintEvent(one, [Session])]) == SessionLabels(taints) + {one}
  {
    var more := taints + [TaintEvent(one, [Session])];
    assert more[|taints|] == TaintEvent(one, [Session]);
    forall l | l in SessionLabels(taints) ensures l in SessionLabels(more) {
      var i :| 0 <= i < |taints| && Session in taints[i].scopes && taints[i].name == l;
      assert more[i] == taints[i];
    }
  }

  /** A taint counts as a session label exactly when the session is among its scopes. */
  lemma TaintByTaint(taints: seq<TaintEvent>, t: TaintEvent)
    ensures SessionLabels([]) == {}
    ensures SessionLabels(taints + [t]) == SessionLabels(taints) + if Session in t.scopes then {t.name} else {}
  {
    SessionLabelsConcat(taints, [t]);
    assert Session in t.scopes ==> [t][0].name in SessionLabels([t]);
  }

  lemma SessionLabelsConcat(xs: seq<TaintEvent>, ys: seq<TaintEvent>)
    ensures SessionLabels(xs + ys) == SessionLabels(xs) + SessionLabels(ys)
  {
    var zs := xs + ys;
    forall l | l in SessionLabels(xs) ensures l in SessionLabels(zs) {
      var i :| 0 <= i < |xs| && Session in xs[i].scopes && xs[i].name == l;
      assert zs[i] == xs[i];
    }
    forall l | l in SessionLabels(ys) ensures l in SessionLabels(zs) {
      var i :| 0 <= i < |ys| && Session in ys[i].scopes && ys[i].name == l;
      assert zs[|xs| + i] == ys[i];
    }
    forall l | l in SessionLabels(zs) ensures l in SessionLabels(xs) + SessionLabels(ys) {
      var i :| 0 <= i < |zs| && Session in zs[i].scopes && zs[i].name == l;
      assert zs[i] == if i < |xs| then xs[i] else ys[i - |xs|];
    }
  }

  // ---- The race between calls.

  /** One plugin call. A call that is done but never returns belongs to a branch that was cut before it could report. */
  datatype Call =
    | Waiting
    | Running(before: LabelSet)
    | Done(before: LabelSet, after: LabelSet)
    | Returned(before: LabelSet, after: LabelSet)

  /** The shared labels, the calls, and the taints reported to the host so far. */
  datatype State = State(shared: LabelSet, calls: seq<Call>, told: seq<TaintEvent>)

  ghost predicate Init(initial: LabelSet, s: State) {
    s.shared == initial && s.told == [] && forall i :: 0 <= i < |s.calls| ==> s.calls[i].Waiting?
  }

  datatype Step =
    | Snapshot(i: nat)
    | Overwrite(i: nat, after: LabelSet)
    | LeaveUnchanged(i: nat)
    | Return(i: nat, taints: seq<TaintEvent>)

  /** Calls interleave freely; the executor lets a call add labels to its snapshot, never remove one. */
  ghost predicate NextStep(s: State, s': State, step: Step) {
    && step.i < |s.calls|
    && var c := s.calls[step.i];
    match step
    case Snapshot(i) => c.Waiting? && s' == s.(calls := s.calls[i := Running(s.shared)])
    case Overwrite(i, after) =>
      c.Running? && c.before <= after && s' == s.(shared := after, calls := s.calls[i := Done(c.before, after)])
    case LeaveUnchanged(i) => c.Running? && s' == s.(calls := s.calls[i := Done(c.before, c.before)])
    case Return(i, taints) =>
      && c.Done? && ReportsExactly(taints, c.after - c.before)
      && s' == s.(calls := s.calls[i := Returned(c.before, c.after)], told := s.told + taints)
  }

  ghost predicate CanStep(s: State, s': State) {
    exists step :: NextStep(s, s', step)
  }

  ghost predicate Run(initial: LabelSet, states: seq<State>) {
    && states != [] && Init(initial, states[0])
    && forall k :: 0 <= k < |states| - 1 ==> CanStep(states[k], states[k + 1])
  }

  predicate Finished(c: Call) { c.Done? || c.Returned? }

  function Added(c: Call): LabelSet {
    if Finished(c) then c.after - c.before else {}
  }

  /** Every label some call added. */
  ghost function Emitted(s: State): LabelSet {
    set i, l | 0 <= i < |s.calls| && l in Added(s.calls[i]) :: l
  }

  /** The labels added by the calls that returned. */
  ghost function Collected(s: State): LabelSet {
    set i, l | 0 <= i < |s.calls| && s.calls[i].Returned? && l in Added(s.calls[i]) :: l
  }

  ghost predicate Inv(initial: LabelSet, s: State) {
    && initial <= s.shared <= initial + Emitted(s)
    && SessionLabels(s.told) == Collected(s)
    && forall i :: 0 <= i < |s.calls| && !s.calls[i].Waiting? ==>
         && initial <= s.calls[i].before <= initial + Emitted(s)
         && (Finished(s.calls[i]) ==> s.calls[i].before <= s.calls[i].after)
  }

  lemma EmittedGrows(s: State, s': State, step: Step)
    requires NextStep(s, s', step)
    ensures Emitted(s) <= Emitted(s')
  {
    forall l | l in Emitted(s) ensures l in Emitted(s') {
      var i :| 0 <= i < |s.calls| && l in Added(s.calls[i]);
      assert l in Added(s'.calls[i]);
    }
  }

  /** A return adds its call's labels to those collected; no other step changes them. */
  lemma CollectedStep(s: State, s': State, step: Step)
    requires NextStep(s, s', step)
    ensures Collected(s') == Collected(s) + if step.Return? then Added(s.calls[step.i]) else {}
  {
    forall l | l in Collected(s) ensures l in Collected(s') {
      var i :| 0 <= i < |s.calls| && s.calls[i].Returned? && l in Added(s.calls[i]);
      assert s'.calls[i] == s.calls[i];
    }
    forall l | l in Collected(s') && l !in Collected(s) ensures step.Return? && l in Added(s.calls[step.i]) {
      var i :| 0 <= i < |s'.calls| && s'.calls[i].Returned? && l in Added(s'.calls[i]);
      assert i == step.i;
    }
    if step.Return? {
      assert s'.calls[step.i].Returned? && Added(s'.calls[step.i]) == Added(s.calls[step.i]);
    }
  }

  lemma InvStep(initial: LabelSet, s: State, s': State, step: Step)
    requires Inv(initial, s) && NextStep(s, s', step)
    ensures Inv(initial, s')
  {
    EmittedGrows(s, s', step);
    CollectedStep(s, s', step);
    if step.Overwrite? {
      forall l | l in step.after ensures l in initial + Emitted(s') {
        assert l in Added(s'.calls[step.i]) || l in s.calls[step.i].before;
      }
    } else if step.Return? {
      SessionLabelsConcat(s.told, step.taints);
    }
  }

  lemma {:induction false} RunInv(initial: LabelSet, states: seq<State>, k: nat)
    requires Run(initial, states) && k < |states|
    ensures Inv(initial, states[k])
  {
    if k > 0 {
      RunInv(initial, states, k - 1);
      assert CanStep(states[k - 1], states[k - 1 + 1]);
      var step :| NextStep(states[k - 1], states[k], step);
      InvStep(initial, states[k - 1], states[k], step);
    }
  }

  /** The labels after the host applies every taint it was told of and `own` of its own. */
  function Repaired(s: State, own: seq<TaintEvent>): LabelSet {
    s.shared + SessionLabels(s.told + own)
  }

  /**
   * In every interleaving, after the repair every label a returned call added is present, whatever
   * racing write dropped it, and no label appears that was neither there at the start, nor added by
   * a call, nor among the host's own taints.
   */
  lemma NoCollectedLabelLost(initial: LabelSet, states: seq<State>, own: seq<TaintEvent>)
    requires Run(initial, states)
    ensures var last := states[|states| - 1];
            initial + Collected(last) + SessionLabels(own) <= Repaired(last, own) <= initial + Emitted(last) + SessionLabels(own)
  {
    var last := states[|states| - 1];
    RunInv(initial, states, |states| - 1);
    SessionLabelsConcat(last.told, own);
    forall l | l in Collected(last) ensures l in Emitted(last) {
      var i :| 0 <= i < |last.calls| && last.calls[i].Returned? && l in Added(last.calls[i]);
    }
  }

  /** When every finished call returned, the result is exactly the initial labels, everything any call added, and the host's own. */
  lemma ExactWhenNothingDropped(initial: LabelSet, states: seq<State>, own: seq<TaintEvent>)
    requires Run(initial, states)
    requires var last := states[|states| - 1]; forall i :: 0 <= i < |last.calls| ==> !last.calls[i].Done?
    ensures var last := states[|states| - 1];
            && Repaired(last, own) == initial + Emitted(last) + SessionLabels(own)
            && forall i :: 0 <= i < |last.calls| && last.calls[i].Returned? ==> last.calls[i].after <= Repaired(last, own)
  {
    var last := states[|states| - 1];
    RunInv(initial, states, |states| - 1);
    NoCollectedLabelLost(initial, states, own);
    forall l | l in Emitted(last) ensures l in Collected(last) {
      var i :| 0 <= i < |last.calls| && l in Added(last.calls[i]);
      assert last.calls[i].Returned?;
    }
    forall i, l | 0 <= i < |last.calls| && last.calls[i].Returned? && l in last.calls[i].after
      ensures l in initial + Emitted(last)
    {
      assert l in last.calls[i].before || l in Added(last.calls[i]);
    }
  }

  /**
   * A returned call's whole view survives as far as it does not rest on calls that never returned:
   * a label of its result that is missing in the end was added by some call, and only by those.
   */
  lemma CompletedViewSurvives(initial: LabelSet, states: seq<State>, own: seq<TaintEvent>, i: nat, l: string)
    requires Run(initial, states)
    requires var last := states[|states| - 1];
             i < |last.calls| && last.calls[i].Returned? && l in last.calls[i].after && l !in Repaired(last, own)
    ensures var last := states[|states| - 1];
            && l in Emitted(last)
            && forall j :: 0 <= j < |last.calls| && l in Added(last.calls[j]) ==> last.calls[j].Done?
  {
    var last := states[|states| - 1];
    RunInv(initial, states, |states| - 1);
    NoCollectedLabelLost(initial, states, own);
    assert l in last.calls[i].before || l in Added(last.calls[i]);
    forall j | 0 <= j < |last.calls| && l in Added(last.calls[j]) ensures last.calls[j].Done? {
      assert l !in Collected(last);
    }
  }

  lemma Extend(initial: LabelSet, states: seq<State>, s: State, step: Step)
    requires Run(initial, states) && NextStep(states[|states| - 1], s, step)
    ensures Run(initial, states + [s])
  {
    var longer := states + [s];
    forall k | 0 <= k < |longer| - 1 ensures CanStep(longer[k], longer[k + 1]) {
      if k < |states| - 1 {
        assert longer[k] == states[k] && longer[k + 1] == states[k + 1];
      }
    }
  }

  const A: TaintEvent := TaintEvent("a", [Session])
  const B: TaintEvent := TaintEvent("b", [Session])

  lemma ReportsOne(taint: TaintEvent)
    requires taint.scopes == [Session]
    ensures ReportsExactly([taint], {taint.name}) && ReportsExactly([], {})
  {
    assert Session in [taint][0].scopes;
  }

  /** Without the repair a racing write does lose a label: the second writer never saw the first one's. */
  lemma RaceLosesLabel() returns (states: seq<State>)
    ensures Run({}, states)
    ensures var last := states[|states| - 1];
            last.shared == {"b"} && Collected(last) == {"a", "b"}
  {
    var s0 := State({}, [Waiting, Waiting], []);
    var s1 := State({}, [Running({}), Waiting], []);
    var s2 := State({}, [Running({}), Running({})], []);
    var s3 := State({"a"}, [Done({}, {"a"}), Running({})], []);
    var s4 := State({"b"}, [Done({}, {"a"}), Done({}, {"b"})], []);
    var s5 := State({"b"}, [Returned({}, {"a"}), Done({}, {"b"})], [A]);
    var s6 := State({"b"}, [Returned({}, {"a"}), Returned({}, {"b"})], [A, B]);
    ReportsOne(A);
    ReportsOne(B);
    states := [s0];
    Extend({}, states, s1, Snapshot(0));
    Extend({}, states + [s1], s2, Snapshot(1));
    Extend({}, states + [s1] + [s2], s3, Overwrite(0, {"a"}));
    Extend({}, states + [s1] + [s2] + [s3], s4, Overwrite(1, {"b"}));
    Extend({}, states + [s1] + [s2] + [s3] + [s4], s5, Return(0, [A]));
    Extend({}, states + [s1] + [s2] + [s3] + [s4] + [s5], s6, Return(1, [B]));
    states := states + [s1] + [s2] + [s3] + [s4] + [s5] + [s6];
    assert "a" in Added(s6.calls[0]) && "b" in Added(s6.calls[1]);
    assert Collected(s6) == {"a", "b"};
  }

  // ---- Which labels are safe.

  /** The race may go on from `s` like this. */
  ghost predicate Continues(s: State, states: seq<State>) {
    && states != [] && states[0] == s
    && forall k :: 0 <= k < |states| - 1 ==> CanStep(states[k], states[k + 1])
  }

  /** The label is shared, and in the snapshot of every call that may still overwrite it. */
  predicate Held(s: State, l: string) {
    l in s.shared && forall i :: 0 <= i < |s.calls| && s.calls[i].Running? ==> l in s.calls[i].before
  }

  predicate Reported(s: State, own: seq<TaintEvent>, l: string) { l in SessionLabels(s.told + own) }

  lemma SafeStep(s: State, s': State, step: Step, own: seq<TaintEvent>, l: string)
    requires NextStep(s, s', step) && (Reported(s, own, l) || Held(s, l))
    ensures Reported(s', own, l) || Held(s', l)
  {
    if step.Return? {
      SessionLabelsConcat(s.told, step.taints);
    }
    SessionLabelsConcat(s.told, own);
    SessionLabelsConcat(s'.told, own);
  }

  lemma {:induction false} SafeStays(s: State, states: seq<State>, own: seq<TaintEvent>, l: string, k: nat)
    requires Continues(s, states) && k < |states| && (Reported(s, own, l) || Held(s, l))
    ensures Reported(states[k], own, l) || Held(states[k], l)
  {
    if k > 0 {
      SafeStays(s, states, own, l, k - 1);
      assert CanStep(states[k - 1], states[k - 1 + 1]);
      var step :| NextStep(states[k - 1], states[k], step);
      SafeStep(states[k - 1], states[k], step, own, l);
    }
  }

  /** Otherwise stopping here, or one write by a call whose snapshot lacks the label, loses it. */
  lemma UnsafeIsLost(s: State, own: seq<TaintEvent>, l: string) returns (states: seq<State>)
    requires !Reported(s, own, l) && !Held(s, l)
    ensures Continues(s, states)
    ensures var last := states[|states| - 1];
            && l !in Repaired(last, own)
            && |last.calls| == |s.calls| && forall i :: 0 <= i < |s.calls| && s.calls[i].Returned? ==> last.calls[i] == s.calls[i]
  {
    states := [s];
    if l in s.shared {
      var i :| 0 <= i < |s.calls| && s.calls[i].Running? && l !in s.calls[i].before;
      var before := s.calls[i].before;
      var s' := s.(shared := before, calls := s.calls[i := Done(before, before)]);
      assert NextStep(s, s', Overwrite(i, before));
      states := [s, s'];
      assert CanStep(states[0], states[0 + 1]);
    }
  }

  /**
   * From any state, a label is in the repaired set whatever happens next if and only if it has been
   * reported, or it is shared and every running call has it in its snapshot.
   */
  lemma SafeExactly(s: State, own: seq<TaintEvent>, l: string)
    ensures (forall states :: Continues(s, states) ==> l in Repaired(states[|states| - 1], own))
            <==> Reported(s, own, l) || Held(s, l)
  {
    if Reported(s, own, l) || Held(s, l) {
      forall states | Continues(s, states) ensures l in Repaired(states[|states| - 1], own) {
        SafeStays(s, states, own, l, |states| - 1);
      }
    } else {
      var states := UnsafeIsLost(s, own, l);
      assert Continues(s, states) && l !in Repaired(states[|states| - 1], own);
    }
  }

  /**
   * The repair does not reach a label that is neither reported nor held, even when a returned call's
   * own result has it: every run in such a state goes on to one that has lost the label.
   */
  lemma SharedWithAbortedIsLost(initial: LabelSet, states: seq<State>, own: seq<TaintEvent>, i: nat, l: string)
    returns (longer: seq<State>)
    requires Run(initial, states)
    requires var last := states[|states| - 1];
             && i < |last.calls| && last.calls[i].Returned? && l in last.calls[i].after
             && !Reported(last, own, l) && !Held(last, l)
    ensures Run(initial, longer) && states <= longer
    ensures var end := longer[|longer| - 1];
            && i < |end.calls| && end.calls[i].Returned? && l in end.calls[i].after && l !in Repaired(end, own)
  {
    var last := states[|states| - 1];
    var more := UnsafeIsLost(last, own, l);
    longer := states + more[1..];
    forall k | 0 <= k < |longer| - 1 ensures CanStep(longer[k], longer[k + 1]) {
      if k < |states| - 1 {
        assert longer[k] == states[k] && longer[k + 1] == states[k + 1];
      } else {
        var j := k - (|states| - 1);
        assert longer[k] == more[j] && longer[k + 1] == more[j + 1];
      }
    }
    assert longer[|longer| - 1] == more[|more| - 1];
  }

  /**
   * Such states arise for every label not there at the start: a call whose branch is later cut writes
   * it, another snapshots it and returns it as already there, and a third still runs on an older snapshot.
   */
  lemma UnsafeIsReached(initial: LabelSet, l: string) returns (states: seq<State>)
    requires l !in initial
    ensures Run(initial, states)
    ensures var last := states[|states| - 1];
            && |last.calls| == 3 && last.calls[1].Returned? && l in last.calls[1].after
            && !Reported(last, [], l) && !Held(last, l)
  {
    var more := initial + {l};
    var s0 := State(initial, [Waiting, Waiting, Waiting], []);
    var s1 := State(initial, [Waiting, Waiting, Running(initial)], []);
    var s2 := State(initial, [Running(initial), Waiting, Running(initial)], []);
    var s3 := State(more, [Done(initial, more), Waiting, Running(initial)], []);
    var s4 := State(more, [Done(initial, more), Running(more), Running(initial)], []);
    var s5 := State(more, [Done(initial, more), Done(more, more), Running(initial)], []);
    var s6 := State(more, [Done(initial, more), Returned(more, more), Running(initial)], []);
    ReportsOne(A);
    states := [s0];
    Extend(initial, states, s1, Snapshot(2));
    Extend(initial, states + [s1], s2, Snapshot(0));
    Extend(initial, states + [s1] + [s2], s3, Overwrite(0, more));
    Extend(initial, states + [s1] + [s2] + [s3], s4, Snapshot(1));
    Extend(initial, states + [s1] + [s2] + [s3] + [s4], s5, LeaveUnchanged(1));
    Extend(initial, states + [s1] + [s2] + [s3] + [s4] + [s5], s6, Return(1, []));
    states := states + [s1] + [s2] + [s3] + [s4] + [s5] + [s6];
    assert s6.calls[2].Running? && l !in s6.calls[2].before;
    SessionLabelsConcat([], []);
  }
}
