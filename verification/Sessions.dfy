/**
 * The requests of one session, any number in flight: each loads the stored labels when it starts
 * and appends what it added when it ends.
 */
module Sessions {
  import opened Policy
  import opened Labels

  /** One request: the labels it came in with, what it loaded, what its returned calls added, and all it may have added. */
  datatype Request =
    | Arriving(own: LabelSet)
    | Refused(own: LabelSet)
    | Open(own: LabelSet, loaded: LabelSet)
    | Persisted(own: LabelSet, loaded: LabelSet, collected: LabelSet, brought: LabelSet)
    | Unsaved(own: LabelSet, loaded: LabelSet)

  datatype SessionState = SessionState(store: LabelSet, requests: seq<Request>)

  ghost predicate Begins(first: LabelSet, s: SessionState) {
    s.store == first && forall i :: 0 <= i < |s.requests| ==> s.requests[i].Arriving?
  }

  datatype Move =
    | Load(i: nat)
    | LoadFails(i: nat)
    | Append(i: nat, states: seq<State>, taints: seq<TaintEvent>)
    | AppendFails(i: nat)

  /** Loads and appends of different requests interleave freely, and either may fail at any time. */
  ghost predicate NextMove(s: SessionState, s': SessionState, move: Move) {
    && move.i < |s.requests|
    && var r := s.requests[move.i];
    match move
    case Load(i) => r.Arriving? && s' == s.(requests := s.requests[i := Open(r.own, s.store)])
    case LoadFails(i) => r.Arriving? && s' == s.(requests := s.requests[i := Refused(r.own)])
    case Append(i, states, taints) =>
      && r.Open? && Run(r.own + r.loaded, states)
      && var last := states[|states| - 1];
      s' == SessionState(
        s.store + (Repaired(last, taints) - (r.own + r.loaded)),
        s.requests[i := Persisted(r.own, r.loaded, Collected(last), Emitted(last) + SessionLabels(taints))])
    case AppendFails(i) => r.Open? && s' == s.(requests := s.requests[i := Unsaved(r.own, r.loaded)])
  }

  ghost predicate CanMove(s: SessionState, s': SessionState) {
    exists move :: NextMove(s, s', move)
  }

  ghost predicate History(first: LabelSet, sessions: seq<SessionState>) {
    && sessions != [] && Begins(first, sessions[0])
    && forall k :: 0 <= k < |sessions| - 1 ==> CanMove(sessions[k], sessions[k + 1])
  }

  /** What the persisted requests may have brought. */
  ghost function Brought(s: SessionState): LabelSet {
    set i, l | 0 <= i < |s.requests| && s.requests[i].Persisted? && l in s.requests[i].brought :: l
  }

  ghost predicate RequestInv(s: SessionState, r: Request) {
    && (r.Open? || r.Persisted? || r.Unsaved? ==> r.loaded <= s.store)
    && (r.Persisted? ==> r.collected - r.own <= s.store)
  }

  ghost predicate SessionInv(first: LabelSet, s: SessionState) {
    && first <= s.store <= first + Brought(s)
    && forall i :: 0 <= i < |s.requests| ==> RequestInv(s, s.requests[i])
  }

  lemma BroughtGrows(s: SessionState, s': SessionState, move: Move)
    requires NextMove(s, s', move)
    ensures Brought(s) <= Brought(s')
    ensures move.Append? ==> s'.requests[move.i].brought <= Brought(s')
  {
    forall l | l in Brought(s) ensures l in Brought(s') {
      var i :| 0 <= i < |s.requests| && s.requests[i].Persisted? && l in s.requests[i].brought;
      assert s'.requests[i] == s.requests[i];
    }
    if move.Append? {
      assert s'.requests[move.i].Persisted?;
    }
  }

  lemma MoveKeeps(first: LabelSet, s: SessionState, s': SessionState, move: Move)
    requires SessionInv(first, s) && NextMove(s, s', move)
    ensures SessionInv(first, s') && s.store <= s'.store && |s'.requests| == |s.requests|
  {
    BroughtGrows(s, s', move);
    if move.Append? {
      var r := s.requests[move.i];
      NoCollectedLabelLost(r.own + r.loaded, move.states, move.taints);
    }
    forall i | 0 <= i < |s'.requests| ensures RequestInv(s', s'.requests[i]) {
      assert RequestInv(s, s.requests[i]);
    }
  }

  /** Whatever requests overlap and whichever appends fail, the stored labels only grow, and only by what some request added. */
  lemma {:induction false} SessionOnlyGrows(first: LabelSet, sessions: seq<SessionState>, j: nat, k: nat)
    requires History(first, sessions) && j <= k < |sessions|
    ensures SessionInv(first, sessions[k])
    ensures sessions[j].store <= sessions[k].store
    ensures sessions[k].store <= first + Brought(sessions[k])
    ensures |sessions[k].requests| == |sessions[j].requests|
    decreases k
  {
    if k > 0 {
      SessionOnlyGrows(first, sessions, if j < k then j else k - 1, k - 1);
      assert CanMove(sessions[k - 1], sessions[k - 1 + 1]);
      var move :| NextMove(sessions[k - 1], sessions[k], move);
      MoveKeeps(first, sessions[k - 1], sessions[k], move);
    }
  }

  /** From its append on, every label a request's returned calls added is stored, but for those it came in with. */
  lemma RequestPersists(first: LabelSet, sessions: seq<SessionState>, k: nat, i: nat)
    requires History(first, sessions) && k < |sessions|
    requires i < |sessions[k].requests| && sessions[k].requests[i].Persisted?
    ensures sessions[k].requests[i].collected - sessions[k].requests[i].own <= sessions[k].store
  {
    SessionOnlyGrows(first, sessions, k, k);
    assert RequestInv(sessions[k], sessions[k].requests[i]);
  }

  /** A request that arrives later starts with everything stored by then. */
  lemma {:induction false} LaterRequestsLoadIt(first: LabelSet, sessions: seq<SessionState>, j: nat, k: nat, m: nat)
    requires History(first, sessions) && j <= k < |sessions|
    requires m < |sessions[j].requests| && sessions[j].requests[m].Arriving?
    ensures m < |sessions[k].requests|
    ensures var r := sessions[k].requests[m]; r.Arriving? || r.Refused? || sessions[j].store <= r.loaded
    decreases k
  {
    SessionOnlyGrows(first, sessions, j, k);
    if j < k {
      LaterRequestsLoadIt(first, sessions, j, k - 1, m);
      SessionOnlyGrows(first, sessions, j, k - 1);
      assert CanMove(sessions[k - 1], sessions[k - 1 + 1]);
      var move :| NextMove(sessions[k - 1], sessions[k], move);
      assert move.i == m || sessions[k].requests[m] == sessions[k - 1].requests[m];
    }
  }
}
