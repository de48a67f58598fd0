/** `run_branches`: N branches at once, the rest aborted on the first deny, outcomes in input order. */
module RunBranches {
  import opened Prelude

  datatype BranchOutcome<T> = Completed(value: T) | Aborted | Panicked

  /** One spawned task, from running to joined; a cancelled one never produces an outcome. */
  datatype Task<T> = Running | Finished(outcome: BranchOutcome<T>) | Cancelled | Joined(outcomeSeen: Option<BranchOutcome<T>>)

  datatype State<T> = State(tasks: seq<Task<T>>, done: map<nat, BranchOutcome<T>>, aborted: bool)

  ghost predicate Init<T>(s: State<T>) {
    && (forall i :: 0 <= i < |s.tasks| ==> s.tasks[i].Running?)
    && s.done == map[] && !s.aborted
  }

  datatype Step<T> = Complete(i: nat, value: T) | Panic(i: nat) | Cancel(i: nat) | Join(i: nat)

  /** One step of the runtime or of the collecting loop; `isDeny` is the caller's short-circuit test. */
  ghost predicate NextStep<T(!new)>(isDeny: T -> bool, s: State<T>, s': State<T>, step: Step<T>) {
    && step.i < |s.tasks|
    && match step
       case Complete(i, v) => s.tasks[i].Running? && s' == s.(tasks := s.tasks[i := Finished(Completed(v))])
       case Panic(i) => s.tasks[i].Running? && s' == s.(tasks := s.tasks[i := Finished(Panicked)])
       case Cancel(i) => s.aborted && s.tasks[i].Running? && s' == s.(tasks := s.tasks[i := Cancelled])
       case Join(i) =>
         match s.tasks[i]
         case Finished(o) =>
           s' == State(s.tasks[i := Joined(Some(o))], s.done[i := o], s.aborted || (o.Completed? && isDeny(o.value)))
         case Cancelled => s' == s.(tasks := s.tasks[i := Joined(None)])
         case _ => false
  }

  ghost predicate CanStep<T(!new)>(isDeny: T -> bool, s: State<T>, s': State<T>) {
    exists step :: NextStep(isDeny, s, s', step)
  }

  /** Some completed branch denied. */
  ghost predicate SomeDeny<T(!new)>(isDeny: T -> bool, s: State<T>) {
    exists i :: 0 <= i < |s.tasks| && s.tasks[i].Joined? && Denied(isDeny, s.tasks[i].outcomeSeen)
  }

  predicate Denied<T>(isDeny: T -> bool, o: Option<BranchOutcome<T>>) {
    o.Some? && o.value.Completed? && isDeny(o.value.value)
  }

  ghost predicate Inv<T(!new)>(isDeny: T -> bool, s: State<T>) {
    && (forall i :: i in s.done ==> i < |s.tasks|)
    && (forall i :: 0 <= i < |s.tasks| ==>
          match s.tasks[i]
          case Running => i !in s.done
          case Finished(o) => i !in s.done && !o.Aborted?
          case Cancelled => i !in s.done && s.aborted
          case Joined(None) => i !in s.done && s.aborted
          case Joined(Some(o)) => i in s.done && s.done[i] == o && !o.Aborted?)
    && (s.aborted ==> SomeDeny(isDeny, s))
  }

  lemma InvStep<T(!new)>(isDeny: T -> bool, s: State<T>, s': State<T>, step: Step<T>)
    requires Inv(isDeny, s) && NextStep(isDeny, s, s', step)
    ensures Inv(isDeny, s')
  {
    if s'.aborted {
      if s.aborted {
        var j :| 0 <= j < |s.tasks| && s.tasks[j].Joined? && Denied(isDeny, s.tasks[j].outcomeSeen);
        assert s'.tasks[j] == s.tasks[j];
      } else {
        assert s'.tasks[step.i].Joined?;
      }
    }
  }

  ghost predicate Run<T(!new)>(isDeny: T -> bool, states: seq<State<T>>) {
    && states != [] && Init(states[0])
    && forall k :: 0 <= k < |states| - 1 ==> CanStep(isDeny, states[k], states[k + 1])
  }

  lemma {:induction false} RunInv<T(!new)>(isDeny: T -> bool, states: seq<State<T>>, k: nat)
    requires Run(isDeny, states) && k < |states|
    ensures Inv(isDeny, states[k])
    ensures |states[k].tasks| == |states[0].tasks|
  {
    if k > 0 {
      RunInv(isDeny, states, k - 1);
      assert CanStep(isDeny, states[k - 1], states[k - 1 + 1]);
      var step :| NextStep(isDeny, states[k - 1], states[k], step);
      InvStep(isDeny, states[k - 1], states[k], step);
    }
  }

  /** The returned vector: a position with no outcome reads as aborted. */
  ghost function Outcomes<T>(s: State<T>): seq<BranchOutcome<T>> {
    seq(|s.tasks|, i requires 0 <= i < |s.tasks| => if i in s.done then s.done[i] else Aborted)
  }

  ghost predicate Drained<T>(s: State<T>) {
    forall i :: 0 <= i < |s.tasks| ==> s.tasks[i].Joined?
  }

  /** A branch reads as aborted only beside a completed branch that denied. */
  ghost predicate Justified<T(!new)>(isDeny: T -> bool, outcomes: seq<BranchOutcome<T>>) {
    (exists i :: 0 <= i < |outcomes| && outcomes[i].Aborted?) ==>
      exists j :: 0 <= j < |outcomes| && outcomes[j].Completed? && isDeny(outcomes[j].value)
  }

  /**
   * Whatever the interleaving, the drained run returns one outcome per branch, a finished branch's own
   * outcome is never lost, and an abort is always justified by a deny the caller also sees.
   */
  lemma RunBranchesSound<T(!new)>(isDeny: T -> bool, states: seq<State<T>>)
    requires Run(isDeny, states) && Drained(states[|states| - 1])
    ensures var last := states[|states| - 1];
            var outcomes := Outcomes(last);
            && |outcomes| == |states[0].tasks|
            && Justified(isDeny, outcomes)
            && forall i :: 0 <= i < |outcomes| ==>
                 match last.tasks[i].outcomeSeen case Some(o) => outcomes[i] == o case None => outcomes[i].Aborted?
  {
    var last := states[|states| - 1];
    RunInv(isDeny, states, |states| - 1);
    var outcomes := Outcomes(last);
    if i :| 0 <= i < |outcomes| && outcomes[i].Aborted? {
      assert last.tasks[i].Joined?;
      var j :| 0 <= j < |last.tasks| && last.tasks[j].Joined? && Denied(isDeny, last.tasks[j].outcomeSeen);
      assert outcomes[j].Completed? && isDeny(outcomes[j].value);
    }
  }
}
