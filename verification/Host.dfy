/**
 * Everything outside the evaluator: plugins, decision points, delegation, elicitation channels and
 * the scheduler. Each answers as an arbitrary function of all that happened before, so a statement
 * for every `Env` covers every host behaviour; the history of a parallel branch names the branch,
 * so the answers a branch sees may depend on the interleaving in any way.
 */
module Host {
  import opened Prelude
  import opened Json
  import opened Attributes
  import opened Policy

  datatype DispatchPhase = Pre | Post

  datatype Invocation = StepCall(phase: DispatchPhase) | FieldCall(field: string, value: Value, phase: DispatchPhase)

  datatype PluginOutcome = PluginOutcome(decision: Decision, taints: seq<TaintEvent>, modifiedValue: Option<Value>)

  datatype DelegationOutcome = DelegationOutcome(
    decision: Decision, permissions: seq<string>, audience: Option<string>, expiresAt: Option<string>)

  datatype ElicitationDispatch = ElicitationDispatch(
    id: string, approver: Option<string>, intentId: Option<string>, expiresAt: Option<string>)

  datatype ElicitationStatus = StillPending | Expired | Resolved(approved: bool)

  datatype ElicitationValidation = ElicitationValidation(valid: bool, approver: Option<string>, intentId: Option<string>)

  datatype HostError = HostError

  /** One exchange with the host, with its answer. */
  datatype Event =
    | PluginCalled(name: string, invocation: Invocation, pluginReply: Result<PluginOutcome, HostError>)
    | PdpCalled(call: PdpCall, pdpReply: Result<Decision, HostError>)
    | Delegated(delegation: DelegateStep, delegationReply: Result<DelegationOutcome, HostError>)
    | ElicitDispatched(elicitation: ElicitStep, from: string, dispatchReply: Result<ElicitationDispatch, HostError>)
    | ElicitChecked(elicitation: ElicitStep, id: string, checkReply: Result<ElicitationStatus, HostError>)
    | ElicitValidated(elicitation: ElicitStep, id: string, validateReply: Result<ElicitationValidation, HostError>)
    | BranchEntered(index: nat)

  type History = seq<Event>

  /** How the scheduler ends a parallel branch; a cut branch had made its first `calls` exchanges. */
  datatype Fate = Completes | AbortedAfter(calls: nat) | PanicsAfter(calls: nat)

  datatype Env = Env(
    plugin: (History, string, Bag, Invocation) -> Result<PluginOutcome, HostError>,
    pdp: (History, PdpCall, Bag) -> Result<Decision, HostError>,
    delegate: (History, DelegateStep) -> Result<DelegationOutcome, HostError>,
    dispatch: (History, ElicitStep, string) -> Result<ElicitationDispatch, HostError>,
    check: (History, ElicitStep, string) -> Result<ElicitationStatus, HostError>,
    validate: (History, ElicitStep, string) -> Result<ElicitationValidation, HostError>,
    fate: (History, nat) -> Fate,
    f64: string -> Option<real>,
    regex: string -> Option<string -> bool>,
    hash: Value -> string)
}
