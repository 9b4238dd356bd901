/** The release state machine: which action may leave which state, and where it leads. */
module ReleaseMachine {
  import opened Wrappers

  datatype ReleaseState =
    Draft | Validating | Blocked | Ready | AwaitingApproval | Scheduled | Running | Paused
    | Aborting | RollingBack | Completed | Aborted | RolledBack | Failed | Cancelled

  datatype ReleaseAction =
    Validate | Submit | Approve | Schedule | Start | Cancel | Pause | Resume | Abort | Rollback
    | GatePass | GateOverride | GatePause | GateRollback | GateAdvance | SecurityBlock

  function Transition(current: ReleaseState, action: ReleaseAction): Option<ReleaseState> {
    match (current, action)
    case (Draft, Validate) => Some(Validating)
    case (Validating, Validate) => Some(Ready)
    case (Blocked, Validate) => Some(Validating)
    case (Ready, Submit) => Some(AwaitingApproval)
    case (AwaitingApproval, Approve) => Some(Ready)
    case (Ready, Schedule) => Some(Scheduled)
    case (Ready, Start) => Some(Running)
    case (Scheduled, Start) => Some(Running)
    case (_, Cancel) =>
      if current in {Draft, Validating, Blocked, Ready, AwaitingApproval, Scheduled} then Some(Cancelled) else None
    case (Running, Pause) => Some(Paused)
    case (Paused, Resume) => Some(Running)
    case (Aborting, Abort) => Some(Aborted)
    case (_, Abort) => if current in {Running, Paused} then Some(Aborting) else None
    case (RollingBack, Rollback) => Some(RolledBack)
    case (_, Rollback) => if current in {Running, Paused} then Some(RollingBack) else None
    case (Paused, GatePass) => Some(Running)
    case (Paused, GateOverride) => Some(Running)
    case (Running, GatePause) => Some(Paused)
    case (Running, GateRollback) => Some(RollingBack)
    case (Running, GateAdvance) => Some(Running)
    case (Running, GatePass) => Some(Completed)
    case (_, SecurityBlock) =>
      if current in {Draft, Validating, Ready, AwaitingApproval, Scheduled, Paused} then Some(Blocked) else None
    case _ => None
  }

  /** The moves that lead into a state, state by state. */
  function MovesInto(t: ReleaseState): set<(ReleaseState, ReleaseAction)> {
    match t
    case Draft => {}
    case Validating => {(Draft, Validate), (Blocked, Validate)}
    case Blocked =>
      {(Draft, SecurityBlock), (Validating, SecurityBlock), (Ready, SecurityBlock), (AwaitingApproval, SecurityBlock),
       (Scheduled, SecurityBlock), (Paused, SecurityBlock)}
    case Ready => {(Validating, Validate), (AwaitingApproval, Approve)}
    case AwaitingApproval => {(Ready, Submit)}
    case Scheduled => {(Ready, Schedule)}
    case Running => {(Ready, Start), (Scheduled, Start), (Paused, Resume), (Paused, GatePass), (Paused, GateOverride), (Running, GateAdvance)}
    case Paused => {(Running, Pause), (Running, GatePause)}
    case Aborting => {(Running, Abort), (Paused, Abort)}
    case RollingBack => {(Running, Rollback), (Paused, Rollback), (Running, GateRollback)}
    case Completed => {(Running, GatePass)}
    case Aborted => {(Aborting, Abort)}
    case RolledBack => {(RollingBack, Rollback)}
    case Failed => {}
    case Cancelled => {(Draft, Cancel), (Validating, Cancel), (Blocked, Cancel), (Ready, Cancel), (AwaitingApproval, Cancel), (Scheduled, Cancel)}
  }

  /** A state is entered by its moves and by no others, and no move enters two states. */
  lemma EnteredExactly(s: ReleaseState, a: ReleaseAction, t: ReleaseState)
    ensures Transition(s, a) == Some(t) <==> (s, a) in MovesInto(t)
  {
  }

  predicate Terminal(s: ReleaseState) { s in {Completed, Aborted, RolledBack, Failed, Cancelled} }

  /** Where a run of actions ends; an illegal action ends it nowhere. */
  function Follow(s: ReleaseState, actions: seq<ReleaseAction>): Option<ReleaseState>
    decreases |actions|
  {
    if actions == [] then Some(s)
    else
      var next := Transition(s, actions[0]);
      if next.None? then None else Follow(next.value, actions[1..])
  }

  /** A state has no way out exactly when it is terminal. */
  lemma TerminalExactly(s: ReleaseState)
    ensures Terminal(s) <==> forall a :: Transition(s, a).None?
  {
    if !Terminal(s) {
      var a := if s in {Draft, Validating, Blocked, Ready, AwaitingApproval, Scheduled} then Cancel
               else if s in {Running, Paused, Aborting} then Abort else Rollback;
      assert Transition(s, a).Some?;
    }
  }

  /** From every state some run of actions ends in a terminal state. */
  lemma CanAlwaysEnd(s: ReleaseState) returns (actions: seq<ReleaseAction>)
    ensures Follow(s, actions).Some? && Terminal(Follow(s, actions).value)
  {
    if Terminal(s) { actions := []; }
    else if s in {Running, Paused} {
      actions := [Abort, Abort];
      assert actions[1..] == [Abort] && [Abort][1..] == [];
    } else {
      var a := if s in {Draft, Validating, Blocked, Ready, AwaitingApproval, Scheduled} then Cancel
               else if s == Aborting then Abort else Rollback;
      actions := [a];
      assert actions[1..] == [];
    }
  }

  /** The states a release has not yet been let loose in. */
  predicate Unstarted(s: ReleaseState) { s in {Draft, Validating, Blocked, Ready, AwaitingApproval, Scheduled, Cancelled} }

  /** Once a release has been started, only the security block takes it back among the unstarted ones. */
  lemma {:induction false} NoWayBack(s: ReleaseState, actions: seq<ReleaseAction>)
    requires !Unstarted(s) && SecurityBlock !in actions && Follow(s, actions).Some?
    ensures !Unstarted(Follow(s, actions).value)
    decreases |actions|
  {
    if actions != [] {
      NoWayBack(Transition(s, actions[0]).value, actions[1..]);
    }
  }

  /** No run of actions ever reaches `failed`. */
  lemma {:induction false} FailedUnreachable(s: ReleaseState, actions: seq<ReleaseAction>)
    requires s != Failed && Follow(s, actions).Some?
    ensures Follow(s, actions).value != Failed
    decreases |actions|
  {
    if actions != [] {
      FailedUnreachable(Transition(s, actions[0]).value, actions[1..]);
    }
  }
}
