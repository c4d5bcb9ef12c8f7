/** The registry's shared tables as one state, and every transaction on them as an event. */
module RegistryState {
  import opened Prelude
  import opened Refs
  import opened SessionTables
  import opened SessionCarry
  import opened MoveTables

  datatype Claim = Claim(integrityFailed: bool, epoch: nat, holder: Option<string>)

  /** What registrations read besides the tables: `agents` says of each known agent whether it is gone. */
  datatype Context = Context(
    cutOver: bool, agents: map<string, bool>, claims: map<string, Claim>, self: Option<string>, origin: Option<string>,
    pins: map<string, string>)

  datatype State = State(ctx: Context, t: Tables, moves: Moves)

  datatype SessionEnd = Missing | Ended(at: int) | AlreadyEnded(at: int)

  datatype Gone = GoneSession(harness: string, session: string, runner: Option<string>, at: int)

  const PRUNE_BATCH: nat := 500

  // ----------------------------------------------------------- registration

  /** An open move that could lose this registration: it moves the agent, or brings in the reference for another. */
  predicate Fences(row: AgentMove, q: Request) {
    && row.Open()
    && (row.agent == q.agent || row.side == Receiver)
    && (if row.agent == q.agent then row.side == Source || row.step in {PickedUp, Imported, Staged, Claimed, Activating}
        else (row.step.BeforeBoundary(Receiver) || row.step == Activating) && q.ref in row.refs)
  }

  ghost predicate Fenced(m: Moves, q: Request) { exists c :: c in m && Fences(m[c], q) }

  function ClaimRefusal(ctx: Context, agent: string): Option<Refusal> {
    if agent !in ctx.claims then None
    else
      var claim := ctx.claims[agent];
      if claim.integrityFailed then Some(ClaimIntegrityFailed)
      else if claim.epoch >= 1 && (claim.holder.None? || claim.holder != ctx.self) then Some(HeldElsewhere)
      else None
  }

  ghost function RegisterRefusal(s: State, q: Request): Option<Refusal> {
    if !s.ctx.cutOver then Some(AuthorityNotCutOver)
    else if q.agent !in s.ctx.agents then Some(UnknownAgent)
    else if s.ctx.agents[q.agent] then Some(Refusal.Gone)
    else if HeldRemotely(s.t.bindings, q) then Some(SessionOnOtherMachine)
    else if Fenced(s.moves, q) then Some(AgentMoving)
    else if ClaimRefusal(s.ctx, q.agent).Some? then ClaimRefusal(s.ctx, q.agent)
    else TableRefusal(s.t, q)
  }

  ghost function Registered(s: State, q: Request): (Tables, Result<Binding, Refusal>) {
    match RegisterRefusal(s, q)
    case Some(e) => (s.t, Err(e))
    case None => (RegisteredTables(s.t, q), Ok(RegisteredTables(s.t, q).bindings[q.ref]))
  }

  // ------------------------------------------------------- the other writers

  ghost function EndedSession(t: Tables, harness: string, session: string, runner: Option<string>, now: int)
    : (Tables, Result<SessionEnd, Refusal>)
  {
    match BySession(t.bindings, harness, session)
    case None => (t, Ok(Missing))
    case Some(r) =>
      if EndRefusal(t.bindings, r, runner).Some? then (t, Err(EndRefusal(t.bindings, r, runner).value))
      else if t.bindings[r].endedAt.Some? then (t, Ok(AlreadyEnded(t.bindings[r].endedAt.value)))
      else (t.(bindings := t.bindings[r := EndedRow(t.bindings, r, session, runner, now)]), Ok(Ended(now)))
  }

  /** Stamp one clean end: only on an open binding, and not one another runner hosts. */
  ghost function Stamped(t: Tables, g: Gone): Tables {
    match BySession(t.bindings, g.harness, g.session)
    case None => t
    case Some(r) =>
      var b := t.bindings[r];
      if b.endedAt.None? && (g.runner.None? || b.runner.None? || b.runner == g.runner)
      then t.(bindings := t.bindings[r := b.(endedAt := Some(g.at))]) else t
  }

  ghost function StampedAll(t: Tables, gone: seq<Gone>): Tables {
    if gone == [] then t else Stamped(StampedAll(t, gone[..|gone| - 1]), gone[|gone| - 1])
  }

  ghost function NetworkSet(t: Tables, harness: string, session: string, s: Stamp): (Tables, Result<seq<Entry>, Refusal>) {
    if s.network !in NETWORK_VALUES then (t, Err(InvalidRequest))
    else
      match BySession(t.bindings, harness, session)
      case None => (t, Err(NotFound))
      case Some(r) =>
        match Recorded(t.HistoryOf(r), s)
        case Err(e) => (t, Err(e))
        case Ok(h) => (if h == t.HistoryOf(r) then t else t.(history := t.history[r := h]), Ok(h))
  }

  /** Finished before the cutoff, and of no agent with an open move. */
  predicate Prunable(s: State, r: Ref, cutoff: int) {
    r in s.t.bindings && s.t.bindings[r].endedAt.Some? && s.t.bindings[r].endedAt.value < cutoff && !AgentOpen(s.moves, s.t.bindings[r].agent)
  }

  // -------------------------------------------------------------- activation

  /** The rows the source sent, in reference order. */
  function CarriedMap(carried: seq<Carried>): (m: map<Ref, Carried>)
    ensures forall r :: r in m <==> exists i :: 0 <= i < |carried| && carried[i].ref == r
    ensures forall r :: r in m ==> m[r] in carried && m[r].ref == r
  {
    if carried == [] then map[]
    else
      var last := carried[|carried| - 1];
      assert carried == carried[..|carried| - 1] + [last];
      CarriedMap(carried[..|carried| - 1])[last.ref := last]
  }

  function MetadataRefs(carried: seq<Carried>): (refs: seq<Ref>)
    ensures forall r :: r in refs <==> exists i :: 0 <= i < |carried| && carried[i].ref == r && carried[i].row.heldOn.Some?
  {
    if carried == [] then []
    else
      var last := carried[|carried| - 1];
      MetadataRefs(carried[..|carried| - 1]) + (if last.row.heldOn.Some? then [last.ref] else [])
  }

  /** The activation transaction: the owners checked, the bindings installed and the row written, or nothing. */
  ghost function ActivatedState(s: State, row: AgentMove, refs: seq<Ref>, carried: seq<Carried>): (State, Result<AgentMove, MoveRefusal>) {
    match ActivationRefusal(s.moves, s.t, row, refs)
    case Some(e) => (s, Err(e))
    case None =>
      var next := ActivatedRow(s.moves[row.cut], row);
      if !WriteAllowed(s.moves, next) then (s, Err(MoveStorageError))
      else
        var t := InstallAll(s.t, row.agent, row.activatedAt.value, s.ctx.origin, refs + MetadataRefs(carried), CarriedMap(carried));
        (State(s.ctx, t, s.moves[row.cut := next]), Ok(next))
  }

  // ------------------------------------------------------------------ events

  datatype Event =
    | Register(q: Request)
    | EndSession(harness: string, session: string, runner: Option<string>, now: int)
    | StampGone(gone: seq<Gone>)
    | SetNetwork(harness: string, session: string, stamp: Stamp)
    | PruneBatch(cutoff: int, pruned: set<Ref>)
    | AdmitMove(row: AgentMove, checked: set<Ref>)
    | AdmitIncoming(row: AgentMove)
    | SaveCheckpoint(row: AgentMove, clear: bool)
    | OperatorAbort(cut: string, at: int)
    | TakeAbortRetry(cut: string)
    | Activate(row: AgentMove, refs: seq<Ref>, carried: seq<Carried>)
    | AcceptProgress(cut: string, delivery: Delivery, at: int)
    | ReleaseProgress(cut: string, delivery: Delivery)
    | Elsewhere(ctx: Context)

  function DigestOf(ctx: Context, agent: string): Option<string> {
    if agent in ctx.pins then Some(ctx.pins[agent]) else None
  }

  ghost function After(s: State, e: Event): State {
    match e
    case Register(q) => s.(t := Registered(s, q).0)
    case EndSession(harness, session, runner, now) => s.(t := EndedSession(s.t, harness, session, runner, now).0)
    case StampGone(gone) => s.(t := StampedAll(s.t, gone))
    case SetNetwork(harness, session, stamp) => s.(t := NetworkSet(s.t, harness, session, stamp).0)
    case PruneBatch(cutoff, pruned) =>
      if |pruned| <= PRUNE_BATCH && forall r :: r in pruned ==> Prunable(s, r, cutoff) then s.(t := Deleted(s.t, pruned)) else s
    case AdmitMove(row, checked) => s.(moves := AdmitSource(s.moves, LiveRefs(s.t.bindings, row.agent), DigestOf(s.ctx, row.agent), row, checked).0)
    case AdmitIncoming(row) => s.(moves := AdmitReceived(s.moves, row).0)
    case SaveCheckpoint(row, clear) => s.(moves := Checkpoint(s.moves, row, clear).0)
    case OperatorAbort(cut, at) => s.(moves := RequestAbort(s.moves, cut, at).0)
    case TakeAbortRetry(cut) => s.(moves := ConsumeRetry(s.moves, cut).0)
    case Activate(row, refs, carried) => ActivatedState(s, row, refs, carried).0
    case AcceptProgress(cut, delivery, at) => s.(moves := SetAccept(s.moves, cut, delivery, at))
    case ReleaseProgress(cut, delivery) => s.(moves := SetRelease(s.moves, cut, delivery))
    case Elsewhere(ctx) => s.(ctx := ctx)
  }

  ghost function Run(s: State, events: seq<Event>): State {
    if events == [] then s else After(Run(s, events[..|events| - 1]), events[|events| - 1])
  }

  /** One more transaction: a run goes on from where it was. */
  lemma RunGoesOn(s: State, events: seq<Event>, e: Event)
    ensures Run(s, []) == s && Run(s, events + [e]) == After(Run(s, events), e)
  {
    hide After;
    assert (events + [e])[..|events + [e]| - 1] == events;
  }

  lemma {:induction false} RunAppend(s: State, a: seq<Event>, b: seq<Event>)
    ensures Run(s, a + b) == Run(Run(s, a), b)
  {
    hide After;
    if b == [] {
      assert a + b == a;
    } else {
      RunAppend(s, a, b[..|b| - 1]);
      assert (a + b)[..|a + b| - 1] == a + b[..|b| - 1];
    }
  }
}
