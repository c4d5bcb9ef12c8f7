/** What every run of registrations, moves and their drivers keeps. */
module RegistryRuns {
  import opened Prelude
  import opened Refs
  import opened SessionTables
  import opened SessionCarry
  import opened MoveTables
  import opened RegistryState

  ghost predicate Inv(s: State) { Sound(s.t) && Indexed(s.moves) }

  /** The import stream checks every carried row before an activation may use it. */
  ghost predicate StreamChecked(e: Event) {
    e.Activate? ==> forall c :: c in e.carried ==> Checked(c)
  }

  ghost predicate AllImported(events: seq<Event>) { forall i :: 0 <= i < |events| ==> StreamChecked(events[i]) }

  // -------------------------------------------------- tables stay consistent

  lemma EndKeeps(t: Tables, harness: string, session: string, runner: Option<string>, now: int)
    requires Sound(t)
    ensures Sound(EndedSession(t, harness, session, runner, now).0)
  {
    hide Sound;
    var r := BySession(t.bindings, harness, session);
    if r.Some? { EndSound(t, r.value, harness, session, runner, now); }
  }

  lemma {:induction false} StampKeeps(t: Tables, gone: seq<Gone>)
    requires Sound(t)
    ensures Sound(StampedAll(t, gone))
  {
    hide Sound;
    if gone != [] {
      var (before, g) := (StampedAll(t, gone[..|gone| - 1]), gone[|gone| - 1]);
      StampKeeps(t, gone[..|gone| - 1]);
      var r := BySession(before.bindings, g.harness, g.session);
      if r.Some? { StampSound(before, r.value, Some(g.at)); }
    }
  }

  lemma NetworkKeeps(t: Tables, harness: string, session: string, stamp: Stamp)
    requires Sound(t)
    ensures Sound(NetworkSet(t, harness, session, stamp).0)
  {
    hide Sound, Recorded;
    var r := BySession(t.bindings, harness, session);
    if r.Some? && Recorded(t.HistoryOf(r.value), stamp).Ok? { NetworkSound(t, r.value, stamp); }
  }

  lemma ActivateKeeps(s: State, row: AgentMove, refs: seq<Ref>, carried: seq<Carried>)
    requires Inv(s) && forall c :: c in carried ==> Checked(c)
    ensures Inv(ActivatedState(s, row, refs, carried).0)
    ensures LocalKept(s.t, ActivatedState(s, row, refs, carried).0.t)
  {
    hide Sound, Indexed, Checked, WriteAllowed, ActivationRefusal, CarriedMap, MetadataRefs, InstallAll;
    SelfKept(s.t);
    if ActivationRefusal(s.moves, s.t, row, refs).None? {
      RefusalFinds(s.moves, s.t, row, refs);
      var next := ActivatedRow(s.moves[row.cut], row);
      CarriedIsWell(carried);
      InstallSound(s.t, row.agent, row.activatedAt.value, s.ctx.origin, refs + MetadataRefs(carried), CarriedMap(carried));
      WriteIndexed(s.moves, next);
    }
  }

  lemma RefusalFinds(m: Moves, t: Tables, row: AgentMove, refs: seq<Ref>)
    requires ActivationRefusal(m, t, row, refs).None?
    ensures row.cut in m && row.activatedAt.Some? && m[row.cut].side == Receiver && m[row.cut].step == Activating && row.step == Activated
  {
  }

  lemma CarriedIsWell(carried: seq<Carried>)
    requires forall c :: c in carried ==> Checked(c)
    ensures CarriedWell(CarriedMap(carried))
  {
    hide Checked;
  }

  lemma SelfKept(t: Tables)
    ensures LocalKept(t, t)
  {
  }

  lemma MovesKept(m: Moves, t: Tables, ctx: Context, e: Event)
    requires Indexed(m) && !e.Activate?
    ensures Indexed(After(State(ctx, t, m), e).moves)
  {
    hide SlotRefusal, WriteAllowed, Checkpointed, Registered, EndedSession, StampedAll, NetworkSet, Deleted, Prunable, LiveRefs, Indexed, Write,
         RequestAbort, ConsumeRetry, SetAccept, SetRelease;
    match e {
      case AdmitMove(row, _) => WriteIndexed(m, row);
      case AdmitIncoming(row) => WriteIndexed(m, row);
      case SaveCheckpoint(row, clear) => if row.cut in m { WriteIndexed(m, Checkpointed(m[row.cut], row, clear)); }
      case OperatorAbort(cut, at) => if cut in m { AbortIndexed(m, cut, at); } else { AbortOfNone(m, cut, at); }
      case TakeAbortRetry(cut) => RetryIndexed(m, cut);
      case AcceptProgress(cut, delivery, at) => DeliveriesIndexed(m, cut, delivery, at);
      case ReleaseProgress(cut, delivery) => DeliveriesIndexed(m, cut, delivery, 0);
      case _ =>
    }
  }

  lemma AbortOfNone(m: Moves, cut: string, at: int)
    requires cut !in m
    ensures RequestAbort(m, cut, at).0 == m
  {
  }

  /** Rewriting a row under its own cut, agent and key, without reopening it, respects the indexes. */
  lemma SameRowIndexed(m: Moves, cut: string, row: AgentMove)
    requires Indexed(m) && cut in m && row.cut == cut && row.agent == m[cut].agent && row.requestKey == m[cut].requestKey
    requires row.Open() ==> m[cut].Open()
    ensures Indexed(m[cut := row])
  {
    hide WriteAllowed;
    SameIdentityAllowed(m, row);
    WriteIndexed(m, row);
  }

  lemma RetryIndexed(m: Moves, cut: string)
    requires Indexed(m)
    ensures Indexed(ConsumeRetry(m, cut).0)
  {
    hide Indexed;
    if cut in m && m[cut].abort.Some? {
      RowOfCut(m, cut);
      SameRowIndexed(m, cut, m[cut].(abort := Some(m[cut].abort.value.(retryPending := false))));
    }
  }

  lemma DeliveriesIndexed(m: Moves, cut: string, delivery: Delivery, at: int)
    requires Indexed(m)
    ensures Indexed(SetAccept(m, cut, delivery, at)) && Indexed(SetRelease(m, cut, delivery))
  {
    hide Indexed;
    if cut in m {
      RowOfCut(m, cut);
      SameRowIndexed(m, cut, m[cut].(accept := Some(delivery), updatedAt := at));
      SameRowIndexed(m, cut, m[cut].(release := Some(delivery)));
    }
  }

  lemma AbortIndexed(m: Moves, cut: string, at: int)
    requires Indexed(m) && cut in m
    ensures Indexed(RequestAbort(m, cut, at).0)
  {
    hide WriteAllowed, Indexed;
    var row := m[cut];
    WriteIndexed(m, row.(abort := Some(OPERATOR), updatedAt := at));
    if row.abort.Some? { WriteIndexed(m, row.(abort := Some(row.abort.value.(retryPending := true)), updatedAt := at)); }
  }

  /** Every transaction keeps the keys unique and the histories attached. */
  lemma StepKeeps(s: State, e: Event)
    requires Inv(s) && StreamChecked(e)
    ensures Inv(After(s, e))
  {
    hide Sound, Indexed, ActivatedState, EndedSession, StampedAll, NetworkSet, RegisterRefusal, RegisteredTables, Deleted, Prunable,
         AdmitSource, AdmitReceived, Checkpoint, RequestAbort, ConsumeRetry, SetAccept, SetRelease, LiveRefs;
    match e {
      case Activate(row, refs, carried) => ActivateKeeps(s, row, refs, carried);
      case _ =>
        MovesKept(s.moves, s.t, s.ctx, e);
        TablesKept(s, e);
    }
  }

  lemma TablesKept(s: State, e: Event)
    requires Sound(s.t) && !e.Activate?
    ensures Sound(After(s, e).t)
  {
    hide Sound, EndedSession, StampedAll, NetworkSet, RegisterRefusal, RegisteredTables, Deleted, Prunable,
         AdmitSource, AdmitReceived, Checkpoint, RequestAbort, ConsumeRetry, SetAccept, SetRelease, LiveRefs;
    match e {
      case Register(q) => if RegisterRefusal(s, q).None? { RefusalRegistrable(s, q); RegisterSound(s.t, q); }
      case EndSession(harness, session, runner, now) => EndKeeps(s.t, harness, session, runner, now);
      case StampGone(gone) => StampKeeps(s.t, gone);
      case SetNetwork(harness, session, stamp) => NetworkKeeps(s.t, harness, session, stamp);
      case PruneBatch(_, pruned) => DeleteSound(s.t, pruned);
      case _ =>
    }
  }

  lemma RefusalRegistrable(s: State, q: Request)
    requires RegisterRefusal(s, q).None?
    ensures Registrable(s.t, q) && !Fenced(s.moves, q)
  {
    hide TableRefusal, HeldRemotely, Fenced;
  }

  /** Over every run the three keys stay unique, histories name bindings, and an agent has at most one open move. */
  lemma {:induction false} RunKeeps(s: State, events: seq<Event>)
    requires Inv(s) && AllImported(events)
    ensures Inv(Run(s, events))
  {
    hide Inv, After, StreamChecked;
    if events != [] {
      RunKeeps(s, events[..|events| - 1]);
      StepKeeps(Run(s, events[..|events| - 1]), events[|events| - 1]);
    }
  }

  // --------------------------------------------------- bindings keep agents

  /** Where a binding's row is after one transaction; `None` once pruned. */
  ghost function Heir(s: State, e: Event, r: Ref): Option<Ref> {
    match e
    case Register(q) => Some(if RegisterRefusal(s, q).None? then Now(s.t, q, r) else r)
    case PruneBatch(_, pruned) => if r in After(s, e).t.bindings then Some(r) else None
    case _ => Some(r)
  }

  /** A binding's successor has its agent and everything in its history. */
  ghost predicate Succeeds(before: Tables, r: Ref, after: Tables, n: Ref) {
    && r in before.bindings && n in after.bindings && after.bindings[n].agent == before.bindings[r].agent
    && before.HistoryOf(r) <= after.HistoryOf(n)
  }

  lemma {:induction false} StampSucceeds(t: Tables, gone: seq<Gone>, r: Ref)
    requires r in t.bindings
    ensures Succeeds(t, r, StampedAll(t, gone), r)
  {
    if gone != [] { StampSucceeds(t, gone[..|gone| - 1], r); }
  }

  lemma NetworkSucceeds(t: Tables, harness: string, session: string, stamp: Stamp, r: Ref)
    requires Sound(t) && r in t.bindings
    ensures Succeeds(t, r, NetworkSet(t, harness, session, stamp).0, r)
  {
    hide GoodHistory, Recorded, Clash;
    EmptyIsGood();
    var q := BySession(t.bindings, harness, session);
    if q.Some? && Recorded(t.HistoryOf(q.value), stamp).Ok? { RecordedIsGood(t.HistoryOf(q.value), stamp); }
  }

  lemma StepSucceeds(s: State, e: Event, r: Ref)
    requires Inv(s) && StreamChecked(e) && r in s.t.bindings
    ensures Heir(s, e, r).Some? ==> Succeeds(s.t, r, After(s, e).t, Heir(s, e, r).value)
    ensures Heir(s, e, r).None? ==> e.PruneBatch? && Prunable(s, r, e.cutoff)
  {
    hide Sound, Indexed, ActivatedState, StampedAll, NetworkSet, RegisterRefusal, RegisteredTables, Now, Prunable,
         AdmitSource, AdmitReceived, Checkpoint, RequestAbort, ConsumeRetry, SetAccept, SetRelease, LiveRefs;
    match e {
      case Register(q) =>
        if RegisterRefusal(s, q).None? { RefusalRegistrable(s, q); RegisterCarries(s.t, q, r); }
      case StampGone(gone) => StampSucceeds(s.t, gone, r);
      case SetNetwork(harness, session, stamp) => NetworkSucceeds(s.t, harness, session, stamp, r);
      case Activate(row, refs, carried) => ActivateKeeps(s, row, refs, carried);
      case _ =>
    }
  }

  ghost function HeirAfter(s: State, events: seq<Event>, r: Ref): Option<Ref> {
    if events == [] then Some(r)
    else
      var before := HeirAfter(s, events[..|events| - 1], r);
      if before.None? then None else Heir(Run(s, events[..|events| - 1]), events[|events| - 1], before.value)
  }

  /**
   * Over every run, through any re-keys and host changes, a binding that was
   * not pruned still belongs to its agent and still has its whole history.
   */
  lemma {:induction false} BindingsKeepAgents(s: State, events: seq<Event>, r: Ref)
    requires Inv(s) && AllImported(events) && r in s.t.bindings
    ensures HeirAfter(s, events, r).Some? ==> Succeeds(s.t, r, Run(s, events).t, HeirAfter(s, events, r).value)
  {
    hide Inv, After, Heir, StreamChecked;
    if events != [] {
      var front := events[..|events| - 1];
      BindingsKeepAgents(s, front, r);
      RunKeeps(s, front);
      if HeirAfter(s, front, r).Some? {
        StepSucceeds(Run(s, front), events[|events| - 1], HeirAfter(s, front, r).value);
      }
    }
  }

  /** A refused registration, activation or admission changes nothing. */
  lemma RefusalsChangeNothing(s: State, q: Request, row: AgentMove, refs: seq<Ref>, carried: seq<Carried>, checked: set<Ref>)
    ensures Registered(s, q).1.Err? ==> After(s, Register(q)) == s
    ensures ActivatedState(s, row, refs, carried).1.Err? ==> After(s, Activate(row, refs, carried)) == s
    ensures AdmitSource(s.moves, LiveRefs(s.t.bindings, row.agent), DigestOf(s.ctx, row.agent), row, checked).1.Err? ==> After(s, AdmitMove(row, checked)) == s
    ensures AdmitReceived(s.moves, row).1.Err? ==> After(s, AdmitIncoming(row)) == s
  {
    hide RegisterRefusal, RegisteredTables, InstallAll, MetadataRefs, CarriedMap, ActivationRefusal, SlotRefusal, LiveRefs, WriteAllowed;
  }

  // ------------------------------------------------------- the source fence

  ghost predicate SameMove(current: AgentMove, row: AgentMove) {
    row.agent == current.agent && row.side == current.side && (row.Open() ==> current.Open())
  }

  /** A driver saves only the move it loaded: same agent, same side, never reopening a finished row. */
  ghost predicate Disciplined(s: State, e: Event) {
    match e
    case SaveCheckpoint(row, _) => row.cut in s.moves ==> SameMove(s.moves[row.cut], row)
    case Activate(row, _, _) => row.cut in s.moves ==> SameMove(s.moves[row.cut], row)
    case _ => true
  }

  ghost predicate DrivenWell(s: State, events: seq<Event>) {
    events == [] ||
    (DrivenWell(s, events[..|events| - 1]) && Disciplined(Run(s, events[..|events| - 1]), events[|events| - 1]))
  }

  ghost predicate OpenSource(s: State, cut: string, agent: string) {
    cut in s.moves && s.moves[cut].Open() && s.moves[cut].side == Source && s.moves[cut].agent == agent
  }

  /** While the move is open no registration of its agent passes, so only its rows can end or be pruned. */
  lemma RegisterFenced(s: State, cut: string, agent: string, q: Request)
    requires Inv(s) && OpenSource(s, cut, agent) && RegisterRefusal(s, q).None?
    ensures q.agent != agent && LiveRefs(RegisteredTables(s.t, q).bindings, agent) <= LiveRefs(s.t.bindings, agent)
  {
    hide Sound, RegisteredTables, Previous, TableRefusal, HeldRemotely, Indexed;
    RefusalRegistrable(s, q);
    assert q.agent != agent by { assert !Fences(s.moves[cut], q); }
    RegisterLive(s.t, q, agent);
  }

  lemma RegisterLive(t: Tables, q: Request, agent: string)
    requires Sound(t) && Registrable(t, q) && q.agent != agent
    ensures LiveRefs(RegisteredTables(t, q).bindings, agent) <= LiveRefs(t.bindings, agent)
  {
    hide Sound, Registrable, RegisteredTables, Previous;
    RegisteredBindings(t, q);
  }

  /** No activation for the agent coexists: its row would be a second open move. */
  lemma ActivationElsewhere(s: State, cut: string, agent: string, row: AgentMove, refs: seq<Ref>, carried: seq<Carried>)
    requires Inv(s) && OpenSource(s, cut, agent) && ActivatedState(s, row, refs, carried).1.Ok?
    ensures row.cut != cut && row.agent != agent
  {
    hide Sound, InstallAll, CarriedMap, MetadataRefs;
  }

  lemma ActivateLive(s: State, cut: string, agent: string, row: AgentMove, refs: seq<Ref>, carried: seq<Carried>)
    requires Inv(s) && OpenSource(s, cut, agent) && forall c :: c in carried ==> Checked(c)
    ensures var after := ActivatedState(s, row, refs, carried).0;
      LiveRefs(after.t.bindings, agent) <= LiveRefs(s.t.bindings, agent) && OpenSource(after, cut, agent)
  {
    hide Sound, InstallAll, CarriedMap, MetadataRefs, Checked, ActivationRefusal, WriteAllowed, Indexed;
    if ActivatedState(s, row, refs, carried).1.Ok? {
      ActivationElsewhere(s, cut, agent, row, refs, carried);
      RefusalFinds(s.moves, s.t, row, refs);
      CarriedIsWell(carried);
      InstallSound(s.t, row.agent, row.activatedAt.value, s.ctx.origin, refs + MetadataRefs(carried), CarriedMap(carried));
    }
  }

  lemma {:induction false} StampLive(t: Tables, gone: seq<Gone>, agent: string)
    ensures LiveRefs(StampedAll(t, gone).bindings, agent) <= LiveRefs(t.bindings, agent)
  {
    if gone != [] { StampLive(t, gone[..|gone| - 1], agent); }
  }

  lemma StepLive(s: State, e: Event, cut: string, agent: string)
    requires Inv(s) && StreamChecked(e) && OpenSource(s, cut, agent)
    ensures LiveRefs(After(s, e).t.bindings, agent) <= LiveRefs(s.t.bindings, agent)
  {
    hide Sound, Indexed, ActivatedState, StampedAll, NetworkSet, RegisterRefusal, RegisteredTables, Prunable,
         AdmitSource, AdmitReceived, Checkpoint, RequestAbort, ConsumeRetry, SetAccept, SetRelease, LiveRefs, OpenSource;
    match e {
      case Register(q) => if RegisterRefusal(s, q).None? { RegisterFenced(s, cut, agent, q); }
      case StampGone(gone) => StampLive(s.t, gone, agent);
      case Activate(row, refs, carried) => ActivateLive(s, cut, agent, row, refs, carried);
      case EndSession(harness, session, runner, now) => EndLive(s.t, harness, session, runner, now, agent);
      case PruneBatch(_, pruned) => DeleteLive(s.t, pruned, agent);
      case SetNetwork(harness, session, stamp) => NetworkBindings(s.t, harness, session, stamp);
      case _ =>
    }
  }

  lemma NetworkBindings(t: Tables, harness: string, session: string, stamp: Stamp)
    ensures NetworkSet(t, harness, session, stamp).0.bindings == t.bindings
  {
    hide Recorded;
  }

  lemma EndLive(t: Tables, harness: string, session: string, runner: Option<string>, now: int, agent: string)
    ensures LiveRefs(EndedSession(t, harness, session, runner, now).0.bindings, agent) <= LiveRefs(t.bindings, agent)
  {
  }

  lemma DeleteLive(t: Tables, gone: set<Ref>, agent: string)
    ensures LiveRefs(Deleted(t, gone).bindings, agent) <= LiveRefs(t.bindings, agent)
  {
  }

  lemma MoveStaysItself(s: State, e: Event, cut: string)
    requires Indexed(s.moves) && Disciplined(s, e) && cut in s.moves
    ensures cut in After(s, e).moves && SameMove(s.moves[cut], After(s, e).moves[cut])
  {
    hide Registered, StampedAll, NetworkSet, EndedSession, Prunable, Deleted, LiveRefs, InstallAll, SlotRefusal, CarriedMap, MetadataRefs,
         WriteAllowed, Indexed, ActivatedState, RequestAbort;
    match e {
      case Activate(row, refs, carried) => ActivatedMoves(s, row, refs, carried);
      case OperatorAbort(c, at) => if c in s.moves { RowOfCut(s.moves, c); AbortSame(s.moves, c, at); } else { AbortOfNone(s.moves, c, at); }
      case _ =>
    }
  }

  lemma AbortSame(m: Moves, cut: string, at: int)
    requires cut in m && m[cut].cut == cut
    ensures var after := RequestAbort(m, cut, at).0;
      cut in after && SameMove(m[cut], after[cut]) && forall c :: c in m && c != cut ==> c in after && after[c] == m[c]
  {
    hide RequestAbort;
    AbortWrites(m, cut, at);
  }

  lemma ActivatedMoves(s: State, row: AgentMove, refs: seq<Ref>, carried: seq<Carried>)
    ensures var m := ActivatedState(s, row, refs, carried).0.moves;
      m == s.moves || (row.cut in s.moves && m == s.moves[row.cut := ActivatedRow(s.moves[row.cut], row)])
  {
    hide InstallAll, WriteAllowed, MetadataRefs, CarriedMap;
  }

  /** Under a disciplined driver an open source move was already that open source move one transaction before. */
  lemma OpenSourceBefore(s: State, e: Event, cut: string, agent: string)
    requires Inv(s) && Disciplined(s, e) && cut in s.moves && OpenSource(After(s, e), cut, agent)
    ensures OpenSource(s, cut, agent)
  {
    hide After, Disciplined, Sound, Indexed;
    MoveStaysItself(s, e, cut);
  }

  /** The move stayed an open source move of the agent after every one of these transactions. */
  ghost predicate StaysOpenSource(s: State, events: seq<Event>, cut: string, agent: string) {
    OpenSource(Run(s, events), cut, agent) && (events == [] || StaysOpenSource(s, events[..|events| - 1], cut, agent))
  }

  /**
   * The fence. Once a source move has been admitted over a checked set of live
   * references, and as long as that move is an open source move, the agent's
   * live references stay within that set, whatever else happens in between:
   * any registrations, activations, and checkpoints saved from rows of any age.
   */
  lemma {:induction false} FenceHolds(s: State, row: AgentMove, checked: set<Ref>, events: seq<Event>)
    requires Inv(s) && AllImported(events)
    requires var (m, answer) := AdmitSource(s.moves, LiveRefs(s.t.bindings, row.agent), DigestOf(s.ctx, row.agent), row, checked);
      answer == Ok(row) && m != s.moves
    requires StaysOpenSource(After(s, AdmitMove(row, checked)), events, row.cut, row.agent)
    ensures LiveRefs(Run(After(s, AdmitMove(row, checked)), events).t.bindings, row.agent) <= checked
  {
    hide Inv, After, OpenSource, LiveRefs, StreamChecked;
    NotActivate(row, checked);
    var admitted := After(s, AdmitMove(row, checked));
    StepKeeps(s, AdmitMove(row, checked));
    AdmittedOver(s, row, checked);
    if events != [] {
      var (front, e) := (events[..|events| - 1], events[|events| - 1]);
      RunKeeps(admitted, front);
      FenceHolds(s, row, checked, front);
      StillOpen(admitted, front, row.cut, row.agent);
      StepLive(Run(admitted, front), e, row.cut, row.agent);
    }
  }

  lemma StillOpen(s: State, events: seq<Event>, cut: string, agent: string)
    requires StaysOpenSource(s, events, cut, agent)
    ensures OpenSource(Run(s, events), cut, agent)
  {
  }

  /** When drivers save only the move they loaded, being open at the end is enough: a move never reopens. */
  lemma {:induction false} DrivenStaysOpen(s: State, events: seq<Event>, cut: string, agent: string)
    requires Inv(s) && AllImported(events) && DrivenWell(s, events) && cut in s.moves && OpenSource(Run(s, events), cut, agent)
    ensures StaysOpenSource(s, events, cut, agent)
  {
    hide Inv, After, Disciplined, OpenSource, StreamChecked;
    if events != [] {
      var front := events[..|events| - 1];
      RunKeeps(s, front);
      RowStays(s, front, cut);
      OpenSourceBefore(Run(s, front), events[|events| - 1], cut, agent);
      DrivenStaysOpen(s, front, cut, agent);
    }
  }

  lemma NotActivate(row: AgentMove, checked: set<Ref>)
    ensures StreamChecked(AdmitMove(row, checked))
  {
  }

  lemma AdmittedOver(s: State, row: AgentMove, checked: set<Ref>)
    requires var (m, answer) := AdmitSource(s.moves, LiveRefs(s.t.bindings, row.agent), DigestOf(s.ctx, row.agent), row, checked);
      answer == Ok(row) && m != s.moves
    ensures var admitted := After(s, AdmitMove(row, checked)); row.cut in admitted.moves && LiveRefs(admitted.t.bindings, row.agent) == checked
  {
    hide LiveRefs, SlotRefusal, WriteAllowed;
  }

  lemma StepRowStays(s: State, e: Event, cut: string)
    requires cut in s.moves
    ensures cut in After(s, e).moves
  {
    hide Registered, StampedAll, NetworkSet, EndedSession, Prunable, Deleted, LiveRefs, SlotRefusal, WriteAllowed, ActivatedState;
    match e {
      case Activate(row, refs, carried) => ActivatedMoves(s, row, refs, carried);
      case _ =>
    }
  }

  lemma {:induction false} RowStays(s: State, events: seq<Event>, cut: string)
    requires cut in s.moves
    ensures cut in Run(s, events).moves
  {
    hide After;
    if events != [] {
      RowStays(s, events[..|events| - 1], cut);
      StepRowStays(Run(s, events[..|events| - 1]), events[|events| - 1], cut);
    }
  }

  // ----------------------------------------------------- caps, over all runs

  /** A row written over its own slot, by anyone but an admission, keeps the count unless it reopens. */
  lemma StepCap(s: State, e: Event)
    requires Inv(s) && Disciplined(s, e) && |OpenMoves(s.moves)| <= OPEN_MAX
    ensures |OpenMoves(After(s, e).moves)| <= OPEN_MAX
  {
    hide Sound, Indexed, OpenMoves, After, Disciplined;
    match e {
      case AdmitMove(row, checked) => CapAdmit(s, row, checked);
      case AdmitIncoming(row) => CapIncoming(s, row);
      case _ => OnlyCloses(s, e); FewerOpen(s.moves, After(s, e).moves);
    }
  }

  lemma CapAdmit(s: State, row: AgentMove, checked: set<Ref>)
    requires Inv(s) && |OpenMoves(s.moves)| <= OPEN_MAX
    ensures |OpenMoves(After(s, AdmitMove(row, checked)).moves)| <= OPEN_MAX
  {
    hide Sound, Indexed, OpenMoves, AdmitSource, LiveRefs;
    AdmissionsWithinCaps(s.moves, LiveRefs(s.t.bindings, row.agent), DigestOf(s.ctx, row.agent), row, checked);
  }

  lemma CapIncoming(s: State, row: AgentMove)
    requires Inv(s) && |OpenMoves(s.moves)| <= OPEN_MAX
    ensures |OpenMoves(After(s, AdmitIncoming(row)).moves)| <= OPEN_MAX
  {
    hide Sound, Indexed, OpenMoves, AdmitReceived;
    AdmissionsWithinCaps(s.moves, {}, None, row, {});
  }

  ghost predicate NoneOpened(a: Moves, b: Moves) {
    b.Keys == a.Keys && forall c :: c in a ==> (b[c].Open() ==> a[c].Open())
  }

  lemma FewerOpen(a: Moves, b: Moves)
    requires NoneOpened(a, b)
    ensures |OpenMoves(b)| <= |OpenMoves(a)|
  {
    assert OpenMoves(b) <= OpenMoves(a);
    SubsetSize(OpenMoves(b), OpenMoves(a));
  }

  lemma OnlyCloses(s: State, e: Event)
    requires Inv(s) && Disciplined(s, e) && !e.AdmitMove? && !e.AdmitIncoming?
    ensures NoneOpened(s.moves, After(s, e).moves)
  {
    hide Sound, Indexed, After, Disciplined, SameMove;
    SameCuts(s, e);
    forall c | c in s.moves ensures After(s, e).moves[c].Open() ==> s.moves[c].Open() {
      MoveStaysItself(s, e, c);
      SameMoveCloses(s.moves[c], After(s, e).moves[c]);
    }
  }

  lemma SameMoveCloses(a: AgentMove, b: AgentMove)
    requires SameMove(a, b)
    ensures b.Open() ==> a.Open()
  {
  }

  lemma SameCuts(s: State, e: Event)
    requires !e.AdmitMove? && !e.AdmitIncoming? && Indexed(s.moves)
    ensures After(s, e).moves.Keys == s.moves.Keys
  {
    hide Registered, StampedAll, NetworkSet, EndedSession, Prunable, Deleted, LiveRefs, WriteAllowed, ActivatedState, Indexed;
    match e {
      case Activate(row, refs, carried) => ActivatedMoves(s, row, refs, carried);
      case OperatorAbort(c, at) => if c in s.moves { RowOfCut(s.moves, c); }
      case _ =>
    }
  }

  /** Over every run of disciplined drivers at most four moves are open, one per agent. */
  lemma {:induction false} CapsHold(s: State, events: seq<Event>)
    requires Inv(s) && AllImported(events) && DrivenWell(s, events) && |OpenMoves(s.moves)| <= OPEN_MAX
    ensures |OpenMoves(Run(s, events).moves)| <= OPEN_MAX
    ensures forall c, d :: c in OpenMoves(Run(s, events).moves) && d in OpenMoves(Run(s, events).moves) && c != d ==>
      Run(s, events).moves[c].agent != Run(s, events).moves[d].agent
  {
    hide After, Disciplined, StreamChecked, Sound;
    RunKeeps(s, events);
    if events != [] {
      var before := Run(s, events[..|events| - 1]);
      CapsHold(s, events[..|events| - 1]);
      RunKeeps(s, events[..|events| - 1]);
      StepCap(before, events[|events| - 1]);
    }
  }

  function ExampleMove(cut: string, step: Step): AgentMove {
    AgentMove(cut, cut, Receiver, step, {}, None, None, false, false, None, None, None, false, None, None, 0, "")
  }

  /** Four open moves and a finished one. */
  function FourOpen(): Moves {
    map["a" := ExampleMove("a", PickedUp), "b" := ExampleMove("b", PickedUp), "c" := ExampleMove("c", PickedUp),
        "d" := ExampleMove("d", PickedUp), "e" := ExampleMove("e", Done)]
  }

  /** Why the discipline is needed: saving a finished row as open again makes a fifth open move. */
  lemma StaleRowBreaksCap()
    ensures var m := FourOpen();
      && Indexed(m) && |OpenMoves(m)| == OPEN_MAX
      && |OpenMoves(Checkpoint(m, ExampleMove("e", Activated), false).0)| == OPEN_MAX + 1
  {
    hide OpenMoves, WriteAllowed, FourOpen;
    FourOpenRows();
    FourAreOpen();
    var row := Checkpointed(FourOpen()["e"], ExampleMove("e", Activated), false);
    OpenAfterWrite(FourOpen(), row);
    NotOpen(FourOpen(), "e");
    FifthAllowed(row);
  }

  lemma FourOpenRows()
    ensures var m := FourOpen();
      m.Keys == {"a", "b", "c", "d", "e"} && m["e"] == ExampleMove("e", Done)
      && forall k :: k in m ==> m[k] == ExampleMove(k, if k == "e" then Done else PickedUp)
  {
  }

  lemma FourAreOpen()
    ensures Indexed(FourOpen()) && |OpenMoves(FourOpen())| == 4
  {
    hide FourOpen, ExampleMove;
    FourOpenRows();
    forall k | k in FourOpen() ensures FourOpen()[k].cut == k && FourOpen()[k].agent == k && FourOpen()[k].requestKey.None? && (FourOpen()[k].Open() <==> k != "e") {
      ExampleFields(k, if k == "e" then Done else PickedUp);
    }
    FourNames();
  }

  lemma ExampleFields(cut: string, step: Step)
    ensures var m := ExampleMove(cut, step); m.cut == cut && m.agent == cut && m.requestKey.None? && m.step == step
  {
  }

  lemma FourNames()
    requires forall k :: k in FourOpen() ==> (FourOpen()[k].Open() <==> k != "e")
    ensures |OpenMoves(FourOpen())| == 4
  {
    hide FourOpen, ExampleMove;
    FourOpenRows();
    assert OpenMoves(FourOpen()) == {"a", "b", "c", "d"};
  }

  lemma FifthAllowed(row: AgentMove)
    requires row.agent == "e" && row.requestKey.None? && row.cut == "e"
    ensures WriteAllowed(FourOpen(), row)
  {
    hide FourOpen;
    FourOpenRows();
  }
}
