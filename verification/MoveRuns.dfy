/** The operator's abort, the background deliveries and the drivers' stale rows, in any interleaving. */
module MoveRuns {
  import opened Prelude
  import opened Refs
  import opened SessionTables
  import opened SessionCarry
  import opened MoveTables
  import opened MoveLaws
  import opened RegistryState
  import opened RegistryRuns

  // ----------------------------------------------------- an accepted abort

  /** The operator's abort stands: it is recorded and the move has not begun activating. */
  ghost predicate AbortStands(m: Moves, cut: string) {
    cut in m && m[cut].cut == cut && m[cut].abort.Some? && m[cut].step != Activating
  }

  /** A checkpoint of this move that does not clear the abort, and asks to activate only a claimed (or activating) row. */
  ghost predicate RespectsAbort(s: State, e: Event, cut: string) {
    e.SaveCheckpoint? && e.row.cut == cut && cut in s.moves ==>
      !e.clear && (e.row.step == Activating ==> s.moves[cut].step in {Claimed, Activating})
  }

  ghost predicate AbortRespected(s: State, events: seq<Event>, cut: string) {
    events == [] ||
    (AbortRespected(s, events[..|events| - 1], cut) && RespectsAbort(Run(s, events[..|events| - 1]), events[|events| - 1], cut))
  }

  lemma StepAbortStands(s: State, e: Event, cut: string)
    requires AbortStands(s.moves, cut) && RespectsAbort(s, e, cut)
    ensures AbortStands(After(s, e).moves, cut)
  {
    hide Registered, StampedAll, NetworkSet, EndedSession, Prunable, Deleted, LiveRefs, SlotRefusal, WriteAllowed, ActivatedState, RequestAbort;
    match e {
      case Activate(row, refs, carried) => ActivatesOnlyActivating(s, row, refs, carried, cut);
      case OperatorAbort(c, at) => AbortStaysRequested(s.moves, c, at, cut);
      case _ =>
    }
  }

  lemma AbortStaysRequested(m: Moves, c: string, at: int, cut: string)
    requires AbortStands(m, cut)
    ensures AbortStands(RequestAbort(m, c, at).0, cut)
  {
    hide WriteAllowed;
  }

  /** Activation finishes only a move that is already activating. */
  lemma ActivatesOnlyActivating(s: State, row: AgentMove, refs: seq<Ref>, carried: seq<Carried>, cut: string)
    requires AbortStands(s.moves, cut)
    ensures var m := ActivatedState(s, row, refs, carried).0.moves; cut in m && m[cut] == s.moves[cut]
  {
    hide InstallAll, WriteAllowed, MetadataRefs, CarriedMap;
  }

  /**
   * Abort against activation: in every interleaving, an accepted and uncleared
   * abort keeps the move out of activating for good.
   */
  lemma {:induction false} AbortWins(s: State, events: seq<Event>, cut: string)
    requires AbortStands(s.moves, cut) && AbortRespected(s, events, cut)
    ensures AbortStands(Run(s, events).moves, cut)
  {
    hide After, AbortStands, RespectsAbort;
    if events != [] {
      AbortWins(s, events[..|events| - 1], cut);
      StepAbortStands(Run(s, events[..|events| - 1]), events[|events| - 1], cut);
    }
  }

  /** Accepting an abort before the boundary is what starts this. */
  lemma AcceptedAbortStands(s: State, cut: string, at: int)
    requires Inv(s) && cut in s.moves && s.moves[cut].step.BeforeBoundary(s.moves[cut].side)
    ensures AbortStands(After(s, OperatorAbort(cut, at)).moves, cut)
  {
    hide Sound, Indexed;
    AbortTakenWhen(s.moves, cut, at);
    RowOfCut(s.moves, cut);
    AbortKeepsStep(s.moves, cut, at);
  }

  lemma AbortKeepsStep(m: Moves, cut: string, at: int)
    requires cut in m && m[cut].cut == cut
    ensures cut in RequestAbort(m, cut, at).0 && RequestAbort(m, cut, at).0[cut].step == m[cut].step && RequestAbort(m, cut, at).0[cut].cut == cut
  {
    hide WriteAllowed;
  }

  /** The premise on drivers is needed: a row saved as activating over a merely staged one ignores the abort. */
  lemma StaleActivationIgnoresAbort()
    ensures var m := map["a" := ExampleMove("a", Staged).(abort := Some(OPERATOR))];
      AbortStands(m, "a") && Checkpoint(m, ExampleMove("a", Activating), false).0["a"].step == Activating
  {
  }

  // ---------------------------------------------------- background deliveries

  /** What one transaction says about a move's accept delivery, if anything. */
  ghost function AcceptSaid(s: State, e: Event, cut: string): Option<Delivery> {
    match e
    case AcceptProgress(c, delivery, _) => if c == cut then Some(delivery) else None
    case Activate(row, refs, carried) => if row.cut == cut && ActivatedState(s, row, refs, carried).1.Ok? then Some(PENDING) else None
    case _ => None
  }

  ghost function ReleaseSaid(s: State, e: Event, cut: string): Option<Delivery> {
    match e
    case ReleaseProgress(c, delivery) => if c == cut then Some(delivery) else None
    case Activate(row, refs, carried) => if row.cut == cut && ActivatedState(s, row, refs, carried).1.Ok? then Some(PENDING) else None
    case _ => None
  }

  ghost function LastAccept(s: State, events: seq<Event>, cut: string): Option<Delivery>
    requires cut in s.moves
  {
    if events == [] then s.moves[cut].accept
    else
      var said := AcceptSaid(Run(s, events[..|events| - 1]), events[|events| - 1], cut);
      if said.Some? then said else LastAccept(s, events[..|events| - 1], cut)
  }

  ghost function LastRelease(s: State, events: seq<Event>, cut: string): Option<Delivery>
    requires cut in s.moves
  {
    if events == [] then s.moves[cut].release
    else
      var said := ReleaseSaid(Run(s, events[..|events| - 1]), events[|events| - 1], cut);
      if said.Some? then said else LastRelease(s, events[..|events| - 1], cut)
  }

  lemma StepDeliveries(s: State, e: Event, cut: string)
    requires Indexed(s.moves) && cut in s.moves
    ensures cut in After(s, e).moves
    ensures After(s, e).moves[cut].accept == if AcceptSaid(s, e, cut).Some? then AcceptSaid(s, e, cut) else s.moves[cut].accept
    ensures s.moves[cut].release.Some? ==>
      After(s, e).moves[cut].release == if ReleaseSaid(s, e, cut).Some? then ReleaseSaid(s, e, cut) else s.moves[cut].release
  {
    hide Registered, StampedAll, NetworkSet, EndedSession, Prunable, Deleted, LiveRefs, SlotRefusal, WriteAllowed, ActivatedState, RequestAbort, Indexed;
    RowOfCut(s.moves, cut);
    match e {
      case Activate(row, refs, carried) => ActivationDeliveries(s, row, refs, carried);
      case OperatorAbort(c, at) => AbortDeliveries(s.moves, c, at, cut);
      case SaveCheckpoint(row, clear) => if row.cut == cut { CheckpointKeepsDeliveries(s.moves, row, clear); }
      case _ =>
    }
  }

  lemma AbortDeliveries(m: Moves, c: string, at: int, cut: string)
    requires Indexed(m) && cut in m
    ensures var after := RequestAbort(m, c, at).0; cut in after && after[cut].accept == m[cut].accept && after[cut].release == m[cut].release
  {
    hide Indexed, RequestAbort;
    if c in m {
      RowOfCut(m, c);
      AbortWrites(m, c, at);
    } else {
      AbortOfNone(m, c, at);
    }
  }

  lemma ActivationDeliveries(s: State, row: AgentMove, refs: seq<Ref>, carried: seq<Carried>)
    ensures var (after, answer) := ActivatedState(s, row, refs, carried);
      after.moves == (if answer.Ok? then s.moves[row.cut := answer.value] else s.moves)
      && (answer.Ok? ==> row.cut in s.moves && answer.value.accept == Some(PENDING) && answer.value.release == Some(PENDING))
  {
    hide InstallAll, WriteAllowed, MetadataRefs, CarriedMap;
  }

  /**
   * Over every run, with checkpoints saved from rows of any age, a move's
   * accept delivery is always the latest one recorded, and so is its release
   * delivery from the moment it has one.
   */
  lemma {:induction false} DeliveriesAreLatest(s: State, events: seq<Event>, cut: string)
    requires Inv(s) && AllImported(events) && cut in s.moves
    ensures cut in Run(s, events).moves && Run(s, events).moves[cut].accept == LastAccept(s, events, cut)
    ensures s.moves[cut].release.Some? ==> Run(s, events).moves[cut].release == LastRelease(s, events, cut) && LastRelease(s, events, cut).Some?
  {
    hide After, AcceptSaid, ReleaseSaid, Sound, Indexed, StreamChecked;
    if events != [] {
      var front := events[..|events| - 1];
      DeliveriesAreLatest(s, front, cut);
      RunKeeps(s, front);
      StepDeliveries(Run(s, front), events[|events| - 1], cut);
    }
  }

  // ------------------------------------------------------- owed releases

  lemma StepReleases(s: State, e: Event)
    requires Inv(s) && ReleasesKept(s.moves)
    ensures ReleasesKept(After(s, e).moves)
  {
    hide Registered, StampedAll, NetworkSet, EndedSession, Prunable, Deleted, LiveRefs, SlotRefusal, WriteAllowed, ActivatedState, RequestAbort, Indexed, Sound;
    match e {
      case Activate(row, refs, carried) => ActivationDeliveries(s, row, refs, carried);
      case OperatorAbort(c, at) =>
        if c in s.moves {
          MoveRowOf(s, c);
          AbortWrites(s.moves, c, at);
        } else {
          AbortOfNone(s.moves, c, at);
        }
      case SaveCheckpoint(row, clear) =>
        if row.cut in s.moves {
          MoveRowOf(s, row.cut);
          CheckpointMeans(s.moves, row, clear);
        }
      case _ =>
    }
  }

  lemma MoveRowOf(s: State, cut: string)
    requires Inv(s) && cut in s.moves
    ensures s.moves[cut].cut == cut
  {
    hide Sound;
    RowOfCut(s.moves, cut);
  }

  /**
   * Over every run, with checkpoints saved from rows of any age: an aborted
   * source whose seal was sent and not refused has a release for the background
   * driver to pick up.
   */
  lemma {:induction false} ReleasesAlwaysLeft(s: State, events: seq<Event>)
    requires Inv(s) && AllImported(events) && ReleasesKept(s.moves)
    ensures ReleasesKept(Run(s, events).moves)
  {
    hide After, Inv, ReleasesKept, StreamChecked;
    if events != [] {
      var front := events[..|events| - 1];
      ReleasesAlwaysLeft(s, front);
      RunKeeps(s, front);
      StepReleases(Run(s, front), events[|events| - 1]);
    }
  }
}
