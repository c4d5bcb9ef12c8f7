/** The registry store: the transactions themselves, each tied to what it does to the tables. */
module Registry {
  import opened Prelude
  import opened Refs
  import opened SessionTables
  import opened SessionCarry
  import opened MoveTables
  import opened RegistryState

  /** The host session a binding names, as the unique index finds it. */
  method FindSession(b: map<Ref, Binding>, harness: string, session: string) returns (r: Option<Ref>)
    requires Unique(b)
    ensures r == BySession(b, harness, session)
  {
    var todo := b.Keys;
    while todo != {}
      invariant todo <= b.Keys && forall q :: q in b && q !in todo ==> !HasSession(b[q], harness, session)
      decreases |todo|
    {
      var q :| q in todo;
      if HasSession(b[q], harness, session) {
        OneOnSession(b, harness, session, q);
        return Some(q);
      }
      todo := todo - {q};
    }
    return None;
  }

  method FindRun(b: map<Ref, Binding>, runner: string, session: string) returns (r: Option<Ref>)
    requires Unique(b)
    ensures r == ByRun(b, runner, session)
  {
    var todo := b.Keys;
    while todo != {}
      invariant todo <= b.Keys && forall q :: q in b && q !in todo ==> !HasRun(b[q], runner, session)
      decreases |todo|
    {
      var q :| q in todo;
      if HasRun(b[q], runner, session) {
        OneOnRun(b, runner, session, q);
        return Some(q);
      }
      todo := todo - {q};
    }
    return None;
  }

  lemma OneOnSession(b: map<Ref, Binding>, harness: string, session: string, q: Ref)
    requires Unique(b) && q in b && HasSession(b[q], harness, session)
    ensures BySession(b, harness, session) == Some(q)
  {
    var r := BySession(b, harness, session);
    assert r.Some?;
    assert r.value != q ==> !Clash(b[r.value], b[q]);
  }

  lemma OneOnRun(b: map<Ref, Binding>, runner: string, session: string, q: Ref)
    requires Unique(b) && q in b && HasRun(b[q], runner, session)
    ensures ByRun(b, runner, session) == Some(q)
  {
    var r := ByRun(b, runner, session);
    assert r.Some?;
    assert r.value != q ==> !Clash(b[r.value], b[q]);
  }

  lemma SoundIsUnique(t: Tables)
    requires Sound(t)
    ensures Unique(t.bindings) && t.history.Keys <= t.bindings.Keys
  {
  }

  class RegistryStore {
    var ctx: Context
    var bindings: map<Ref, Binding>
    var history: map<Ref, seq<Entry>>
    var moves: Moves

    function View(): State
      reads this
    {
      State(ctx, Tables(bindings, history), moves)
    }

    constructor (ctx: Context)
      ensures View() == State(ctx, Tables(map[], map[]), map[])
    {
      this.ctx, bindings, history, moves := ctx, map[], map[], map[];
    }

    /** The checks that run before the tables are consulted for this binding. */
    method CheckMayRegister(q: Request) returns (e: Option<Refusal>)
      ensures e.Some? ==> RegisterRefusal(View(), q) == e
      ensures e.None? ==> RegisterRefusal(View(), q) == TableRefusal(View().t, q)
    {
      hide TableRefusal, Fences, HasSession;
      if !ctx.cutOver { return Some(AuthorityNotCutOver); }
      if q.agent !in ctx.agents { return Some(UnknownAgent); }
      if ctx.agents[q.agent] { return Some(Refusal.Gone); }
      if exists r :: r in bindings && bindings[r].heldOn.Some? && (r == q.ref || HasSession(bindings[r], q.harness, q.session)) {
        return Some(SessionOnOtherMachine);
      }
      if exists c :: c in moves && Fences(moves[c], q) { return Some(AgentMoving); }
      return ClaimRefusal(ctx, q.agent);
    }

    /** Find the binding this registration continues, or why it may not have it. */
    method PlanRegistration(q: Request) returns (plan: Result<Ref, Refusal>)
      requires Sound(View().t)
      ensures plan.Ok? ==> TableRefusal(View().t, q).None? && plan.value == Previous(bindings, q)
      ensures plan.Err? ==> TableRefusal(View().t, q) == Some(plan.error)
    {
      hide HasSession, HasRun, Sound, Recorded;
      SoundIsUnique(View().t);
      var known := q.ref in bindings;
      if known && bindings[q.ref].agent != q.agent { return Err(RefBoundElsewhere(bindings[q.ref].agent)); }
      var same := FindSession(bindings, q.harness, q.session);
      if same.Some? && (bindings[same.value].agent != q.agent || same.value.kind != q.ref.kind) {
        return Err(SessionBoundElsewhere(same.value, bindings[same.value].agent));
      }
      var rekey := same.Some? && same.value != q.ref;
      if rekey && known { return Err(RefBoundElsewhere(bindings[q.ref].agent)); }
      var host: Option<Ref> := None;
      if q.runner.Some? && same.None? && !known {
        host := FindRun(bindings, q.runner.value, q.session);
        if host.Some? && !(bindings[host.value].agent == q.agent && host.value.kind != q.ref.kind) { host := None; }
        if host.Some? && bindings[host.value].heldOn.Some? { return Err(SessionOnOtherMachine); }
      }
      assert host == HostChange(bindings, q);
      var previous := if host.Some? then host.value else if same.Some? then same.value else q.ref;
      var runner := if q.runner.Some? then q.runner else if previous in bindings then bindings[previous].runner else None;
      if runner.Some? {
        var owner := FindRun(bindings, runner.value, q.session);
        if owner.Some? && owner.value != previous {
          return Err(SessionBoundElsewhere(owner.value, bindings[owner.value].agent));
        }
      }
      if q.network.Some? {
        var recorded := Recorded(View().t.HistoryOf(previous), q.network.value);
        if recorded.Err? { return Err(recorded.error); }
      }
      return Ok(previous);
    }

    /**
     * Register a host session. Every check runs first; then the continued row
     * and its history move to the new reference, the row is written over, and
     * a changed network value is appended.
     */
    method RegisterSession(q: Request) returns (r: Result<Binding, Refusal>)
      requires Sound(View().t)
      modifies this`bindings, this`history
      ensures (View().t, r) == Registered(old(View()), q)
      ensures View() == After(old(View()), Event.Register(q))
      ensures r.Ok? ==> q.ref in bindings && bindings[q.ref] == r.value
    {
      hide Sound, HasSession, HasRun, Recorded, TableRefusal, HeldRemotely, RegisterRefusal, Previous;
      var early := CheckMayRegister(q);
      if early.Some? { return Err(early.value); }
      var plan := PlanRegistration(q);
      if plan.Err? { return Err(plan.error); }
      var previous := plan.value;
      SoundIsUnique(View().t);
      ghost var before := View().t;
      if previous != q.ref && previous in bindings {
        bindings := (bindings - {previous})[q.ref := bindings[previous]];
        if previous in history { history := (history - {previous})[q.ref := history[previous]]; }
      }
      assert bindings == Moved(before.bindings, previous, q.ref);
      assert history == Moved(before.history, previous, q.ref);
      var row := Upserted(if q.ref in bindings then Some(bindings[q.ref]) else None, previous != q.ref, q);
      bindings := bindings[q.ref := row];
      if q.network.Some? {
        var past := if q.ref in history then history[q.ref] else [];
        var recorded := Recorded(past, q.network.value);
        if recorded.Ok? && recorded.value != past { history := history[q.ref := recorded.value]; }
      }
      return Ok(bindings[q.ref]);
    }

    method EndSession(harness: string, session: string, runner: Option<string>, now: int) returns (r: Result<SessionEnd, Refusal>)
      requires Sound(View().t)
      modifies this`bindings
      ensures (View().t, r) == EndedSession(old(View().t), harness, session, runner, now)
      ensures View() == After(old(View()), Event.EndSession(harness, session, runner, now))
    {
      hide Sound, HasSession, HasRun;
      SoundIsUnique(View().t);
      var found := FindSession(bindings, harness, session);
      if found.None? { return Ok(Missing); }
      var b := bindings[found.value];
      if b.runner.Some? && runner.Some? && b.runner != runner { return Err(RunnerMismatch(b.runner.value)); }
      if b.endedAt.Some? { return Ok(AlreadyEnded(b.endedAt.value)); }
      var fill := runner;
      if runner.Some? && b.runner.None? {
        var owner := FindRun(bindings, runner.value, session);
        if owner.Some? { fill := None; }
      }
      bindings := bindings[found.value := b.(endedAt := Some(now), runner := if b.runner.Some? then b.runner else fill)];
      return Ok(Ended(now));
    }

    method StampGoneSessions(gone: seq<Gone>)
      requires Sound(View().t)
      modifies this`bindings
      ensures View().t == StampedAll(old(View().t), gone)
      ensures View() == After(old(View()), Event.StampGone(gone))
    {
      hide HasSession, Sound;
      ghost var before := View().t;
      for i := 0 to |gone|
        invariant View().t == StampedAll(before, gone[..i]) && Sound(View().t)
      {
        assert gone[..i + 1][..i] == gone[..i];
        var g := gone[i];
        SoundIsUnique(View().t);
        var found := FindSession(bindings, g.harness, g.session);
        if found.Some? {
          var b := bindings[found.value];
          StampSound(View().t, found.value, Some(g.at));
          if b.endedAt.None? && (g.runner.None? || b.runner.None? || b.runner == g.runner) {
            bindings := bindings[found.value := b.(endedAt := Some(g.at))];
          }
        }
      }
      assert gone[..|gone|] == gone;
    }

    method SetSessionNetwork(harness: string, session: string, stamp: Stamp) returns (r: Result<seq<Entry>, Refusal>)
      requires Sound(View().t)
      modifies this`history
      ensures (View().t, r) == NetworkSet(old(View().t), harness, session, stamp)
      ensures View() == After(old(View()), Event.SetNetwork(harness, session, stamp))
    {
      hide HasSession, Sound, Recorded;
      SoundIsUnique(View().t);
      if stamp.network !in NETWORK_VALUES { return Err(InvalidRequest); }
      var found := FindSession(bindings, harness, session);
      if found.None? { return Err(NotFound); }
      var past := View().t.HistoryOf(found.value);
      var recorded := Recorded(past, stamp);
      if recorded.Err? { return Err(recorded.error); }
      if recorded.value != past { history := history[found.value := recorded.value]; }
      return Ok(recorded.value);
    }

    /** Retention, in batches: afterwards exactly the prunable bindings are gone, with their histories. */
    method PruneEndedSessions(now: int) returns (pruned: nat)
      modifies this`bindings, this`history
      ensures View().t == Deleted(old(View().t), PrunableSet(old(View()), now - SESSION_RETENTION))
      ensures pruned == |PrunableSet(old(View()), now - SESSION_RETENTION)|
    {
      hide PrunableSet, Prunable;
      var cutoff := now - SESSION_RETENTION;
      ghost var (before, all) := (View(), PrunableSet(View(), cutoff));
      pruned := 0;
      ghost var done: set<Ref> := {};
      PrunedSoFar(before, {}, cutoff);
      while true
        invariant done <= all && View() == before.(t := Deleted(before.t, done)) && pruned == |done|
        decreases |all - done|
      {
        PrunedSoFar(before, done, cutoff);
        var batch := TakeBatch(PrunableSet(View(), cutoff));
        bindings, history := bindings - batch, history - batch;
        DeletedTwice(before.t, done, batch);
        DisjointSizes(done, batch, all);
        pruned := pruned + |batch|;
        done := done + batch;
        if |batch| < PRUNE_BATCH { return; }
      }
    }

    /** A move holding the agent's slot, or none. */
    method FindOpen(agent: string) returns (cut: Option<string>)
      requires Indexed(moves)
      ensures cut.None? <==> !AgentOpen(moves, agent)
      ensures cut.Some? ==> cut.value == OpenOf(moves, agent)
    {
      if exists c :: c in moves && moves[c].Open() && moves[c].agent == agent {
        OneOpen(moves, agent);
        var c :| c in moves && moves[c].Open() && moves[c].agent == agent;
        return Some(c);
      }
      return None;
    }

    method CheckSlot(agent: string) returns (e: Option<MoveRefusal>)
      requires Indexed(moves)
      ensures e == SlotRefusal(moves, agent)
    {
      hide Indexed;
      var existing := FindOpen(agent);
      if existing.Some? { return Some(MoveInProgress(existing.value)); }
      if |OpenMoves(moves)| >= OPEN_MAX { return Some(MoveCap); }
      return None;
    }

    method WriteRow(row: AgentMove) returns (r: Result<AgentMove, MoveRefusal>)
      modifies this`moves
      ensures (moves, r) == Write(old(moves), row)
    {
      hide WriteAllowed;
      if !WriteAllowed(moves, row) { return Err(MoveStorageError); }
      moves := moves[row.cut := row];
      return Ok(row);
    }

    method AdmitAgentMove(row: AgentMove, checked: set<Ref>) returns (r: Result<AgentMove, MoveRefusal>)
      requires Indexed(moves)
      modifies this`moves
      ensures (moves, r) == AdmitSource(old(moves), LiveRefs(bindings, row.agent), DigestOf(ctx, row.agent), row, checked)
      ensures View() == After(old(View()), Event.AdmitMove(row, checked))
    {
      hide Indexed, SlotRefusal, WriteAllowed, LiveRefs;
      if row.side != Source || row.step != Preparing || row.requestKey.None? || row.requestBody.None? { return Err(InvalidMove); }
      if exists c :: c in moves && row.requestKey.Some? && moves[c].requestKey == row.requestKey {
        OneKey(moves, row.requestKey);
        var c :| c in moves && row.requestKey.Some? && moves[c].requestKey == row.requestKey;
        assert HasKey(moves, row.requestKey, c);
        return if moves[c].requestBody == row.requestBody then Ok(moves[c]) else Err(RequestKeyReused);
      }
      if LiveRefs(bindings, row.agent) != checked { return Err(AgentBusy); }
      if |checked| > LIVE_REF_MAX { return Err(LiveRefCap); }
      if row.pinDigest != DigestOf(ctx, row.agent) { return Err(AgentBusy); }
      var slot := CheckSlot(row.agent);
      if slot.Some? { return Err(slot.value); }
      if row.cut in moves { return Err(MoveStorageError); }
      r := WriteRow(row);
    }

    method AdmitReceivedMove(row: AgentMove) returns (r: Result<AgentMove, MoveRefusal>)
      requires Indexed(moves)
      modifies this`moves
      ensures (moves, r) == AdmitReceived(old(moves), row)
      ensures View() == After(old(View()), Event.AdmitIncoming(row))
    {
      hide Indexed, SlotRefusal, WriteAllowed;
      if row.side != Receiver || !(row.step in {PickedUp, Aborted}) { return Err(InvalidMove); }
      if row.cut in moves { return Ok(moves[row.cut]); }
      var slot := CheckSlot(row.agent);
      if slot.Some? { return Err(slot.value); }
      r := WriteRow(row);
    }

    method CheckpointAgentMove(row: AgentMove, clear: bool) returns (r: Result<AgentMove, MoveRefusal>)
      modifies this`moves
      ensures (moves, r) == Checkpoint(old(moves), row, clear)
      ensures View() == After(old(View()), Event.SaveCheckpoint(row, clear))
    {
      hide WriteAllowed;
      if row.cut !in moves { return Err(MoveStorageError); }
      var current := moves[row.cut];
      if row.step == Activating && current.step == Claimed && current.abort.Some? { return Ok(current); }
      var next := row;
      if clear {
        next := next.(abort := None);
      } else if current.abort.Some? {
        next := next.(abort := current.abort);
      }
      next := next.(accept := current.accept);
      if current.release.Some? {
        next := next.(release := current.release);
      } else if next.side == Source && next.step == Aborted && next.sealSent && !next.sealRefused {
        next := next.(release := Some(PENDING));
      }
      r := WriteRow(next);
    }

    method RequestAgentMoveAbort(cut: string, now: int) returns (r: Result<AgentMove, MoveRefusal>)
      modifies this`moves
      ensures (moves, r) == RequestAbort(old(moves), cut, now)
      ensures View() == After(old(View()), Event.OperatorAbort(cut, now))
    {
      hide WriteAllowed;
      if cut !in moves { return Err(MoveStorageError); }
      var row := moves[cut];
      if row.step == Aborted { return Ok(row); }
      if !row.step.BeforeBoundary(row.side) { return Err(InvalidState); }
      if row.AbortStuck() {
        row := row.(abort := Some(row.abort.value.(retryPending := true)));
      } else if row.abort.Some? {
        return Ok(row);
      } else {
        row := row.(abort := Some(OPERATOR));
      }
      row := row.(updatedAt := now);
      r := WriteRow(row);
    }

    method ConsumeMoveAbortRetry(cut: string) returns (r: Result<bool, MoveRefusal>)
      requires Indexed(moves)
      modifies this`moves
      ensures (moves, r) == ConsumeRetry(old(moves), cut)
      ensures View() == After(old(View()), Event.TakeAbortRetry(cut))
    {
      hide Indexed, WriteAllowed;
      if cut !in moves { return Err(MoveStorageError); }
      var row := moves[cut];
      if row.abort.None? || !row.abort.value.retryPending { return Ok(false); }
      RowOfCut(moves, cut);
      row := row.(abort := Some(row.abort.value.(retryPending := false)));
      SameIdentityAllowed(moves, row);
      var written := WriteRow(row);
      return Ok(true);
    }

    /** Install the moved-in references, then the finished metadata, each at most once, counting what became of them. */
    method InstallMovedBindings(agent: string, at: int, refs: seq<Ref>, carried: seq<Carried>) returns (o: Outcome)
      modifies this`bindings, this`history
      ensures View().t == InstallAll(old(View().t), agent, at, ctx.origin, refs + MetadataRefs(carried), CarriedMap(carried))
      ensures o == Tally(old(View().t), agent, at, ctx.origin, refs + MetadataRefs(carried), CarriedMap(carried))
    {
      hide CarriedMap, MetadataRefs, Clash, TallyOne, InstallOne;
      o := NOTHING_DONE;
      var (sent, all) := (CarriedMap(carried), refs + MetadataRefs(carried));
      ghost var before := View().t;
      var seen: set<Ref> := {};
      for i := 0 to |all|
        invariant View().t == InstallAll(before, agent, at, ctx.origin, all[..i], sent)
        invariant o == Tally(before, agent, at, ctx.origin, all[..i], sent)
        invariant forall r :: r in seen <==> r in all[..i]
        invariant forall r :: r in seen ==> Settled(View().t, r, sent)
      {
        assert all[..i + 1][..i] == all[..i];
        var r := all[i];
        ghost var t := View().t;
        if r in seen {
          SettledStays(t, agent, at, ctx.origin, r, sent);
        } else {
          o := InstallReference(agent, at, r, sent, o);
        }
        assert View().t == InstallOne(t, agent, at, ctx.origin, r, sent);
        forall s | s in seen + {r} ensures Settled(View().t, s, sent) {
          InstallSettles(t, agent, at, ctx.origin, r, sent, s);
        }
        seen := seen + {r};
      }
      assert all[..|all|] == all;
    }

    method InstallReference(agent: string, at: int, r: Ref, sent: map<Ref, Carried>, before: Outcome) returns (o: Outcome)
      modifies this`bindings, this`history
      ensures View().t == InstallOne(old(View().t), agent, at, ctx.origin, r, sent)
      ensures o == TallyOne(old(View().t), before, r, sent)
    {
      hide Clash, RefBefore;
      if r in bindings {
        return if r in sent then before.(kept := before.kept + 1) else before;
      }
      if r !in sent {
        bindings := bindings[r := Placeholder(agent, at)];
        return before;
      }
      var c := sent[r];
      if exists q :: q in bindings && Clash(bindings[q], c.row) {
        if c.row.heldOn.Some? {
          HolderExists(bindings, c.row);
          var q :| q in bindings && Clash(bindings[q], c.row)
            && forall p :: p in bindings && Clash(bindings[p], c.row) && p != q ==> RefBefore(q, p);
          HolderUnique(bindings, c.row, q);
          return before.(kept := before.kept + 1, skipped := before.skipped + [(r, q)]);
        }
        bindings := bindings[r := Placeholder(agent, at)];
        o := before.(placeholders := before.placeholders + 1);
      } else {
        bindings := bindings[r := InstalledRow(c, agent, ctx.origin)];
        o := before.(installed := before.installed + 1);
      }
      history := WithHistory(history, r, c.history);
    }

    /** Activate a received move: the owners checked first, then the bindings and the row together. */
    method ActivateAgentMoveCarrying(row: AgentMove, refs: seq<Ref>, carried: seq<Carried>)
      returns (r: Result<AgentMove, MoveRefusal>, installed: Outcome)
      modifies this`bindings, this`history, this`moves
      ensures (View(), r) == ActivatedState(old(View()), row, refs, carried)
      ensures View() == After(old(View()), Event.Activate(row, refs, carried))
      ensures r.Ok? ==> row.activatedAt.Some?
      ensures r.Ok? ==> installed == Tally(old(View().t), row.agent, row.activatedAt.value, ctx.origin, refs + MetadataRefs(carried), CarriedMap(carried))
    {
      hide Tally, InstallAll, CarriedMap, MetadataRefs, WriteAllowed;
      if row.cut !in moves { return Err(MoveStorageError), NOTHING_DONE; }
      var current := moves[row.cut];
      if current.side != Receiver || current.step != Activating || row.step != Activated || row.activatedAt.None? { return Err(InvalidState), NOTHING_DONE; }
      for i := 0 to |refs|
        invariant forall j :: 0 <= j < i ==> refs[j] !in bindings || bindings[refs[j]].agent == row.agent
      {
        if refs[i] in bindings && bindings[refs[i]].agent != row.agent { return Err(IncomingRefBoundElsewhere), NOTHING_DONE; }
      }
      var (savedBindings, savedHistory) := (bindings, history);
      installed := InstallMovedBindings(row.agent, row.activatedAt.value, refs, carried);
      var next := row.(abort := current.abort, accept := Some(PENDING), release := Some(PENDING));
      r := WriteRow(next);
      if r.Err? { bindings, history := savedBindings, savedHistory; }
    }

    method SetMoveCutAccept(cut: string, accept: Delivery, now: int)
      modifies this`moves
      ensures moves == SetAccept(old(moves), cut, accept, now)
      ensures View() == After(old(View()), Event.AcceptProgress(cut, accept, now))
    {
      if cut in moves { moves := moves[cut := moves[cut].(accept := Some(accept), updatedAt := now)]; }
    }

    method SetMoveCutRelease(cut: string, release: Delivery) returns (r: Result<(), MoveRefusal>)
      requires Indexed(moves)
      modifies this`moves
      ensures moves == SetRelease(old(moves), cut, release) && (r.Ok? <==> cut in moves)
      ensures View() == After(old(View()), Event.ReleaseProgress(cut, release))
    {
      hide Indexed, WriteAllowed;
      if cut !in moves { return Err(MoveStorageError); }
      RowOfCut(moves, cut);
      SameIdentityAllowed(moves, moves[cut].(release := Some(release)));
      var written := WriteRow(moves[cut].(release := Some(release)));
      return Ok(());
    }

    /** The bindings that travel with a move, while it is still frozen on this machine. */
    method ExportSessionBindings(cut: string, agent: string) returns (r: Result<map<Ref, Carried>, Refusal>)
      ensures r == if FrozenBy(moves, cut, agent) then SessionCarry.Exported(View().t, agent, PlannedRefs(moves[cut]), ctx.origin)
                   else Err(NoFrozenMove)
      ensures r == Err(NoFrozenMove) <==>
        !(cut in moves && moves[cut].agent == agent && moves[cut].side == Source && moves[cut].step in {Preparing, Step.Exported, Sealed})
    {
      if !FrozenBy(moves, cut, agent) { return Err(NoFrozenMove); }
      return SessionCarry.Exported(View().t, agent, PlannedRefs(moves[cut]), ctx.origin);
    }
  }

  /** An open source move of this agent that has not yet published its cut. */
  predicate FrozenBy(m: Moves, cut: string, agent: string) {
    cut in m && m[cut].agent == agent && m[cut].side == Source && m[cut].step in {Preparing, Step.Exported, Sealed}
  }

  const SESSION_RETENTION: int := 30 * 24 * 60 * 60 * 1000

  function PrunableSet(s: State, cutoff: int): set<Ref> {
    set r | r in s.t.bindings && Prunable(s, r, cutoff)
  }

  /** Deleting some of the prunable bindings leaves the others just as prunable. */
  lemma PrunedSoFar(s: State, done: set<Ref>, cutoff: int)
    requires done <= PrunableSet(s, cutoff)
    ensures PrunableSet(s.(t := Deleted(s.t, done)), cutoff) == PrunableSet(s, cutoff) - done
    ensures Deleted(s.t, {}) == s.t
  {
    hide AgentOpen;
  }

  lemma DisjointSizes(done: set<Ref>, batch: set<Ref>, all: set<Ref>)
    requires done <= all && batch <= all - done
    ensures |done + batch| == |done| + |batch| && (batch == all - done ==> done + batch == all)
    ensures batch != {} ==> |all - (done + batch)| < |all - done|
  {
    if batch != {} { SmallerSet(all - (done + batch), all - done); }
  }

  lemma DeletedTwice(t: Tables, a: set<Ref>, b: set<Ref>)
    ensures Deleted(Deleted(t, a), b) == Deleted(t, a + b)
  {
  }

  lemma SmallerSet(a: set<Ref>, b: set<Ref>)
    requires a < b
    ensures |a| < |b|
  {
    var x :| x in b && x !in a;
    SubsetSize(a, b - {x});
  }

  /** One `LIMIT`ed batch: all of a small set, or a full batch of a larger one. */
  method TakeBatch(left: set<Ref>) returns (batch: set<Ref>)
    ensures batch <= left && |batch| <= PRUNE_BATCH && (|batch| < PRUNE_BATCH ==> batch == left)
  {
    batch := {};
    var rest := left;
    while rest != {} && |batch| < PRUNE_BATCH
      invariant batch + rest == left && batch !! rest && |batch| <= PRUNE_BATCH
      decreases |rest|
    {
      var r :| r in rest;
      batch, rest := batch + {r}, rest - {r};
    }
  }

  /** The session bindings among a plan's references. */
  function PlannedRefs(row: AgentMove): set<Ref> { set r | r in row.refs && IsBindingKind(r.kind) }

  lemma OneOpen(m: Moves, agent: string)
    requires Indexed(m) && AgentOpen(m, agent)
    ensures forall c :: c in m && m[c].Open() && m[c].agent == agent ==> c == OpenOf(m, agent)
  {
  }

  lemma OneKey(m: Moves, key: Option<string>)
    requires Indexed(m)
    ensures forall c, d :: HasKey(m, key, c) && HasKey(m, key, d) ==> c == d
  {
  }

  /** A reference that has been through installation: it has a row, or it was left out for good. */
  ghost predicate Settled(t: Tables, r: Ref, sent: map<Ref, Carried>) {
    r in t.bindings || (r in sent && sent[r].row.heldOn.Some? && Collides(t.bindings, sent[r].row))
  }

  lemma SettledStays(t: Tables, agent: string, at: int, origin: Option<string>, r: Ref, sent: map<Ref, Carried>)
    requires Settled(t, r, sent)
    ensures InstallOne(t, agent, at, origin, r, sent) == t
  {
    hide Clash;
  }

  lemma InstallSettles(t: Tables, agent: string, at: int, origin: Option<string>, r: Ref, sent: map<Ref, Carried>, s: Ref)
    requires s == r || Settled(t, s, sent)
    ensures Settled(InstallOne(t, agent, at, origin, r, sent), s, sent)
  {
    hide Clash, InstalledRow;
    var next := InstallOne(t, agent, at, origin, r, sent);
    assert forall q :: q in t.bindings ==> q in next.bindings && next.bindings[q] == t.bindings[q];
    if s !in t.bindings && Settled(t, s, sent) {
      var q :| q in t.bindings && Clash(t.bindings[q], sent[s].row);
      assert Clash(next.bindings[q], sent[s].row);
    }
  }
}
