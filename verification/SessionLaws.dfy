/** What each write to the session bindings does: when it is accepted, the row it leaves, and why it is refused. */
module SessionLaws {
  import opened Prelude
  import opened Refs
  import opened SessionTables
  import opened MoveTables
  import opened RegistryState

  // ---------------------------------------------------------------- history

  /** The value already in effect is not recorded again. */
  ghost predicate InEffect(h: seq<Entry>, network: string) { h != [] && h[|h| - 1].network == network }

  /**
   * A network value is recorded exactly when it is one of the three known
   * ones and is in effect already or has room left, in entries and in time;
   * a new entry takes effect now, or just after the last one when the clock
   * has stepped back.
   */
  lemma RecordedMeans(h: seq<Entry>, s: Stamp)
    ensures var r := Recorded(h, s);
      var known := s.network == "yes" || s.network == "no" || s.network == "unknown";
      && (r.Ok? <==> known && (InEffect(h, s.network) || (|h| < 1024 && (h == [] || h[|h| - 1].since < 0x7FFF_FFFF_FFFF_FFFF || h[|h| - 1].since < s.now))))
      && (r.Ok? && InEffect(h, s.network) ==> r.value == h)
      && (r.Ok? && !InEffect(h, s.network) ==>
            && |r.value| == |h| + 1 && r.value[..|h|] == h && r.value[|h|].network == s.network
            && (h == [] || s.now > h[|h| - 1].since ==> r.value[|h|].since == s.now)
            && (h != [] && s.now <= h[|h| - 1].since ==> r.value[|h|].since == h[|h| - 1].since + 1))
      && (r.Err? ==> match r.error
            case InvalidRequest => !known
            case NetworkHistoryFull => known && !InEffect(h, s.network) && |h| >= 1024
            case StorageError => known && !InEffect(h, s.network) && h != [] && h[|h| - 1].since >= 0x7FFF_FFFF_FFFF_FFFF
            case _ => false)
  {
  }

  // ----------------------------------------------------------- registration

  ghost predicate SameSession(t: Tables, q: Request, r: Ref) {
    r in t.bindings && t.bindings[r].harness == Some(q.harness) && t.bindings[r].session == Some(q.session)
  }

  ghost predicate NewSession(t: Tables, q: Request) { forall r :: !SameSession(t, q, r) }

  ghost predicate SameRun(t: Tables, runner: string, q: Request, r: Ref) {
    r in t.bindings && t.bindings[r].runner == Some(runner) && t.bindings[r].session == Some(q.session)
  }

  /** The same run of the same agent under another host kind, where neither the host session nor the reference is known. */
  ghost predicate TakesOver(t: Tables, q: Request, r: Ref) {
    && q.runner.Some? && SameRun(t, q.runner.value, q, r) && NewSession(t, q) && q.ref !in t.bindings
    && t.bindings[r].agent == q.agent && r.kind != q.ref.kind
  }

  /** The binding a registration continues: the one of its host session, or the one whose run it takes over, or its own. */
  lemma PreviousMeans(t: Tables, q: Request)
    requires Sound(t)
    ensures var p := Previous(t.bindings, q);
      && (forall r :: SameSession(t, q, r) ==> p == r)
      && (forall r :: TakesOver(t, q, r) ==> p == r)
      && (NewSession(t, q) && (forall r :: !TakesOver(t, q, r)) ==> p == q.ref)
  {
    OneSession(t, q);
    OneTakeover(t, q);
    var (same, host) := (BySession(t.bindings, q.harness, q.session), HostChange(t.bindings, q));
    assert same.Some? ==> SameSession(t, q, same.value);
    assert host.Some? ==> TakesOver(t, q, host.value);
    hide GoodHistory, GoodRow, Unique, HostChange;
  }

  /**
   * The row a registration leaves: open, for this host session, at this time;
   * what the request does not say is taken from the binding it continues, and
   * a re-keyed binding keeps who first registered it. The network value, if
   * one is given, is recorded on the history that came along.
   */
  lemma RegisteredMeans(t: Tables, q: Request)
    requires Sound(t) && Registrable(t, q)
    ensures q.ref in RegisteredTables(t, q).bindings
    ensures Previous(t.bindings, q) != q.ref ==> Previous(t.bindings, q) in t.bindings
    ensures var (p, row) := (Previous(t.bindings, q), RegisteredTables(t, q).bindings[q.ref]);
      && row.agent == q.agent && row.harness == Some(q.harness) && row.session == Some(q.session)
      && row.at == q.now && row.endedAt.None? && row.heldOn.None?
      && row.root == (if q.root.Some? then q.root.value else if p in t.bindings then t.bindings[p].root else "")
      && row.who == (if p != q.ref then t.bindings[p].who else q.who)
      && row.runner == (if q.runner.Some? then q.runner else if p in t.bindings then t.bindings[p].runner else None)
    ensures var (p, next) := (Previous(t.bindings, q), RegisteredTables(t, q));
      && (q.network.None? ==> next.HistoryOf(q.ref) == t.HistoryOf(p))
      && (q.network.Some? ==> Recorded(t.HistoryOf(p), q.network.value) == Ok(next.HistoryOf(q.ref)))
  {
    hide Previous, Recorded, GoodHistory, Unique;
    PreviousCases(t, q);
    if q.network.Some? { PlanOk(t, q); }
  }

  lemma PlanOk(t: Tables, q: Request)
    requires TableRefusal(t, q).None? && q.network.Some?
    ensures Recorded(t.HistoryOf(Previous(t.bindings, q)), q.network.value).Ok?
  {
    hide Previous, Recorded, HostChange;
  }

  /** The run the row will be under, given or continued. */
  ghost function RunOf(t: Tables, q: Request): Option<string> {
    var p := Previous(t.bindings, q);
    if q.runner.Some? then q.runner else if p in t.bindings then t.bindings[p].runner else None
  }

  ghost predicate RefElsewhere(t: Tables, q: Request) { q.ref in t.bindings && t.bindings[q.ref].agent != q.agent }

  ghost predicate SessionElsewhere(t: Tables, q: Request, r: Ref) {
    SameSession(t, q, r) && (t.bindings[r].agent != q.agent || r.kind != q.ref.kind)
  }

  ghost predicate RefTaken(t: Tables, q: Request, r: Ref) { SameSession(t, q, r) && r != q.ref && q.ref in t.bindings }

  ghost predicate RunElsewhere(t: Tables, q: Request, r: Ref) {
    RunOf(t, q).Some? && SameRun(t, RunOf(t, q).value, q, r) && r != Previous(t.bindings, q)
  }

  ghost predicate NetworkRefused(t: Tables, q: Request) {
    q.network.Some? && Recorded(t.HistoryOf(Previous(t.bindings, q)), q.network.value).Err?
  }

  /**
   * The tables have nothing against a registration exactly when its reference
   * and its host session belong to nobody else, a re-keyed session does not
   * land on a taken reference, a run it would take over is not held on another
   * machine, no other binding has its run, and its network value can be
   * recorded. A refusal names its cause.
   */
  lemma TableRefusalMeans(t: Tables, q: Request)
    requires Sound(t)
    ensures var e := TableRefusal(t, q);
      && (e.None? <==>
            && !RefElsewhere(t, q) && (forall r :: !SessionElsewhere(t, q, r) && !RefTaken(t, q, r))
            && (forall r :: TakesOver(t, q, r) ==> t.bindings[r].heldOn.None?)
            && (forall r :: !RunElsewhere(t, q, r)) && !NetworkRefused(t, q))
      && (e.Some? ==> match e.value
            case RefBoundElsewhere(agent) =>
              q.ref in t.bindings && agent == t.bindings[q.ref].agent && (RefElsewhere(t, q) || exists r :: RefTaken(t, q, r))
            case SessionBoundElsewhere(r, agent) =>
              !RefElsewhere(t, q) && r in t.bindings && agent == t.bindings[r].agent && (SessionElsewhere(t, q, r) || RunElsewhere(t, q, r))
            case SessionOnOtherMachine => exists r :: TakesOver(t, q, r) && t.bindings[r].heldOn.Some?
            case _ => NetworkRefused(t, q) && Recorded(t.HistoryOf(Previous(t.bindings, q)), q.network.value) == Err(e.value))
  {
    hide GoodHistory, GoodRow, Recorded, Previous, HostChange, Unique;
    OneSession(t, q);
    OneRun(t, q);
    OneTakeover(t, q);
    if q.network.Some? { RecordedMeans(t.HistoryOf(Previous(t.bindings, q)), q.network.value); }
    var (b, p) := (t.bindings, Previous(t.bindings, q));
    var (same, host, runner) := (BySession(b, q.harness, q.session), HostChange(b, q), RunOf(t, q));
    var owner := if runner.Some? then ByRun(b, runner.value, q.session) else None;
    assert runner == RunnerLeft(b, q);
    assert same.Some? ==> SameSession(t, q, same.value);
    assert host.Some? ==> TakesOver(t, q, host.value);
    assert owner.Some? ==> SameRun(t, runner.value, q, owner.value);
    assert owner.Some? && owner.value != p ==> RunElsewhere(t, q, owner.value);
    assert same.Some? && same.value != q.ref && q.ref in b ==> RefTaken(t, q, same.value);
    assert same.Some? && (b[same.value].agent != q.agent || same.value.kind != q.ref.kind) ==> SessionElsewhere(t, q, same.value);
  }

  /** The look-up by host session finds the one binding that has it. */
  lemma OneSession(t: Tables, q: Request)
    requires Sound(t)
    ensures forall r :: SameSession(t, q, r) <==> BySession(t.bindings, q.harness, q.session) == Some(r)
  {
    hide GoodHistory, GoodRow;
    var s := BySession(t.bindings, q.harness, q.session);
    forall r | SameSession(t, q, r) ensures s == Some(r) {
      assert s.value != r ==> Clash(t.bindings[s.value], t.bindings[r]);
    }
  }

  lemma OneRun(t: Tables, q: Request)
    requires Sound(t)
    ensures forall run, r :: SameRun(t, run, q, r) <==> ByRun(t.bindings, run, q.session) == Some(r)
  {
    hide GoodHistory, GoodRow;
    forall run, r | SameRun(t, run, q, r) ensures ByRun(t.bindings, run, q.session) == Some(r) {
      var s := ByRun(t.bindings, run, q.session);
      assert s.value != r ==> Clash(t.bindings[s.value], t.bindings[r]);
    }
  }

  lemma OneTakeover(t: Tables, q: Request)
    requires Sound(t)
    ensures forall r :: TakesOver(t, q, r) <==> HostChange(t.bindings, q) == Some(r)
  {
    OneSession(t, q);
    OneRun(t, q);
    hide GoodHistory, GoodRow, Unique;
  }

  // ------------------------------------------------- what else may refuse it

  /** An open move that brings a reference in, or takes the agent away or brings it back, until it is decided. */
  ghost predicate MovesAgainst(row: AgentMove, q: Request) {
    && row.step !in {Released, Aborted, Done, TakenOver}
    && (if row.agent == q.agent then row.side == Source || row.step in {PickedUp, Imported, Staged, Claimed, Activating}
        else row.side == Receiver && row.step in {PickedUp, Imported, Staged, Claimed, Activating} && q.ref in row.refs)
  }

  /** Whoever holds the claim, from its first epoch on, is another machine, or nobody. */
  ghost predicate ClaimedElsewhere(ctx: Context, agent: string) {
    && agent in ctx.claims && !ctx.claims[agent].integrityFailed && ctx.claims[agent].epoch > 0
    && !(ctx.claims[agent].holder.Some? && ctx.claims[agent].holder == ctx.self)
  }

  ghost predicate ClaimBroken(ctx: Context, agent: string) { agent in ctx.claims && ctx.claims[agent].integrityFailed }

  /**
   * A registration is accepted exactly on a machine that has taken over
   * authority, for a known agent that is not gone, not moving and not claimed
   * elsewhere, when the row is not held by another machine and the tables have
   * nothing against it. A refusal names its cause.
   */
  lemma RegisterRefusalMeans(s: State, q: Request)
    requires Sound(s.t)
    ensures var e := RegisterRefusal(s, q);
      && (e.None? <==>
            && s.ctx.cutOver && q.agent in s.ctx.agents && !s.ctx.agents[q.agent] && !HeldRemotely(s.t.bindings, q)
            && (forall c :: c in s.moves ==> !MovesAgainst(s.moves[c], q))
            && !ClaimBroken(s.ctx, q.agent) && !ClaimedElsewhere(s.ctx, q.agent) && TableRefusal(s.t, q).None?)
      && (e.Some? ==> match e.value
            case AuthorityNotCutOver => !s.ctx.cutOver
            case UnknownAgent => s.ctx.cutOver && q.agent !in s.ctx.agents
            case Gone => q.agent in s.ctx.agents && s.ctx.agents[q.agent]
            case AgentMoving => exists c :: c in s.moves && MovesAgainst(s.moves[c], q)
            case ClaimIntegrityFailed => ClaimBroken(s.ctx, q.agent)
            case HeldElsewhere => ClaimedElsewhere(s.ctx, q.agent)
            case SessionOnOtherMachine => HeldRemotely(s.t.bindings, q) || TableRefusal(s.t, q) == e
            case _ => TableRefusal(s.t, q) == e)
  {
    if TableRefusal(s.t, q).Some? { TableErrors(s.t, q); }
    ClaimMeans(s.ctx, q.agent);
    forall c | c in s.moves { FenceMeans(s.moves[c], q); }
    hide TableRefusal, Sound, HeldRemotely, Previous, Recorded, Fences, MovesAgainst, ClaimRefusal, ClaimedElsewhere, ClaimBroken;
  }

  lemma TableErrors(t: Tables, q: Request)
    requires Sound(t) && TableRefusal(t, q).Some?
    ensures var e := TableRefusal(t, q).value;
      && !e.AuthorityNotCutOver? && !e.UnknownAgent? && !e.Gone? && !e.AgentMoving? && !e.ClaimIntegrityFailed? && !e.HeldElsewhere?
  {
    TableRefusalMeans(t, q);
    if q.network.Some? { RecordedMeans(t.HistoryOf(Previous(t.bindings, q)), q.network.value); }
    hide TableRefusal, Sound, Recorded, Previous;
  }

  lemma FenceMeans(row: AgentMove, q: Request)
    ensures Fences(row, q) <==> MovesAgainst(row, q)
  {
  }

  lemma ClaimMeans(ctx: Context, agent: string)
    ensures var e := ClaimRefusal(ctx, agent);
      && (e == Some(ClaimIntegrityFailed) <==> ClaimBroken(ctx, agent)) && (e == Some(HeldElsewhere) <==> ClaimedElsewhere(ctx, agent))
      && (e.Some? ==> e.value in {ClaimIntegrityFailed, HeldElsewhere})
  {
  }

  /** Held remotely: the reference itself, or the binding of the host session. */
  lemma HeldRemotelyMeans(t: Tables, q: Request)
    ensures HeldRemotely(t.bindings, q)
       <==> (q.ref in t.bindings && t.bindings[q.ref].heldOn.Some?) || exists r :: SameSession(t, q, r) && t.bindings[r].heldOn.Some?
  {
    if exists r :: SameSession(t, q, r) && t.bindings[r].heldOn.Some? {
      var r :| SameSession(t, q, r) && t.bindings[r].heldOn.Some?;
      assert HasSession(t.bindings[r], q.harness, q.session);
    }
  }

  // ---------------------------------------------------- ends and other writes

  ghost predicate Hosts(t: Tables, harness: string, session: string, r: Ref) {
    r in t.bindings && t.bindings[r].harness == Some(harness) && t.bindings[r].session == Some(session)
  }

  lemma OneHost(t: Tables, harness: string, session: string)
    requires Sound(t)
    ensures forall r :: Hosts(t, harness, session, r) <==> BySession(t.bindings, harness, session) == Some(r)
  {
    hide GoodHistory, GoodRow;
    var s := BySession(t.bindings, harness, session);
    forall r | Hosts(t, harness, session, r) ensures s == Some(r) {
      assert s.value != r ==> Clash(t.bindings[s.value], t.bindings[r]);
    }
  }

  /**
   * The end of a session is stamped once, on the binding of that host session
   * and nothing else. A binding under another runner refuses; one without a
   * runner takes the one given, unless some binding already has that run.
   */
  lemma EndMeans(t: Tables, harness: string, session: string, runner: Option<string>, now: int, r: Ref)
    requires Sound(t) && Hosts(t, harness, session, r)
    ensures var ((next, answer), b) := (EndedSession(t, harness, session, runner, now), t.bindings[r]);
      var other := b.runner.Some? && runner.Some? && b.runner != runner;
      && (answer.Err? <==> other) && (answer.Err? ==> next == t && answer.error == RunnerMismatch(b.runner.value))
      && (!other && b.endedAt.Some? ==> next == t && answer == Ok(AlreadyEnded(b.endedAt.value)))
      && (!other && b.endedAt.None? ==>
            && answer == Ok(Ended(now)) && next == t.(bindings := t.bindings[r := next.bindings[r]])
            && next.bindings[r] == b.(endedAt := Some(now), runner := next.bindings[r].runner)
            && next.bindings[r].runner ==
               if b.runner.Some? || (runner.Some? && exists o :: o in t.bindings && HasRun(t.bindings[o], runner.value, session)) then b.runner
               else runner)
  {
    OneHost(t, harness, session);
    hide Sound;
  }

  /** A session nobody hosts here is answered as missing, and nothing is written. */
  lemma EndOfNone(t: Tables, harness: string, session: string, runner: Option<string>, now: int)
    requires forall r :: !Hosts(t, harness, session, r)
    ensures EndedSession(t, harness, session, runner, now) == (t, Ok(Missing))
  {
    var s := BySession(t.bindings, harness, session);
    assert s.Some? ==> Hosts(t, harness, session, s.value);
  }

  /** A reported end reaches the open binding of that host session, unless both name a runner and they differ. */
  lemma StampMeans(t: Tables, g: Gone, r: Ref)
    requires Sound(t) && Hosts(t, g.harness, g.session, r)
    ensures var (next, b) := (Stamped(t, g), t.bindings[r]);
      if b.endedAt.None? && !(g.runner.Some? && b.runner.Some? && b.runner != g.runner)
      then next == t.(bindings := t.bindings[r := b.(endedAt := Some(g.at))]) else next == t
  {
    OneHost(t, g.harness, g.session);
    hide Sound;
  }

  lemma StampOfNone(t: Tables, g: Gone)
    requires forall r :: !Hosts(t, g.harness, g.session, r)
    ensures Stamped(t, g) == t
  {
    var s := BySession(t.bindings, g.harness, g.session);
    assert s.Some? ==> Hosts(t, g.harness, g.session, s.value);
  }

  /** A network value is recorded on the binding of that host session, or the refusal of the recording is answered. */
  lemma NetworkMeans(t: Tables, harness: string, session: string, s: Stamp, r: Ref)
    requires Sound(t) && Hosts(t, harness, session, r)
    ensures var (next, answer) := NetworkSet(t, harness, session, s);
      && answer == Recorded(t.HistoryOf(r), s) && next.bindings == t.bindings
      && (answer.Ok? ==> next.HistoryOf(r) == answer.value && forall o :: o != r ==> next.HistoryOf(o) == t.HistoryOf(o))
      && (answer.Err? || answer.value == t.HistoryOf(r) ==> next == t)
  {
    OneHost(t, harness, session);
    hide Sound;
  }

  lemma NetworkOfNone(t: Tables, harness: string, session: string, s: Stamp)
    requires forall r :: !Hosts(t, harness, session, r)
    ensures NetworkSet(t, harness, session, s) == (t, Err(if s.network in {"yes", "no", "unknown"} then NotFound else InvalidRequest))
  {
    var b := BySession(t.bindings, harness, session);
    assert b.Some? ==> Hosts(t, harness, session, b.value);
  }

  /** What may be pruned: a binding finished before the cutoff, of an agent that no open move concerns. */
  lemma PrunableMeans(s: State, r: Ref, cutoff: int)
    ensures Prunable(s, r, cutoff)
       <==> r in s.t.bindings && s.t.bindings[r].endedAt.Some? && s.t.bindings[r].endedAt.value < cutoff
            && forall c :: c in s.moves && s.moves[c].agent == s.t.bindings[r].agent ==> s.moves[c].step in {Released, Aborted, Done, TakenOver}
  {
  }

  /** Pruning takes a binding and its history, and leaves every other one alone. */
  lemma DeletedMeans(t: Tables, gone: set<Ref>, r: Ref)
    ensures var next := Deleted(t, gone);
      && (r in next.bindings <==> r in t.bindings && r !in gone) && (r in next.history <==> r in t.history && r !in gone)
      && (r in next.bindings ==> next.bindings[r] == t.bindings[r]) && (r in next.history ==> next.history[r] == t.history[r])
  {
  }

  // ------------------------------------------------------------ carrying them

  /**
   * An export succeeds exactly when every planned reference is the agent's,
   * every live one is planned, and the machine can name itself where it has
   * to. Planned rows travel as they are; the others are marked as held where
   * they are held, which is here unless another machine already holds them.
   */
  lemma ExportMeans(t: Tables, agent: string, planned: set<Ref>, origin: Option<string>)
    ensures var r := SessionCarry.Exported(t, agent, planned, origin);
      var fits := (forall p :: p in planned ==> p in t.bindings && t.bindings[p].agent == agent)
                  && (forall b :: b in t.bindings && t.bindings[b].agent == agent && t.bindings[b].endedAt.None? ==> b in planned);
      var unnamed := origin.None? && exists b :: b in t.bindings && t.bindings[b].agent == agent && b !in planned && t.bindings[b].heldOn.None?;
      && (r.Ok? <==> fits && !unnamed) && (!fits ==> r == Err(BindingsDiffer)) && (fits && unnamed ==> r == Err(OriginUnknown))
      && (r.Ok? ==> forall b :: b in r.value ==>
            && b in t.bindings && r.value[b].history == t.HistoryOf(b)
            && r.value[b].row == t.bindings[b].(heldOn := r.value[b].row.heldOn)
            && r.value[b].row.heldOn == if b in planned || t.bindings[b].heldOn.Some? then t.bindings[b].heldOn else origin)
  {
  }

  /** A reference that arrives with nothing is a placeholder, to be registered here later. */
  ghost predicate IsPlaceholder(b: Binding, agent: string, at: int) {
    b == Binding(agent, None, None, "", "move", at, None, None, None)
  }

  /** A row arrives for its new owner; the machine it is held on is forgotten when that is this one. */
  ghost predicate CameOver(b: Binding, c: Carried, agent: string, origin: Option<string>) {
    b == c.row.(agent := agent, heldOn := b.heldOn) && b.heldOn == if c.row.heldOn.Some? && c.row.heldOn == origin then None else c.row.heldOn
  }

  /** What one installation does to its own reference, and to nothing else. */
  lemma InstallOneMeans(t: Tables, agent: string, at: int, origin: Option<string>, r: Ref, carried: map<Ref, Carried>)
    ensures var next := InstallOne(t, agent, at, origin, r, carried);
      && (r in t.bindings ==> next == t)
      && (r !in t.bindings && r !in carried ==> r in next.bindings && IsPlaceholder(next.bindings[r], agent, at) && next.history == t.history)
      && (r !in t.bindings && r in carried && (forall q :: q in t.bindings ==> !Clash(t.bindings[q], carried[r].row)) ==>
            r in next.bindings && CameOver(next.bindings[r], carried[r], agent, origin))
      && (r !in t.bindings && r in carried && (exists q :: q in t.bindings && Clash(t.bindings[q], carried[r].row)) ==>
            if carried[r].row.heldOn.Some? then next == t else r in next.bindings && IsPlaceholder(next.bindings[r], agent, at))
      && (r !in t.bindings && r in carried && r in next.bindings && carried[r].history != [] ==> next.HistoryOf(r) == carried[r].history)
      && (forall q :: q != r ==> (q in next.bindings <==> q in t.bindings) && next.HistoryOf(q) == t.HistoryOf(q))
      && (forall q :: q in t.bindings ==> next.bindings[q] == t.bindings[q])
  {
    hide Clash;
  }

  /** What two rows must not share: a host session, or the run of a runner. */
  lemma ClashMeans(a: Binding, b: Binding)
    ensures Clash(a, b)
       <==> && a.session.Some? && b.session.Some? && a.session.value == b.session.value
            && (|| (a.harness.Some? && b.harness.Some? && a.harness.value == b.harness.value)
                || (a.runner.Some? && b.runner.Some? && a.runner.value == b.runner.value))
  {
  }

  /** Installing a list is installing its references one by one; the whole list leaves everything outside it alone. */
  lemma {:induction false} InstallAllFrames(t: Tables, agent: string, at: int, origin: Option<string>, refs: seq<Ref>, carried: map<Ref, Carried>, q: Ref)
    requires q !in refs || q in t.bindings
    ensures var next := InstallAll(t, agent, at, origin, refs, carried);
      && (q in next.bindings <==> q in t.bindings) && (q in t.bindings ==> next.bindings[q] == t.bindings[q]) && next.HistoryOf(q) == t.HistoryOf(q)
  {
    hide InstallOne;
    if refs != [] {
      var (front, last) := (refs[..|refs| - 1], refs[|refs| - 1]);
      assert refs == front + [last];
      InstallAllFrames(t, agent, at, origin, front, carried, q);
      InstallOneMeans(InstallAll(t, agent, at, origin, front, carried), agent, at, origin, last, carried);
    }
  }

  /**
   * The activation of a received move: let through by the checks on the row
   * and its references and by the table, it installs the references and then
   * the finished metadata, and writes the row with both deliveries pending;
   * otherwise nothing at all is written.
   */
  lemma ActivatedMeans(s: State, row: AgentMove, refs: seq<Ref>, carried: seq<Carried>)
    ensures var ((after, r), e) := (ActivatedState(s, row, refs, carried), ActivationRefusal(s.moves, s.t, row, refs));
      && (r.Ok? <==> e.None? && WriteAllowed(s.moves, row))
      && (r.Err? ==> after == s && r.error == if e.Some? then e.value else MoveStorageError)
      && (r.Ok? ==>
            && row.cut in s.moves && row.activatedAt.Some? && after.ctx == s.ctx
            && r.value == row.(abort := s.moves[row.cut].abort, accept := Some(PENDING), release := Some(PENDING))
            && after.moves == s.moves[row.cut := r.value]
            && after.t == InstallAll(s.t, row.agent, row.activatedAt.value, s.ctx.origin, refs + MetadataRefs(carried), CarriedMap(carried)))
  {
    hide InstallAll, CarriedMap, MetadataRefs;
  }
}
