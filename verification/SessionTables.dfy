/** The machine's session bindings and their network histories, as tables and as the changes made to them. */
module SessionTables {
  import opened Prelude
  import opened Refs

  /** `network` took effect at `since` and held until the next entry. */
  datatype Entry = Entry(network: string, since: int)

  datatype Binding = Binding(
    agent: string, harness: Option<string>, session: Option<string>, root: string, who: string, at: int,
    runner: Option<string>, endedAt: Option<int>, heldOn: Option<string>)

  datatype Tables = Tables(bindings: map<Ref, Binding>, history: map<Ref, seq<Entry>>)
  {
    function HistoryOf(r: Ref): seq<Entry> { if r in history then history[r] else [] }
  }

  datatype Stamp = Stamp(network: string, now: int)

  datatype Request = Request(
    agent: string, ref: Ref, harness: string, session: string, root: Option<string>, who: string,
    runner: Option<string>, network: Option<Stamp>, now: int)

  datatype Refusal =
    | AuthorityNotCutOver | UnknownAgent | Gone | SessionOnOtherMachine | AgentMoving | ClaimIntegrityFailed | HeldElsewhere
    | RefBoundElsewhere(agent: string) | SessionBoundElsewhere(ref: Ref, agent: string)
    | InvalidRequest | NetworkHistoryFull | NotFound | RunnerMismatch(runner: string) | StorageError
    | NoFrozenMove | BindingsDiffer | OriginUnknown

  const NETWORK_VALUES: set<string> := {"yes", "no", "unknown"}
  const HISTORY_MAX: nat := 1024
  const I64_MAX: int := 0x7FFF_FFFF_FFFF_FFFF

  // ------------------------------------------------------------ invariants

  predicate HasSession(b: Binding, harness: string, session: string) {
    b.harness == Some(harness) && b.session == Some(session)
  }

  predicate HasRun(b: Binding, runner: string, session: string) {
    b.runner == Some(runner) && b.session == Some(session)
  }

  /** The two rows would share a host session or a runner session: what the unique indexes forbid. */
  predicate Clash(a: Binding, b: Binding) {
    a.session.Some? && a.session == b.session
    && ((a.harness.Some? && a.harness == b.harness) || (a.runner.Some? && a.runner == b.runner))
  }

  ghost predicate Unique(b: map<Ref, Binding>) {
    forall r, q :: r in b && q in b && r != q ==> !Clash(b[r], b[q])
  }

  predicate GoodHistory(h: seq<Entry>) {
    && |h| <= HISTORY_MAX
    && (forall i :: 0 <= i < |h| ==> h[i].network in NETWORK_VALUES)
    && (forall i, j :: 0 <= i < j < |h| ==> h[i].since < h[j].since)
  }

  /** A host session is named in full or not at all, and only finished sessions are held elsewhere. */
  predicate GoodRow(b: Binding) {
    (b.harness.Some? <==> b.session.Some?) && (b.heldOn.Some? ==> b.endedAt.Some?)
  }

  ghost predicate Sound(t: Tables) {
    && Unique(t.bindings)
    && t.history.Keys <= t.bindings.Keys
    && (forall r :: r in t.history ==> GoodHistory(t.history[r]))
    && (forall r :: r in t.bindings ==> GoodRow(t.bindings[r]))
  }

  // --------------------------------------------------------------- lookups

  ghost function BySession(b: map<Ref, Binding>, harness: string, session: string): (r: Option<Ref>)
    ensures r.Some? ==> r.value in b && HasSession(b[r.value], harness, session)
    ensures r.None? ==> forall q :: q in b ==> !HasSession(b[q], harness, session)
  {
    if exists q :: q in b && HasSession(b[q], harness, session)
    then var q :| q in b && HasSession(b[q], harness, session); Some(q) else None
  }

  ghost function ByRun(b: map<Ref, Binding>, runner: string, session: string): (r: Option<Ref>)
    ensures r.Some? ==> r.value in b && HasRun(b[r.value], runner, session)
    ensures r.None? ==> forall q :: q in b ==> !HasRun(b[q], runner, session)
  {
    if exists q :: q in b && HasRun(b[q], runner, session)
    then var q :| q in b && HasRun(b[q], runner, session); Some(q) else None
  }

  // --------------------------------------------------------------- history

  /** The time of the next entry: now, or just past the last entry when the clock has stepped back. */
  function NextSince(h: seq<Entry>, now: int): int {
    if h == [] then now
    else
      var past := if h[|h| - 1].since >= I64_MAX then I64_MAX else h[|h| - 1].since + 1;
      if now > past then now else past
  }

  datatype NetworkPlan = Unchanged | Append

  function PlanNetwork(h: seq<Entry>, network: string): Result<NetworkPlan, Refusal> {
    if network !in NETWORK_VALUES then Err(InvalidRequest)
    else if h != [] && h[|h| - 1].network == network then Ok(Unchanged)
    else if |h| >= HISTORY_MAX then Err(NetworkHistoryFull)
    else Ok(Append)
  }

  /** The appended history, unless its time is already taken there. */
  function Appended(h: seq<Entry>, s: Stamp): Result<seq<Entry>, Refusal> {
    var since := NextSince(h, s.now);
    if h != [] && since <= h[|h| - 1].since then Err(StorageError) else Ok(h + [Entry(s.network, since)])
  }

  function Recorded(h: seq<Entry>, s: Stamp): Result<seq<Entry>, Refusal> {
    match PlanNetwork(h, s.network)
    case Err(e) => Err(e)
    case Ok(Unchanged) => Ok(h)
    case Ok(Append) => Appended(h, s)
  }

  /** Recording keeps a history good, extends it by at most one entry, and leaves the value in effect. */
  lemma RecordedIsGood(h: seq<Entry>, s: Stamp)
    requires GoodHistory(h) && Recorded(h, s).Ok?
    ensures var next := Recorded(h, s).value;
      && GoodHistory(next) && h <= next && |next| <= |h| + 1
      && next != [] && next[|next| - 1].network == s.network
  {
  }

  // ---------------------------------------------------------- registration

  /** The binding a registration takes over when its host kind changes on the same runner. */
  ghost function HostChange(b: map<Ref, Binding>, q: Request): Option<Ref> {
    if q.runner.None? || BySession(b, q.harness, q.session).Some? || q.ref in b then None
    else
      match ByRun(b, q.runner.value, q.session)
      case Some(r) => if b[r].agent == q.agent && r.kind != q.ref.kind then Some(r) else None
      case None => None
  }

  /** The row this registration continues: its own, the one re-keyed, or the one taken over. */
  ghost function Previous(b: map<Ref, Binding>, q: Request): Ref {
    match HostChange(b, q)
    case Some(r) => r
    case None => match BySession(b, q.harness, q.session) case Some(r) => r case None => q.ref
  }

  ghost function RunnerLeft(b: map<Ref, Binding>, q: Request): Option<string> {
    if q.runner.Some? then q.runner
    else if Previous(b, q) in b then b[Previous(b, q)].runner else None
  }

  /** The refusals that depend on the tables, in the order they are checked. */
  ghost function TableRefusal(t: Tables, q: Request): Option<Refusal> {
    var b := t.bindings;
    var (same, host) := (BySession(b, q.harness, q.session), HostChange(b, q));
    if q.ref in b && b[q.ref].agent != q.agent then Some(RefBoundElsewhere(b[q.ref].agent))
    else if same.Some? && (b[same.value].agent != q.agent || same.value.kind != q.ref.kind) then
      Some(SessionBoundElsewhere(same.value, b[same.value].agent))
    else if same.Some? && same.value != q.ref && q.ref in b then Some(RefBoundElsewhere(b[q.ref].agent))
    else if host.Some? && b[host.value].heldOn.Some? then Some(SessionOnOtherMachine)
    else
      var runner := RunnerLeft(b, q);
      var owner := if runner.Some? then ByRun(b, runner.value, q.session) else None;
      if owner.Some? && owner.value != Previous(b, q) then Some(SessionBoundElsewhere(owner.value, b[owner.value].agent))
      else if q.network.Some? && Recorded(t.HistoryOf(Previous(b, q)), q.network.value).Err? then
        Some(Recorded(t.HistoryOf(Previous(b, q)), q.network.value).error)
      else None
  }

  ghost predicate HeldRemotely(b: map<Ref, Binding>, q: Request) {
    exists r :: r in b && b[r].heldOn.Some? && (r == q.ref || HasSession(b[r], q.harness, q.session))
  }

  /** The row a registration leaves, over the row it continues if there is one. */
  function Upserted(base: Option<Binding>, carried: bool, q: Request): Binding {
    match base
    case None => Binding(q.agent, Some(q.harness), Some(q.session), if q.root.Some? then q.root.value else "", q.who, q.now, q.runner, None, None)
    case Some(b) =>
      Binding(b.agent, Some(q.harness), Some(q.session), if q.root.Some? then q.root.value else b.root,
              if carried then b.who else q.who, q.now, if q.runner.Some? then q.runner else b.runner, None, b.heldOn)
  }

  function Moved<V>(m: map<Ref, V>, from: Ref, to: Ref): map<Ref, V> {
    if from in m && from != to then (m - {from})[to := m[from]] else m
  }

  ghost function RegisteredTables(t: Tables, q: Request): Tables {
    var p := Previous(t.bindings, q);
    var (b, h) := (Moved(t.bindings, p, q.ref), Moved(t.history, p, q.ref));
    var row := Upserted(if q.ref in b then Some(b[q.ref]) else None, p != q.ref, q);
    var past := if q.ref in h then h[q.ref] else [];
    Tables(b[q.ref := row],
           if q.network.Some? && Recorded(past, q.network.value).Ok? && Recorded(past, q.network.value).value != past
           then h[q.ref := Recorded(past, q.network.value).value] else h)
  }

  /** No refusal applies, and neither the row nor its host session is held by another machine. */
  ghost predicate Registrable(t: Tables, q: Request) {
    TableRefusal(t, q).None? && !HeldRemotely(t.bindings, q)
  }

  /** Where a row of the old tables is found after the registration. */
  ghost function Now(t: Tables, q: Request, r: Ref): Ref { if r == Previous(t.bindings, q) then q.ref else r }

  lemma PreviousCases(t: Tables, q: Request)
    requires Registrable(t, q)
    ensures var (b, p) := (t.bindings, Previous(t.bindings, q));
      && (p != q.ref ==> p in b && q.ref !in b)
      && (p in b ==> b[p].agent == q.agent && b[p].heldOn.None?)
      && (forall r :: r in b && HasSession(b[r], q.harness, q.session) ==> p in b && HasSession(b[p], q.harness, q.session))
  {
  }

  lemma NoClashAfter(t: Tables, q: Request, r: Ref)
    requires Sound(t) && Registrable(t, q) && r in t.bindings && r != Previous(t.bindings, q)
    ensures r != q.ref && !Clash(t.bindings[r], RegisteredTables(t, q).bindings[q.ref])
  {
    hide Previous, HostChange, GoodHistory, Recorded;
    PreviousCases(t, q);
    var (b, p) := (t.bindings, Previous(t.bindings, q));
    var row := RegisteredTables(t, q).bindings[q.ref];
    assert p in b ==> !Clash(b[r], b[p]);
    assert row.runner == RunnerLeft(b, q);
  }

  lemma RegisteredBindings(t: Tables, q: Request)
    requires Sound(t) && Registrable(t, q)
    ensures var (b, p, next) := (t.bindings, Previous(t.bindings, q), RegisteredTables(t, q).bindings);
      && next.Keys == b.Keys - {p} + {q.ref}
      && (forall r :: r in b && r != p ==> r != q.ref && next[r] == b[r])
      && HasSession(next[q.ref], q.harness, q.session) && GoodRow(next[q.ref]) && next[q.ref].agent == q.agent
      && next[q.ref].endedAt.None? && next[q.ref].heldOn.None?
  {
    hide Previous, Recorded, GoodHistory;
    PreviousCases(t, q);
  }

  lemma RegisteredHistory(t: Tables, q: Request)
    requires Sound(t) && Registrable(t, q)
    ensures var (p, next) := (Previous(t.bindings, q), RegisteredTables(t, q));
      && next.history.Keys <= t.history.Keys - {p} + {q.ref}
      && (forall r :: r in t.history && r != p ==> r != q.ref && r in next.history && next.history[r] == t.history[r])
      && t.HistoryOf(p) <= next.HistoryOf(q.ref) && GoodHistory(next.HistoryOf(q.ref))
      && |next.HistoryOf(q.ref)| <= |t.HistoryOf(p)| + 1
  {
    hide Previous, Recorded, GoodHistory, Unique, TableRefusal;
    PreviousCases(t, q);
    var p := Previous(t.bindings, q);
    assert GoodHistory([]) by { EmptyIsGood(); }
    if q.network.Some? && Recorded(t.HistoryOf(p), q.network.value).Ok? {
      RecordedIsGood(t.HistoryOf(p), q.network.value);
    }
  }

  lemma EmptyIsGood()
    ensures GoodHistory([])
  {
  }

  /**
   * A registration keeps the tables sound: the unique indexes never have
   * anything to refuse, and every history still names a binding.
   */
  lemma RegisterSound(t: Tables, q: Request)
    requires Sound(t) && Registrable(t, q)
    ensures Sound(RegisteredTables(t, q))
  {
    hide Previous, RegisteredTables, TableRefusal, GoodHistory, GoodRow, Clash;
    RegisteredBindings(t, q);
    RegisteredHistory(t, q);
    var (b, next) := (t.bindings, RegisteredTables(t, q));
    forall r, s | r in next.bindings && s in next.bindings && r != s ensures !Clash(next.bindings[r], next.bindings[s]) {
      if r == q.ref { NoClashAfter(t, q, s); ClashSymmetric(next.bindings[r], next.bindings[s]); }
      else if s == q.ref { NoClashAfter(t, q, r); }
    }
    forall r | r in next.history ensures GoodHistory(next.history[r]) {
      if r == q.ref { assert next.HistoryOf(r) == next.history[r]; }
    }
  }

  lemma ClashSymmetric(a: Binding, b: Binding)
    ensures Clash(a, b) <==> Clash(b, a)
  {
  }

  /**
   * Re-keying and host changes carry everything: each earlier binding is still
   * there, perhaps under its new reference, for the same agent, with its whole
   * history; and all but the one registered are untouched.
   */
  lemma RegisterCarries(t: Tables, q: Request, r: Ref)
    requires Sound(t) && Registrable(t, q) && r in t.bindings
    ensures var (next, n) := (RegisteredTables(t, q), Now(t, q, r));
      && n in next.bindings && next.bindings[n].agent == t.bindings[r].agent
      && t.HistoryOf(r) <= next.HistoryOf(n)
      && (n != q.ref ==> n == r && next.bindings[r] == t.bindings[r] && next.HistoryOf(r) == t.HistoryOf(r))
  {
    hide Previous, RegisteredTables, TableRefusal, GoodHistory, Unique;
    RegisteredBindings(t, q);
    RegisteredHistory(t, q);
    PreviousCases(t, q);
  }

  /** Nothing else appears: every later binding was there before, or is the one registered. */
  lemma RegisterAddsOne(t: Tables, q: Request, n: Ref)
    requires Sound(t) && Registrable(t, q) && n in RegisteredTables(t, q).bindings && n != q.ref
    ensures n in t.bindings && n != Previous(t.bindings, q)
  {
    hide Previous, RegisteredTables, TableRefusal;
    RegisteredBindings(t, q);
  }

  // ------------------------------------------------- ending, pruning, network

  /** End the session of this row, filling a missing runner only when nothing else holds it. */
  ghost function EndRefusal(b: map<Ref, Binding>, r: Ref, runner: Option<string>): Option<Refusal>
    requires r in b
  {
    if b[r].runner.Some? && runner.Some? && b[r].runner != runner then Some(RunnerMismatch(b[r].runner.value)) else None
  }

  ghost function EndedRow(b: map<Ref, Binding>, r: Ref, session: string, runner: Option<string>, now: int): Binding
    requires r in b
  {
    var fill := if runner.Some? && b[r].runner.None? && ByRun(b, runner.value, session).Some? then None else runner;
    b[r].(endedAt := Some(now), runner := if b[r].runner.Some? then b[r].runner else fill)
  }

  lemma EndSound(t: Tables, r: Ref, harness: string, session: string, runner: Option<string>, now: int)
    requires Sound(t) && r in t.bindings && HasSession(t.bindings[r], harness, session)
    ensures Sound(Tables(t.bindings[r := EndedRow(t.bindings, r, session, runner, now)], t.history))
  {
    hide GoodHistory;
    var row := EndedRow(t.bindings, r, session, runner, now);
    forall q | q in t.bindings && q != r ensures !Clash(t.bindings[q], row) && !Clash(row, t.bindings[q]) {
      assert !Clash(t.bindings[q], t.bindings[r]);
    }
  }

  /** A row that changes nothing but its end keeps the tables sound. */
  lemma StampSound(t: Tables, r: Ref, ended: Option<int>)
    requires Sound(t) && r in t.bindings && (t.bindings[r].heldOn.Some? ==> ended.Some?)
    ensures Sound(Tables(t.bindings[r := t.bindings[r].(endedAt := ended)], t.history))
  {
    hide GoodHistory;
    var row := t.bindings[r].(endedAt := ended);
    forall q | q in t.bindings && q != r ensures !Clash(t.bindings[q], row) && !Clash(row, t.bindings[q]) {
      assert !Clash(t.bindings[q], t.bindings[r]);
    }
  }

  /** Deleting a binding deletes its history with it. */
  function Deleted(t: Tables, gone: set<Ref>): Tables { Tables(t.bindings - gone, t.history - gone) }

  lemma DeleteSound(t: Tables, gone: set<Ref>)
    requires Sound(t)
    ensures Sound(Deleted(t, gone))
  {
    hide GoodHistory, Clash;
  }

  lemma NetworkSound(t: Tables, r: Ref, s: Stamp)
    requires Sound(t) && r in t.bindings && Recorded(t.HistoryOf(r), s).Ok?
    ensures Sound(Tables(t.bindings, t.history[r := Recorded(t.HistoryOf(r), s).value]))
  {
    hide GoodHistory, Clash, Recorded;
    EmptyIsGood();
    RecordedIsGood(t.HistoryOf(r), s);
  }

  // ---------------------------------------------------------- installation

  /** One binding as carried between machines. */
  datatype Carried = Carried(ref: Ref, row: Binding, history: seq<Entry>)

  /** The reserved kinds name whole-agent data, never a host session. */
  predicate IsBindingKind(kind: string) {
    kind != "agent" && kind != "package-closure" && kind != "session-bindings"
  }

  /** The fields and history of a carried row meet the store's constraints. */
  predicate Checked(c: Carried) {
    && c.ref.kind != "" && c.ref.id != "" && IsBindingKind(c.ref.kind)
    && c.row.who in {"orchestrator", "host", "move"}
    && GoodRow(c.row) && c.row.heldOn != Some("")
    && GoodHistory(c.history)
  }

  ghost predicate Collides(b: map<Ref, Binding>, row: Binding) {
    exists q :: q in b && Clash(b[q], row)
  }

  /** A moved-in reference with no host session, runner or end yet. */
  function Placeholder(agent: string, at: int): Binding {
    Binding(agent, None, None, "", "move", at, None, None, None)
  }

  function InstalledRow(c: Carried, agent: string, origin: Option<string>): Binding {
    c.row.(agent := agent, heldOn := if c.row.heldOn.Some? && c.row.heldOn == origin then None else c.row.heldOn)
  }

  function WithHistory(h: map<Ref, seq<Entry>>, r: Ref, entries: seq<Entry>): map<Ref, seq<Entry>> {
    if entries == [] then h else h[r := entries]
  }

  /** Install one reference: a local row wins, a clash leaves a placeholder, otherwise the row as carried. */
  ghost function InstallOne(t: Tables, agent: string, at: int, origin: Option<string>, r: Ref, carried: map<Ref, Carried>): Tables {
    if r in t.bindings then t
    else if r !in carried then Tables(t.bindings[r := Placeholder(agent, at)], t.history)
    else
      var c := carried[r];
      if Collides(t.bindings, c.row) then
        if c.row.heldOn.Some? then t
        else Tables(t.bindings[r := Placeholder(agent, at)], WithHistory(t.history, r, c.history))
      else Tables(t.bindings[r := InstalledRow(c, agent, origin)], WithHistory(t.history, r, c.history))
  }

  ghost function InstallAll(t: Tables, agent: string, at: int, origin: Option<string>, refs: seq<Ref>, carried: map<Ref, Carried>): Tables {
    if refs == [] then t
    else InstallOne(InstallAll(t, agent, at, origin, refs[..|refs| - 1], carried), agent, at, origin, refs[|refs| - 1], carried)
  }

  ghost predicate CarriedWell(carried: map<Ref, Carried>) {
    forall r :: r in carried ==> carried[r].ref == r && Checked(carried[r])
  }

  /** Local rows and histories are left exactly as they were. */
  ghost predicate LocalKept(before: Tables, after: Tables) {
    forall r :: r in before.bindings ==>
      r in after.bindings && after.bindings[r] == before.bindings[r] && after.HistoryOf(r) == before.HistoryOf(r)
  }

  lemma AddRowSound(t: Tables, r: Ref, row: Binding, entries: seq<Entry>)
    requires Sound(t) && r !in t.bindings && !Collides(t.bindings, row) && GoodRow(row) && GoodHistory(entries)
    ensures var next := Tables(t.bindings[r := row], WithHistory(t.history, r, entries)); Sound(next) && LocalKept(t, next)
  {
    hide GoodHistory, Clash, GoodRow;
    forall q | q in t.bindings ensures !Clash(t.bindings[q], row) && !Clash(row, t.bindings[q]) {
      ClashSymmetric(row, t.bindings[q]);
    }
  }

  lemma PlaceholderAdds(b: map<Ref, Binding>, agent: string, at: int)
    ensures GoodRow(Placeholder(agent, at)) && !Collides(b, Placeholder(agent, at))
  {
  }

  lemma InstallOneSound(t: Tables, agent: string, at: int, origin: Option<string>, r: Ref, carried: map<Ref, Carried>)
    requires Sound(t) && CarriedWell(carried)
    ensures var next := InstallOne(t, agent, at, origin, r, carried);
      && Sound(next) && LocalKept(t, next) && next.bindings.Keys <= t.bindings.Keys + {r}
      && (r !in t.bindings && r in next.bindings ==> next.bindings[r].agent == agent)
  {
    hide GoodHistory, Sound, Collides, GoodRow;
    EmptyIsGood();
    PlaceholderAdds(t.bindings, agent, at);
    if r !in t.bindings {
      if r !in carried {
        AddRowSound(t, r, Placeholder(agent, at), []);
      } else {
        var c := carried[r];
        AddRowSound(t, r, Placeholder(agent, at), c.history);
        if !Collides(t.bindings, c.row) {
          InstalledClashes(t.bindings, c, agent, origin);
          AddRowSound(t, r, InstalledRow(c, agent, origin), c.history);
        }
      }
    }
  }

  lemma InstalledClashes(b: map<Ref, Binding>, c: Carried, agent: string, origin: Option<string>)
    requires Checked(c)
    ensures Collides(b, InstalledRow(c, agent, origin)) <==> Collides(b, c.row)
    ensures GoodRow(InstalledRow(c, agent, origin))
  {
    hide GoodHistory;
    assert forall q :: q in b ==> (Clash(b[q], InstalledRow(c, agent, origin)) <==> Clash(b[q], c.row));
  }

  /** Installation keeps the tables sound, never touches a local row, and adds rows only for its own agent. */
  lemma {:induction false} InstallSound(t: Tables, agent: string, at: int, origin: Option<string>, refs: seq<Ref>, carried: map<Ref, Carried>)
    requires Sound(t) && CarriedWell(carried)
    ensures var next := InstallAll(t, agent, at, origin, refs, carried);
      && Sound(next) && LocalKept(t, next)
      && (forall r :: r in next.bindings ==> r in t.bindings || (r in refs && next.bindings[r].agent == agent))
  {
    hide Sound, CarriedWell, InstallOne;
    if refs != [] {
      var (front, last) := (refs[..|refs| - 1], refs[|refs| - 1]);
      var before := InstallAll(t, agent, at, origin, front, carried);
      InstallSound(t, agent, at, origin, front, carried);
      InstallOneSound(before, agent, at, origin, last, carried);
      assert refs == front + [last];
    }
  }
}
