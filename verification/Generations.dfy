/** Package generations of an agent, and the statuses that degrade them. */
module Generations {
  import opened Prelude
  import opened Catalog

  datatype Phase = Approved | Installed | Ready | Active | Degraded | Superseded

  datatype Pin = Pin(name: string, version: string, kind: Kind)

  /** Why a generation was degraded, or what its consumers reported. */
  datatype Fault = Reported(text: string) | PinnedTombstoned(pin: Pin) | PinnedRevoked(pin: Pin)

  datatype Generation = Generation(
    agent: string, plan: string, phase: Phase, closure: seq<Pin>, createdAt: int, activatedAt: Option<int>, error: Option<Fault>)

  type Version = (string, string)

  /** A status as stored: its sequence number and signed text, and what blocking looks at. */
  datatype StatusRow = StatusRow(sequence: nat, text: string, state: State, publishedAt: Option<int>, compromiseFrom: int)

  /** A plan remembers the agent's pins it starts from and the statuses of its closure when it was made. */
  datatype Plan = Plan(agent: string, ready: bool, closure: Option<seq<Pin>>, base: seq<Pin>, statuses: Snapshot)

  type Snapshot = map<string, Option<StatusRow>>

  datatype StepName = ToReady | ToActive | ToDegraded

  datatype Kept = ApproveStep | GenerationStep(step: StepName)

  datatype Args = ApproveArgs(plan: string, caller: string) | StepArgs(error: Option<string>)

  datatype Saved = Saved(args: Args, result: Generation)

  datatype Db = Db(
    generations: map<string, Generation>, saved: map<(string, Kept), Saved>, statuses: map<Version, StatusRow>,
    live: set<string>, plans: map<string, Plan>, pinned: map<string, seq<Pin>>)

  datatype Refusal =
    | StoreError | CallerForbidden | ActivationBlocked | RequestKeyConflict | AgentGone | InvalidTransition | PlanStale

  type Outcome = Result<Generation, Refusal>

  // ---------------------------------------------------------------- blocking

  /** Tombstoned blocks; revoked blocks unless published strictly before the compromise. */
  predicate Blocks(s: StatusRow) {
    s.state == Tombstoned || (s.state == Revoked && (s.publishedAt.None? || s.publishedAt.value >= s.compromiseFrom))
  }

  predicate PinBlocked(statuses: map<Version, StatusRow>, p: Pin) {
    (p.name, p.version) in statuses && Blocks(statuses[(p.name, p.version)])
  }

  function FirstBlocked(statuses: map<Version, StatusRow>, pins: seq<Pin>): (r: Option<Pin>)
    ensures r.None? <==> forall p :: p in pins ==> !PinBlocked(statuses, p)
    ensures r.Some? ==> r.value in pins && PinBlocked(statuses, r.value)
  {
    if pins == [] then None
    else if PinBlocked(statuses, pins[0]) then Some(pins[0])
    else
      assert pins == [pins[0]] + pins[1..];
      FirstBlocked(statuses, pins[1..])
  }

  function Skills(pins: seq<Pin>): (out: seq<Pin>)
    ensures forall p :: p in out <==> p in pins && p.kind == Skill
  {
    if pins == [] then []
    else
      assert pins == [pins[0]] + pins[1..];
      (if pins[0].kind == Skill then [pins[0]] else []) + Skills(pins[1..])
  }

  predicate Current(g: Generation) { g.phase == Active || g.phase == Degraded }

  /** A generation after statuses were written: a current one with a blocked skill is degraded. */
  function Affected(g: Generation, statuses: map<Version, StatusRow>): Generation {
    var blocked := FirstBlocked(statuses, Skills(g.closure));
    if !Current(g) || blocked.None? then g
    else
      var v := (blocked.value.name, blocked.value.version);
      g.(phase := Degraded,
         error := Some(if statuses[v].state == Tombstoned then PinnedTombstoned(blocked.value) else PinnedRevoked(blocked.value)))
  }

  // ------------------------------------------------------------- transactions

  function WithStatuses(m: map<Version, StatusRow>, rows: seq<(Version, StatusRow)>): map<Version, StatusRow> {
    if rows == [] then m else WithStatuses(m, rows[..|rows| - 1])[rows[|rows| - 1].0 := rows[|rows| - 1].1]
  }

  /** Write statuses and degrade what they block, in one transaction. */
  function StatusesWritten(db: Db, rows: seq<(Version, StatusRow)>): Db {
    if rows == [] then db
    else
      var statuses := WithStatuses(db.statuses, rows);
      db.(statuses := statuses, generations := map id | id in db.generations :: Affected(db.generations[id], statuses))
  }

  /** The current generation of the agent, active or degraded, is superseded. */
  function Superseding(m: map<string, Generation>, agent: string): map<string, Generation> {
    map id | id in m :: if m[id].agent == agent && Current(m[id]) then m[id].(phase := Superseded) else m[id]
  }

  predicate Allowed(step: StepName, phase: Phase) {
    match step
    case ToReady => phase == Approved || phase == Installed
    case ToActive => phase == Ready
    case ToDegraded => phase == Active
  }

  function Reached(step: StepName): Phase {
    match step case ToReady => Ready case ToActive => Active case ToDegraded => Degraded
  }

  function Stepped(g: Generation, step: StepName, error: Option<string>, now: int): Generation {
    g.(phase := Reached(step), error := if error.Some? then Some(Reported(error.value)) else None,
       activatedAt := if step == ToActive then Some(now) else g.activatedAt)
  }

  /** The first answer to a step is kept and given again; anything else under the same key is a conflict. */
  function Remembered(db: Db, id: string, kept: Kept, args: Args): Option<Outcome> {
    if (id, kept) !in db.saved then None
    else if db.saved[(id, kept)].args != args then Some(Err(RequestKeyConflict))
    else Some(Ok(db.saved[(id, kept)].result))
  }

  function StepTaken(db: Db, id: string, caller: string, step: StepName, error: Option<string>, now: int): (Db, Outcome) {
    if id !in db.generations then (db, Err(StoreError))
    else
      var g := db.generations[id];
      if g.agent != caller then (db, Err(CallerForbidden))
      else if step == ToActive && FirstBlocked(db.statuses, g.closure).Some? then (db, Err(ActivationBlocked))
      else if Remembered(db, id, GenerationStep(step), StepArgs(error)).Some? then
        (db, Remembered(db, id, GenerationStep(step), StepArgs(error)).value)
      else if g.agent !in db.live then (db, Err(AgentGone))
      else if !Allowed(step, g.phase) then (db, Err(InvalidTransition))
      else
        var rows := if step == ToActive then Superseding(db.generations, g.agent) else db.generations;
        var next := Stepped(g, step, error, now);
        (db.(generations := rows[id := next], saved := db.saved[(id, GenerationStep(step)) := Saved(StepArgs(error), next)]), Ok(next))
  }

  predicate PlanTaken(db: Db, plan: string) { exists id :: id in db.generations && db.generations[id].plan == plan }

  function NewGeneration(agent: string, plan: string, closure: seq<Pin>, now: int): Generation {
    Generation(agent, plan, Approved, closure, now, None, None)
  }

  function StatusOf(statuses: map<Version, StatusRow>, p: Pin): Option<StatusRow> {
    if (p.name, p.version) in statuses then Some(statuses[(p.name, p.version)]) else None
  }

  /** The statuses of these pins, by package name. */
  function SnapshotOf(statuses: map<Version, StatusRow>, pins: seq<Pin>): Snapshot {
    if pins == [] then map[]
    else SnapshotOf(statuses, pins[..|pins| - 1])[pins[|pins| - 1].name := StatusOf(statuses, pins[|pins| - 1])]
  }

  function PinsOf(db: Db, agent: string): seq<Pin> { if agent in db.pinned then db.pinned[agent] else [] }

  /** Pins and statuses are still those the plan was made over. */
  predicate StillFresh(db: Db, p: Plan)
    requires p.closure.Some?
  {
    PinsOf(db, p.agent) == p.base && SnapshotOf(db.statuses, p.closure.value) == p.statuses
  }

  lemma {:induction false} SnapshotNames(statuses: map<Version, StatusRow>, pins: seq<Pin>)
    ensures forall n :: n in SnapshotOf(statuses, pins) ==> exists p :: p in pins && p.name == n
  {
    hide StatusOf;
    if pins != [] {
      SnapshotNames(statuses, pins[..|pins| - 1]);
      assert pins[|pins| - 1] in pins;
    }
  }

  lemma SameUpdated<K, V>(a: map<K, V>, b: map<K, V>, k: K, v: V, w: V)
    requires k !in a && k !in b
    ensures a[k := v] == b[k := w] <==> a == b && v == w
  {
    assert a == a[k := v] - {k} && b == b[k := w] - {k};
    if a[k := v] == b[k := w] { assert a[k := v][k] == b[k := w][k]; }
  }

  /** Two snapshots of pins with distinct names are the same exactly when every pin has the same status in both. */
  lemma {:induction false} SameSnapshot(a: map<Version, StatusRow>, b: map<Version, StatusRow>, pins: seq<Pin>)
    requires forall i, j :: 0 <= i < j < |pins| ==> pins[i].name != pins[j].name
    ensures SnapshotOf(a, pins) == SnapshotOf(b, pins) <==> forall p :: p in pins ==> StatusOf(a, p) == StatusOf(b, p)
  {
    hide StatusOf;
    if pins != [] {
      var (front, last) := (pins[..|pins| - 1], pins[|pins| - 1]);
      assert pins == front + [last];
      SameSnapshot(a, b, front);
      SnapshotNames(a, front);
      SnapshotNames(b, front);
      SameUpdated(SnapshotOf(a, front), SnapshotOf(b, front), last.name, StatusOf(a, last), StatusOf(b, last));
    }
  }

  /**
   * A plan over distinct packages goes stale exactly when the agent's pins
   * changed or the status of some version in its closure did.
   */
  lemma FreshMeans(db: Db, p: Plan, then_: Db)
    requires p.closure.Some? && p.base == PinsOf(then_, p.agent) && p.statuses == SnapshotOf(then_.statuses, p.closure.value)
    requires forall i, j :: 0 <= i < j < |p.closure.value| ==> p.closure.value[i].name != p.closure.value[j].name
    ensures StillFresh(db, p) <==>
      && (if p.agent in db.pinned then db.pinned[p.agent] else []) == (if p.agent in then_.pinned then then_.pinned[p.agent] else [])
      && forall q :: q in p.closure.value ==> SameStatus(db.statuses, then_.statuses, (q.name, q.version))
  {
    hide SnapshotOf;
    SameSnapshot(db.statuses, then_.statuses, p.closure.value);
    assert forall q :: StatusOf(db.statuses, q) == StatusOf(then_.statuses, q) <==> SameStatus(db.statuses, then_.statuses, (q.name, q.version));
  }

  /** The version has the same row in both tables, or none in either. */
  ghost predicate SameStatus(a: map<Version, StatusRow>, b: map<Version, StatusRow>, v: Version) {
    (v in a <==> v in b) && (v in a && v in b ==> a[v] == b[v])
  }

  /** Approve a ready plan that is still fresh. */
  function PlanApproved(db: Db, plan: string, caller: string, id: string, now: int): (Db, Outcome) {
    if plan !in db.plans then (db, Err(StoreError))
    else
      var p := db.plans[plan];
      if p.agent != caller then (db, Err(CallerForbidden))
      else if Remembered(db, id, ApproveStep, ApproveArgs(plan, caller)).Some? then (db, Remembered(db, id, ApproveStep, ApproveArgs(plan, caller)).value)
      else if p.agent !in db.live then (db, Err(AgentGone))
      else if !p.ready || p.closure.None? then (db, Err(InvalidTransition))
      else if !StillFresh(db, p) then (db, Err(PlanStale))
      else if PlanTaken(db, plan) || id == "" then (db, Err(RequestKeyConflict))
      else if id in db.generations then (db, Err(StoreError))
      else
        var g := NewGeneration(p.agent, plan, p.closure.value, now);
        (db.(generations := db.generations[id := g], saved := db.saved[(id, ApproveStep) := Saved(ApproveArgs(plan, caller), g)]), Ok(g))
  }

  function InstallId(plan: string): string { "generation:" + plan }

  /** An authorized install inserts its generation under an id of its own, if neither it nor the plan is taken. */
  function InstallWritten(db: Db, plan: string, agent: string, closure: seq<Pin>, now: int): (Db, Outcome) {
    if InstallId(plan) in db.generations || PlanTaken(db, plan) then (db, Err(StoreError))
    else
      var g := NewGeneration(agent, plan, closure, now);
      (db.(generations := db.generations[InstallId(plan) := g]), Ok(g))
  }

  function MoveGeneration(cut: string): string { "generation:move:" + cut }

  function Discarded(db: Db, cut: string, agent: string): Db {
    var id := MoveGeneration(cut);
    if id in db.generations && db.generations[id].agent == agent && db.generations[id].phase in {Approved, Installed, Ready}
    then db.(generations := db.generations - {id}) else db
  }

  function PrefetchFailed(db: Db, id: string, caller: string, error: string): Db {
    if id in db.generations && db.generations[id].agent == caller && db.generations[id].phase in {Approved, Installed}
    then db.(generations := db.generations[id := db.generations[id].(error := Some(Reported(error)))]) else db
  }

  // ------------------------------------------------------------------- runs

  datatype Event =
    | Approve(plan: string, caller: string, id: string, now: int)
    | Install(plan: string, agent: string, closure: seq<Pin>, now: int)
    | Step(id: string, caller: string, step: StepName, error: Option<string>, now: int)
    | Discard(cut: string, agent: string)
    | PrefetchError(id: string, caller: string, text: string)
    | WriteStatuses(rows: seq<(Version, StatusRow)>)
    | Elsewhere(live: set<string>, plans: map<string, Plan>, pinned: map<string, seq<Pin>>)

  function After(db: Db, e: Event): Db {
    match e
    case Approve(plan, caller, id, now) => PlanApproved(db, plan, caller, id, now).0
    case Install(plan, agent, closure, now) => InstallWritten(db, plan, agent, closure, now).0
    case Step(id, caller, step, error, now) => StepTaken(db, id, caller, step, error, now).0
    case Discard(cut, agent) => Discarded(db, cut, agent)
    case PrefetchError(id, caller, text) => PrefetchFailed(db, id, caller, text)
    case WriteStatuses(rows) => StatusesWritten(db, rows)
    case Elsewhere(live, plans, pinned) => db.(live := live, plans := plans, pinned := pinned)
  }

  function Run(db: Db, events: seq<Event>): Db {
    if events == [] then db else After(Run(db, events[..|events| - 1]), events[|events| - 1])
  }

  /** One more transaction: a run goes on from where it was. */
  lemma RunGoesOn(db: Db, events: seq<Event>, e: Event)
    ensures Run(db, []) == db && Run(db, events + [e]) == After(Run(db, events), e)
  {
    hide After;
    assert (events + [e])[..|events + [e]| - 1] == events;
  }

  ghost predicate OneCurrent(m: map<string, Generation>) {
    forall a, b :: a in m && b in m && a != b && Current(m[a]) && Current(m[b]) ==> m[a].agent != m[b].agent
  }

  /** No active generation holds a skill whose status blocks. */
  ghost predicate NoneBlocked(db: Db) {
    forall id :: id in db.generations && db.generations[id].phase == Active ==> SkillsClear(db.statuses, db.generations[id].closure)
  }

  ghost predicate SkillsClear(statuses: map<Version, StatusRow>, closure: seq<Pin>) {
    forall p :: p in closure && p.kind == Skill ==> !PinBlocked(statuses, p)
  }

  ghost predicate Inv(db: Db) { OneCurrent(db.generations) && NoneBlocked(db) }

  lemma AffectedMeans(g: Generation, statuses: map<Version, StatusRow>)
    ensures var n := Affected(g, statuses);
      && n.agent == g.agent && n.closure == g.closure && (Current(n) <==> Current(g))
      && (n.phase == Active ==> SkillsClear(statuses, n.closure))
      && (g.phase == Superseded ==> n == g)
  {
  }

  lemma OnlyCurrentAffected(m: map<string, Generation>, statuses: map<Version, StatusRow>)
    ensures forall id :: id in m && !Current(m[id]) ==> Affected(m[id], statuses) == m[id]
  {
  }

  lemma StatusesKeep(db: Db, rows: seq<(Version, StatusRow)>)
    requires Inv(db)
    ensures Inv(StatusesWritten(db, rows))
  {
    hide Affected, WithStatuses, SkillsClear, Current;
    if rows != [] {
      var statuses := WithStatuses(db.statuses, rows);
      forall id | id in db.generations {
        AffectedMeans(db.generations[id], statuses);
      }
    }
  }

  /** The agent's current generation gives way before another may become active. */
  lemma SupersedingMeans(m: map<string, Generation>, agent: string)
    requires OneCurrent(m)
    ensures var n := Superseding(m, agent);
      && n.Keys == m.Keys && OneCurrent(n) && (forall id :: id in n && Current(n[id]) ==> n[id].agent != agent && n[id] == m[id])
  {
  }

  lemma WriteCurrent(m: map<string, Generation>, id: string, g: Generation)
    requires OneCurrent(m) && id in m
    requires Current(g) ==> forall other :: other in m && other != id && Current(m[other]) ==> m[other].agent != g.agent
    ensures OneCurrent(m[id := g])
  {
    hide Current;
  }

  lemma WriteClear(db: Db, rows: map<string, Generation>, id: string, g: Generation)
    requires NoneBlocked(db) && id in rows && (g.phase == Active ==> SkillsClear(db.statuses, g.closure))
    requires forall other :: other in rows && rows[other].phase == Active ==> other in db.generations && rows[other] == db.generations[other]
    ensures NoneBlocked(db.(generations := rows[id := g]))
  {
    hide SkillsClear;
  }

  lemma StepKeeps(db: Db, id: string, caller: string, step: StepName, error: Option<string>, now: int)
    requires Inv(db)
    ensures Inv(StepTaken(db, id, caller, step, error, now).0)
  {
    hide Remembered, SkillsClear, OneCurrent, NoneBlocked, Superseding, FirstBlocked;
    if StepTaken(db, id, caller, step, error, now).0 != db {
      var g := db.generations[id];
      var rows := if step == ToActive then Superseding(db.generations, g.agent) else db.generations;
      var next := Stepped(g, step, error, now);
      SupersedingMeans(db.generations, g.agent);
      if step == ToActive { ClearClosure(db.statuses, g.closure); }
      if step == ToDegraded { OthersApart(db.generations, id); }
      WriteCurrent(rows, id, next);
      WriteClear(db, rows, id, next);
      SavedAside(db.(generations := rows[id := next]), StepTaken(db, id, caller, step, error, now).0);
    }
  }

  lemma OthersApart(m: map<string, Generation>, id: string)
    requires OneCurrent(m) && id in m && Current(m[id])
    ensures forall other :: other in m && other != id && Current(m[other]) ==> m[other].agent != m[id].agent
  {
    hide Current;
  }

  lemma SavedAside(a: Db, b: Db)
    requires NoneBlocked(a) && b.generations == a.generations && b.statuses == a.statuses
    ensures NoneBlocked(b)
  {
    hide SkillsClear;
  }

  lemma ClearClosure(statuses: map<Version, StatusRow>, closure: seq<Pin>)
    requires FirstBlocked(statuses, closure).None?
    ensures SkillsClear(statuses, closure)
  {
  }

  lemma AfterKeeps(db: Db, e: Event)
    requires Inv(db)
    ensures Inv(After(db, e))
  {
    hide StatusesWritten, StepTaken, SkillsClear, Remembered, PlanTaken, InstallId, MoveGeneration;
    match e {
      case Step(id, caller, step, error, now) => StepKeeps(db, id, caller, step, error, now);
      case WriteStatuses(rows) => StatusesKeep(db, rows);
      case _ =>
    }
  }

  /**
   * In every reachable state an agent has at most one generation that is
   * active or degraded, and no active one holds a blocked skill.
   */
  lemma {:induction false} RunKeeps(db: Db, events: seq<Event>)
    requires Inv(db)
    ensures Inv(Run(db, events))
  {
    hide Inv, After;
    if events != [] {
      RunKeeps(db, events[..|events| - 1]);
      AfterKeeps(Run(db, events[..|events| - 1]), events[|events| - 1]);
    }
  }

  lemma SupersededStep(db: Db, e: Event, id: string)
    requires id in db.generations && db.generations[id].phase == Superseded
    ensures id in After(db, e).generations && After(db, e).generations[id] == db.generations[id]
  {
    hide WithStatuses, Remembered, PlanTaken, InstallId, MoveGeneration, FirstBlocked, Skills;
    AffectedMeans(db.generations[id], After(db, e).statuses);
  }

  /** A superseded generation stays exactly as it is. */
  lemma {:induction false} SupersededForGood(db: Db, events: seq<Event>, id: string)
    requires id in db.generations && db.generations[id].phase == Superseded
    ensures id in Run(db, events).generations && Run(db, events).generations[id] == db.generations[id]
  {
    hide After;
    if events != [] {
      SupersededForGood(db, events[..|events| - 1], id);
      SupersededStep(Run(db, events[..|events| - 1]), events[|events| - 1], id);
    }
  }

  // -------------------------------------------------------------- repeating

  lemma {:induction false} SavedStays(db: Db, events: seq<Event>, key: (string, Kept))
    requires key in db.saved
    ensures key in Run(db, events).saved && Run(db, events).saved[key] == db.saved[key]
  {
    if events != [] {
      SavedStays(db, events[..|events| - 1], key);
      SavedStep(Run(db, events[..|events| - 1]), events[|events| - 1], key);
    }
  }

  lemma SavedStep(db: Db, e: Event, key: (string, Kept))
    requires key in db.saved
    ensures key in After(db, e).saved && After(db, e).saved[key] == db.saved[key]
  {
    hide WithStatuses, Affected, FirstBlocked, PlanTaken, Superseding, Stepped, InstallId, MoveGeneration;
  }

  /**
   * Repeating a step later, whatever happened in between, writes nothing, and
   * gives the first answer again exactly while the generation is still the
   * caller's and, for an activation, nothing it pins has become blocked: that
   * check comes before the remembered answer.
   */
  lemma RepeatedStep(db: Db, id: string, caller: string, step: StepName, error: Option<string>, now: int, events: seq<Event>, again: int)
    requires StepTaken(db, id, caller, step, error, now).1.Ok?
    ensures var (then_, first) := StepTaken(db, id, caller, step, error, now);
      var later := Run(then_, events);
      var (after, answer) := StepTaken(later, id, caller, step, error, again);
      && after == later
      && (answer == first <==>
          && id in later.generations && later.generations[id].agent == caller
          && (step == ToActive ==> FirstBlocked(later.statuses, later.generations[id].closure).None?))
  {
    hide Run, FirstBlocked, Superseding, Stepped, Allowed;
    var then_ := StepTaken(db, id, caller, step, error, now).0;
    SavedStays(then_, events, (id, GenerationStep(step)));
  }

  /**
   * Repeating an approval later writes nothing either, and gives the first
   * answer again exactly while the plan is still there and the caller's: no
   * other check comes before the remembered answer.
   */
  lemma RepeatedApproval(db: Db, plan: string, caller: string, id: string, now: int, events: seq<Event>, again: int)
    requires PlanApproved(db, plan, caller, id, now).1.Ok?
    ensures var (then_, first) := PlanApproved(db, plan, caller, id, now);
      var later := Run(then_, events);
      var (after, answer) := PlanApproved(later, plan, caller, id, again);
      && after == later
      && (answer == first <==> plan in later.plans && later.plans[plan].agent == caller)
  {
    hide Run, PlanTaken;
    SavedStays(PlanApproved(db, plan, caller, id, now).0, events, (id, ApproveStep));
  }

  /** The exception is real: after a tombstone, repeating a successful activation is refused. */
  lemma RepeatedActivationRefused(db: Db, id: string, caller: string, now: int, pin: Pin, row: StatusRow)
    requires row.state == Tombstoned
    requires StepTaken(db, id, caller, ToActive, None, now).1.Ok? && pin in db.generations[id].closure
    ensures var then_ := StepTaken(db, id, caller, ToActive, None, now).0;
      var later := After(then_, WriteStatuses([((pin.name, pin.version), row)]));
      StepTaken(later, id, caller, ToActive, None, now).1 == Err(ActivationBlocked)
  {
    hide Remembered, Superseding, Skills;
    var v: Version := (pin.name, pin.version);
    var rows: seq<(Version, StatusRow)> := [(v, row)];
    var then_ := StepTaken(db, id, caller, ToActive, None, now).0;
    assert rows[..0] == [];
    assert WithStatuses(then_.statuses, rows) == then_.statuses[v := row];
    assert PinBlocked(WithStatuses(then_.statuses, rows), pin);
    AffectedMeans(then_.generations[id], WithStatuses(then_.statuses, rows));
  }

  // ---------------------------------------------- what each transaction does

  /** A revoked version is spared only by a known publication strictly before the compromise; a tombstone spares nothing. */
  lemma BlocksMeans(s: StatusRow)
    ensures s.state == Tombstoned ==> Blocks(s)
    ensures s.state == Revoked ==> (!Blocks(s) <==> s.publishedAt.Some? && s.publishedAt.value < s.compromiseFrom)
    ensures s.state == Available || s.state == Withdrawn ==> !Blocks(s)
  {
  }

  /** Along the permitted transitions a version that blocks goes on blocking, unless its cutoff moves later. */
  lemma BlockingStays(a: StatusRow, b: StatusRow)
    requires a.state.Permits(b.state) && a.publishedAt == b.publishedAt && b.compromiseFrom <= a.compromiseFrom
    ensures Blocks(a) ==> Blocks(b)
  {
  }

  ghost predicate Blocking(statuses: map<Version, StatusRow>, p: Pin) {
    (p.name, p.version) in statuses && Blocks(statuses[(p.name, p.version)])
  }

  ghost predicate OwnPlan(db: Db, plan: string, caller: string) { plan in db.plans && db.plans[plan].agent == caller }

  /** The plan is the caller's, ready and fresh, and the agent is still there. */
  ghost predicate PlanUsable(db: Db, plan: string, caller: string) {
    && OwnPlan(db, plan, caller) && caller in db.live && db.plans[plan].ready && db.plans[plan].closure.Some?
    && StillFresh(db, db.plans[plan])
  }

  ghost predicate Unplanned(db: Db, plan: string) { forall g :: g in db.generations ==> db.generations[g].plan != plan }

  /**
   * The first approval under an id succeeds exactly for a usable plan without a
   * generation and an unused id. It adds that one generation, for the plan's
   * agent and its whole closure, approved and never activated, and remembers
   * the answer; a refusal changes nothing and names the first condition missed.
   */
  lemma ApprovalMeans(db: Db, plan: string, caller: string, id: string, now: int)
    requires (id, ApproveStep) !in db.saved
    ensures var (after, r) := PlanApproved(db, plan, caller, id, now);
      && (r.Ok? <==> PlanUsable(db, plan, caller) && Unplanned(db, plan) && id != "" && id !in db.generations)
      && (r.Ok? ==>
            && r.value == Generation(caller, plan, Approved, db.plans[plan].closure.value, now, None, None)
            && after == db.(generations := db.generations[id := r.value],
                            saved := db.saved[(id, ApproveStep) := Saved(ApproveArgs(plan, caller), r.value)]))
      && (r.Err? ==> after == db && match r.error
            case CallerForbidden => plan in db.plans && db.plans[plan].agent != caller
            case AgentGone => OwnPlan(db, plan, caller) && caller !in db.live
            case InvalidTransition => OwnPlan(db, plan, caller) && caller in db.live && !(db.plans[plan].ready && db.plans[plan].closure.Some?)
            case PlanStale => OwnPlan(db, plan, caller) && caller in db.live && db.plans[plan].ready && !PlanUsable(db, plan, caller)
            case RequestKeyConflict => PlanUsable(db, plan, caller) && (id == "" || !Unplanned(db, plan))
            case StoreError => plan !in db.plans || (PlanUsable(db, plan, caller) && Unplanned(db, plan) && id in db.generations)
            case ActivationBlocked => false)
  {
    hide StillFresh;
  }

  /** The phases a step may start from, and the one it leads to. */
  ghost predicate Leads(step: StepName, from: Phase, to: Phase) {
    || (step == ToReady && from in {Approved, Installed} && to == Ready)
    || (step == ToActive && from == Ready && to == Active)
    || (step == ToDegraded && from == Active && to == Degraded)
  }

  ghost predicate OwnGeneration(db: Db, id: string, caller: string) { id in db.generations && db.generations[id].agent == caller }

  ghost predicate Cleared(db: Db, id: string, step: StepName)
    requires id in db.generations
  {
    step == ToActive ==> forall p :: p in db.generations[id].closure ==> !Blocking(db.statuses, p)
  }

  /** Before an activation, the agent's current generation gives way; every other one is left alone. */
  ghost predicate OthersAfter(before: map<string, Generation>, after: map<string, Generation>, id: string, step: StepName, agent: string) {
    && after.Keys == before.Keys
    && forall o :: o in before && o != id ==>
         after[o] == if step == ToActive && before[o].agent == agent && before[o].phase in {Active, Degraded}
                     then before[o].(phase := Superseded) else before[o]
  }

  /**
   * A step taken for the first time succeeds exactly for the caller's own
   * generation in the phase the step starts from, while the agent is there
   * and, for an activation, nothing pinned blocks. It moves that generation,
   * supersedes the current one when activating, and remembers the answer.
   */
  lemma StepMeans(db: Db, id: string, caller: string, step: StepName, error: Option<string>, now: int)
    requires (id, GenerationStep(step)) !in db.saved
    ensures var (after, r) := StepTaken(db, id, caller, step, error, now);
      && (r.Ok? <==>
            && OwnGeneration(db, id, caller) && Cleared(db, id, step) && caller in db.live
            && exists to :: Leads(step, db.generations[id].phase, to))
      && (r.Ok? ==>
            var g := db.generations[id];
            && Leads(step, g.phase, r.value.phase)
            && r.value == Generation(g.agent, g.plan, r.value.phase, g.closure, g.createdAt,
                                     if step == ToActive then Some(now) else g.activatedAt,
                                     if error.None? then None else Some(Reported(error.value)))
            && after == db.(generations := after.generations, saved := db.saved[(id, GenerationStep(step)) := Saved(StepArgs(error), r.value)])
            && OthersAfter(db.generations, after.generations, id, step, g.agent) && after.generations[id] == r.value)
      && (r.Err? ==> after == db && match r.error
            case StoreError => id !in db.generations
            case CallerForbidden => id in db.generations && db.generations[id].agent != caller
            case ActivationBlocked => OwnGeneration(db, id, caller) && !Cleared(db, id, step)
            case AgentGone => OwnGeneration(db, id, caller) && Cleared(db, id, step) && caller !in db.live
            case InvalidTransition => OwnGeneration(db, id, caller) && Cleared(db, id, step) && caller in db.live
            case _ => false)
  {
    hide FirstBlocked, Blocks;
    if id in db.generations {
      var g := db.generations[id];
      assert Leads(step, g.phase, Reached(step)) <==> Allowed(step, g.phase);
    }
  }

  /** The row written last for a version is what the table then says of it. */
  lemma {:induction false} WrittenRow(m: map<Version, StatusRow>, rows: seq<(Version, StatusRow)>, i: nat)
    requires i < |rows| && forall j :: i < j < |rows| ==> rows[j].0 != rows[i].0
    ensures rows[i].0 in WithStatuses(m, rows) && WithStatuses(m, rows)[rows[i].0] == rows[i].1
  {
    if i + 1 < |rows| { WrittenRow(m, rows[..|rows| - 1], i); }
  }

  /** A version that is not written keeps its row, or stays without one. */
  lemma {:induction false} UnwrittenRow(m: map<Version, StatusRow>, rows: seq<(Version, StatusRow)>, v: Version)
    requires forall i :: 0 <= i < |rows| ==> rows[i].0 != v
    ensures SameStatus(m, WithStatuses(m, rows), v)
  {
    if rows != [] { UnwrittenRow(m, rows[..|rows| - 1], v); }
  }

  /** The first skill of the closure that blocks. */
  ghost predicate FirstBlockedSkill(statuses: map<Version, StatusRow>, closure: seq<Pin>, i: nat) {
    && i < |closure| && closure[i].kind == Skill && Blocking(statuses, closure[i])
    && forall j :: 0 <= j < i ==> !(closure[j].kind == Skill && Blocking(statuses, closure[j]))
  }

  ghost predicate NoBlockedSkill(statuses: map<Version, StatusRow>, closure: seq<Pin>) {
    forall p :: p in closure && p.kind == Skill ==> !Blocking(statuses, p)
  }

  lemma {:induction false} FirstBlockedIs(statuses: map<Version, StatusRow>, closure: seq<Pin>)
    ensures var b := FirstBlocked(statuses, Skills(closure));
      if b.None? then NoBlockedSkill(statuses, closure) else exists i: nat :: FirstBlockedSkill(statuses, closure, i) && closure[i] == b.value
  {
    hide Blocking, FirstBlocked, NoBlockedSkill, FirstBlockedSkill;
    if closure == [] {
      NothingBlocked(statuses);
    } else {
      FirstBlockedIs(statuses, closure[1..]);
      SkillsNext(statuses, closure);
      if closure[0].kind == Skill && Blocking(statuses, closure[0]) {
        FirstIsBlocked(statuses, closure);
      } else {
        BlockedNext(statuses, closure);
      }
    }
  }

  lemma NothingBlocked(statuses: map<Version, StatusRow>)
    ensures FirstBlocked(statuses, Skills([])).None? && NoBlockedSkill(statuses, [])
  {
  }

  lemma FirstIsBlocked(statuses: map<Version, StatusRow>, closure: seq<Pin>)
    requires closure != [] && closure[0].kind == Skill && Blocking(statuses, closure[0])
    ensures FirstBlockedSkill(statuses, closure, 0)
  {
  }

  lemma SkillsNext(statuses: map<Version, StatusRow>, closure: seq<Pin>)
    requires closure != []
    ensures FirstBlocked(statuses, Skills(closure))
         == if closure[0].kind == Skill && Blocking(statuses, closure[0]) then Some(closure[0]) else FirstBlocked(statuses, Skills(closure[1..]))
  {
    hide Blocks;
    if closure[0].kind == Skill {
      assert Skills(closure)[1..] == Skills(closure[1..]);
    } else {
      assert Skills(closure) == Skills(closure[1..]);
    }
  }

  lemma BlockedNext(statuses: map<Version, StatusRow>, closure: seq<Pin>)
    requires closure != [] && !(closure[0].kind == Skill && Blocking(statuses, closure[0]))
    ensures NoBlockedSkill(statuses, closure[1..]) ==> NoBlockedSkill(statuses, closure)
    ensures forall i: nat :: FirstBlockedSkill(statuses, closure[1..], i) ==>
      FirstBlockedSkill(statuses, closure, i + 1) && closure[i + 1] == closure[1..][i]
  {
    hide Blocking;
    assert closure == [closure[0]] + closure[1..];
    assert forall i :: 0 <= i < |closure| - 1 ==> closure[i + 1] == closure[1..][i];
  }

  /**
   * Writing statuses touches exactly the current generations that now hold a
   * blocked skill: each is degraded, with the first such skill as its fault.
   */
  lemma StatusesMean(db: Db, rows: seq<(Version, StatusRow)>, id: string)
    requires rows != [] && id in db.generations
    ensures var (after, g) := (StatusesWritten(db, rows), db.generations[id]);
      && after == db.(statuses := WithStatuses(db.statuses, rows), generations := after.generations)
      && after.generations.Keys == db.generations.Keys
      && if g.phase in {Active, Degraded} && !NoBlockedSkill(after.statuses, g.closure)
         then exists i: nat :: FirstBlockedSkill(after.statuses, g.closure, i)
                && after.generations[id] == g.(phase := Degraded, error := Some(
                     match after.statuses[(g.closure[i].name, g.closure[i].version)].state
                     case Tombstoned => PinnedTombstoned(g.closure[i])
                     case _ => PinnedRevoked(g.closure[i])))
         else after.generations[id] == g
  {
    hide WithStatuses, Blocks, FirstBlocked, Skills;
    FirstBlockedIs(WithStatuses(db.statuses, rows), db.generations[id].closure);
    if i: nat :| FirstBlockedSkill(WithStatuses(db.statuses, rows), db.generations[id].closure, i) {
      assert db.generations[id].closure[i] in db.generations[id].closure;
    }
  }

  /** An install adds one approved generation under an id of its own, unless that id or the plan is taken. */
  lemma InstallMeans(db: Db, plan: string, agent: string, closure: seq<Pin>, now: int)
    ensures var (after, r) := InstallWritten(db, plan, agent, closure, now);
      && (r.Ok? <==> ("generation:" + plan) !in db.generations && Unplanned(db, plan))
      && (r.Ok? ==>
            && r.value == Generation(agent, plan, Approved, closure, now, None, None)
            && after == db.(generations := db.generations["generation:" + plan := r.value]))
      && (r.Err? ==> after == db)
  {
  }

  /** An aborted move takes back exactly the generation it prepared for that agent, while it is not yet current. */
  lemma DiscardMeans(db: Db, cut: string, agent: string)
    ensures var (after, key) := (Discarded(db, cut, agent), "generation:move:" + cut);
      && after == db.(generations := after.generations)
      && (forall id :: id in db.generations && id != key ==> id in after.generations)
      && (forall id :: id in after.generations ==> id in db.generations && after.generations[id] == db.generations[id])
      && (key in db.generations ==>
            (key !in after.generations <==> db.generations[key].agent == agent && db.generations[key].phase in {Approved, Installed, Ready}))
  {
  }

  /** A failed prefetch leaves its text on the caller's own generation, until it is ready. */
  lemma PrefetchMeans(db: Db, id: string, caller: string, text: string)
    ensures var after := PrefetchFailed(db, id, caller, text);
      && after == db.(generations := after.generations) && after.generations.Keys == db.generations.Keys
      && forall o :: o in db.generations ==>
           after.generations[o] ==
           if o == id && db.generations[o].agent == caller && db.generations[o].phase in {Approved, Installed}
           then db.generations[o].(error := Some(Reported(text))) else db.generations[o]
  {
  }

  /** The parts of a generation that say what it is. */
  ghost predicate SameContent(a: Generation, b: Generation) {
    a.agent == b.agent && a.plan == b.plan && a.closure == b.closure && a.createdAt == b.createdAt
  }

  lemma ContentStep(db: Db, e: Event, id: string)
    requires id in db.generations && id in After(db, e).generations
    ensures SameContent(db.generations[id], After(db, e).generations[id])
  {
    hide WithStatuses, Remembered, PlanTaken, StillFresh, FirstBlocked, Skills;
    AffectedMeans(db.generations[id], After(db, e).statuses);
    AffectedKeeps(db.generations[id], After(db, e).statuses);
  }

  lemma AffectedKeeps(g: Generation, statuses: map<Version, StatusRow>)
    ensures SameContent(g, Affected(g, statuses))
  {
  }

  /** The generation was there after every one of these transactions. */
  ghost predicate StaysThere(db: Db, events: seq<Event>, id: string) {
    id in Run(db, events).generations && (events == [] || StaysThere(db, events[..|events| - 1], id))
  }

  /** While it exists, a generation's agent, plan and closure never change. */
  lemma {:induction false} ContentForGood(db: Db, events: seq<Event>, id: string)
    requires StaysThere(db, events, id)
    ensures id in db.generations && SameContent(db.generations[id], Run(db, events).generations[id])
  {
    hide After;
    if events != [] {
      ContentForGood(db, events[..|events| - 1], id);
      ContentStep(Run(db, events[..|events| - 1]), events[|events| - 1], id);
    }
  }

  /**
   * From approval on, whatever happens: while the generation exists it pins
   * exactly its plan's closure, and it is not active when a skill among them
   * blocks.
   */
  lemma ApprovedStaysClear(db: Db, plan: string, caller: string, id: string, now: int, events: seq<Event>)
    requires Inv(db) && (id, ApproveStep) !in db.saved && PlanApproved(db, plan, caller, id, now).1.Ok?
    requires StaysThere(PlanApproved(db, plan, caller, id, now).0, events, id)
    ensures var later := Run(PlanApproved(db, plan, caller, id, now).0, events);
      && id in later.generations && plan in db.plans && db.plans[plan].closure == Some(later.generations[id].closure)
      && (!NoBlockedSkill(later.statuses, db.plans[plan].closure.value) ==> later.generations[id].phase != Active)
  {
    hide PlanApproved, Run, Inv, PlanUsable, Blocks;
    var then_ := PlanApproved(db, plan, caller, id, now).0;
    ApprovalMeans(db, plan, caller, id, now);
    AfterKeeps(db, Approve(plan, caller, id, now));
    RunKeeps(then_, events);
    ContentForGood(then_, events, id);
    if Run(then_, events).generations[id].phase == Active { ClearMeans(Run(then_, events), id); }
    UsableIsPlanned(db, plan, caller);
  }

  lemma UsableIsPlanned(db: Db, plan: string, caller: string)
    requires PlanUsable(db, plan, caller)
    ensures plan in db.plans && db.plans[plan].closure.Some?
  {
  }

  lemma ClearMeans(db: Db, id: string)
    requires Inv(db) && id in db.generations && db.generations[id].phase == Active
    ensures NoBlockedSkill(db.statuses, db.generations[id].closure)
  {
    hide OneCurrent, Blocks;
  }

  // -------------------------------------------------------------- the store

  class CatalogStore {
    var generations: map<string, Generation>
    var saved: map<(string, Kept), Saved>
    var statuses: map<Version, StatusRow>
    var live: set<string>
    var plans: map<string, Plan>
    var pinned: map<string, seq<Pin>>

    function View(): Db
      reads this
    {
      Db(generations, saved, statuses, live, plans, pinned)
    }

    constructor ()
      ensures View() == Db(map[], map[], map[], {}, map[], map[])
    {
      generations, saved, statuses, live, plans, pinned := map[], map[], map[], {}, map[], map[];
    }

    /** Upsert the rows, then degrade every current generation they block, before anything else can run. */
    method WriteStatuses(rows: seq<(Version, StatusRow)>)
      modifies this`statuses, this`generations
      ensures View() == StatusesWritten(old(View()), rows)
      ensures View() == After(old(View()), Event.WriteStatuses(rows))
    {
      hide Affected;
      for i := 0 to |rows|
        invariant statuses == WithStatuses(old(statuses), rows[..i]) && generations == old(generations)
      {
        assert rows[..i + 1][..i] == rows[..i];
        statuses := statuses[rows[i].0 := rows[i].1];
      }
      assert rows[..|rows|] == rows;
      if rows != [] { ApplyStatusEffects(); }
    }

    /** The loop over the current generations: every generation becomes what the statuses make of it. */
    method ApplyStatusEffects()
      modifies this`generations
      ensures generations == map id | id in old(generations) :: Affected(old(generations)[id], statuses)
    {
      hide Affected, Current;
      var todo := set id | id in generations && Current(generations[id]);
      ghost var before := generations;
      assert forall id :: id in before && id !in todo ==> Affected(before[id], statuses) == before[id] by { OnlyCurrentAffected(before, statuses); }
      while todo != {}
        invariant todo <= before.Keys == generations.Keys
        invariant forall id :: id in todo ==> Current(before[id])
        invariant forall id :: id in before && id in todo ==> generations[id] == before[id]
        invariant forall id :: id in before && id !in todo ==> generations[id] == Affected(before[id], statuses)
        decreases |todo|
      {
        var id :| id in todo;
        todo := todo - {id};
        Degrade(id);
      }
    }

    method Degrade(id: string)
      requires id in generations && Current(generations[id])
      modifies this`generations
      ensures generations == old(generations)[id := Affected(old(generations)[id], statuses)]
    {
      hide FirstBlocked, Skills;
      var g := generations[id];
      var blocked := FirstBlocked(statuses, Skills(g.closure));
      if blocked.Some? {
        var v := (blocked.value.name, blocked.value.version);
        var fault := if statuses[v].state == Tombstoned then PinnedTombstoned(blocked.value) else PinnedRevoked(blocked.value);
        generations := generations[id := g.(phase := Degraded, error := Some(fault))];
      }
    }

    /** Take one step of a generation, remembering the answer. */
    method GenerationStep(id: string, caller: string, step: StepName, error: Option<string>, now: int) returns (r: Outcome)
      modifies this`generations, this`saved
      ensures (View(), r) == StepTaken(old(View()), id, caller, step, error, now)
      ensures View() == After(old(View()), Event.Step(id, caller, step, error, now))
    {
      hide FirstBlocked;
      if id !in generations { return Err(StoreError); }
      var g := generations[id];
      if g.agent != caller { return Err(CallerForbidden); }
      if step == ToActive && FirstBlocked(statuses, g.closure).Some? { return Err(ActivationBlocked); }
      var key := (id, Kept.GenerationStep(step));
      if key in saved {
        return if saved[key].args == StepArgs(error) then Ok(saved[key].result) else Err(RequestKeyConflict);
      }
      if g.agent !in live { return Err(AgentGone); }
      if !Allowed(step, g.phase) { return Err(InvalidTransition); }
      if step == ToActive {
        generations := Superseding(generations, g.agent);
      }
      var next := Stepped(g, step, error, now);
      generations := generations[id := next];
      saved := saved[key := Saved(StepArgs(error), next)];
      return Ok(next);
    }

    method ApprovePlan(plan: string, caller: string, id: string, now: int) returns (r: Outcome)
      modifies this`generations, this`saved
      ensures (View(), r) == PlanApproved(old(View()), plan, caller, id, now)
      ensures View() == After(old(View()), Event.Approve(plan, caller, id, now))
    {
      if plan !in plans { return Err(StoreError); }
      var p := plans[plan];
      if p.agent != caller { return Err(CallerForbidden); }
      var key := (id, ApproveStep);
      if key in saved {
        return if saved[key].args == ApproveArgs(plan, caller) then Ok(saved[key].result) else Err(RequestKeyConflict);
      }
      if p.agent !in live { return Err(AgentGone); }
      if !p.ready || p.closure.None? { return Err(InvalidTransition); }
      if !StillFresh(View(), p) { return Err(PlanStale); }
      if PlanTaken(View(), plan) || id == "" { return Err(RequestKeyConflict); }
      if id in generations { return Err(StoreError); }
      var g := NewGeneration(p.agent, plan, p.closure.value, now);
      generations := generations[id := g];
      saved := saved[key := Saved(ApproveArgs(plan, caller), g)];
      return Ok(g);
    }

    /** Drop what a receiving machine prepared for an aborted move, unless it already became current. */
    method DiscardMoveGeneration(cut: string, agent: string)
      modifies this`generations
      ensures View() == Discarded(old(View()), cut, agent)
      ensures View() == After(old(View()), Event.Discard(cut, agent))
      ensures forall id :: id in old(generations) && old(generations)[id].phase in {Active, Degraded, Superseded} ==>
        id in generations && generations[id] == old(generations)[id]
    {
      hide MoveGeneration;
      var id := MoveGeneration(cut);
      if id in generations && generations[id].agent == agent && generations[id].phase in {Approved, Installed, Ready} {
        generations := generations - {id};
      }
    }
  }
}
