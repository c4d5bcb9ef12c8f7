/** Durable move checkpoints and the writes that race over them. */
module MoveTables {
  import opened Prelude
  import opened Refs
  import opened SessionTables

  datatype Side = Source | Receiver

  datatype Step =
    | Preparing | Exported | Sealed | Published | Releasing | Released | Aborted
    | PickedUp | Imported | Staged | Claimed | Activating | Activated | Done | TakenOver
  {
    predicate BeforeBoundary(side: Side) {
      match side
      case Source => this in {Preparing, Exported, Sealed, Published}
      case Receiver => this in {PickedUp, Imported, Staged, Claimed}
    }

    predicate Terminal() { this in {Released, Aborted, Done, TakenOver} }
  }

  /** A background delivery that outlives the move: its state and retry schedule. */
  datatype Delivery = Delivery(state: string, attempts: nat, retryAt: int)

  const PENDING := Delivery("pending", 0, 0)

  datatype AbortRequest = AbortRequest(reason: string, retryPending: bool)

  const OPERATOR := AbortRequest("operator", false)

  /** A checkpoint row. `refs`, `release` and `sealRefused` are read out of its plan; `rest` is everything never interpreted. */
  datatype AgentMove = AgentMove(
    cut: string, agent: string, side: Side, step: Step, refs: set<Ref>, pinDigest: Option<string>,
    release: Option<Delivery>, sealRefused: bool, sealSent: bool, requestKey: Option<string>, requestBody: Option<string>,
    abort: Option<AbortRequest>, held: bool, accept: Option<Delivery>, activatedAt: Option<int>, updatedAt: int, rest: string)
  {
    predicate Open() { !step.Terminal() }

    /** An abort is requested and its cleanup is stuck at a participant. */
    predicate AbortStuck() { abort.Some? && held }
  }

  type Moves = map<string, AgentMove>

  datatype MoveRefusal =
    | InvalidMove | RequestKeyReused | AgentBusy | LiveRefCap | MoveInProgress(cut: string) | MoveCap | InvalidState
    | IncomingRefBoundElsewhere | MoveStorageError

  const OPEN_MAX: nat := 4
  const LIVE_REF_MAX: nat := 256

  function OpenMoves(m: Moves): set<string> { set c | c in m && m[c].Open() }

  // ------------------------------------------------------------- the write

  /** What the table's unique indexes allow: one open row per agent, and no shared request key. */
  predicate WriteAllowed(m: Moves, row: AgentMove) {
    forall c :: c in m && c != row.cut ==>
      && !(m[c].Open() && row.Open() && m[c].agent == row.agent)
      && !(row.requestKey.Some? && m[c].requestKey == row.requestKey)
  }

  ghost predicate Indexed(m: Moves) {
    && (forall c :: c in m ==> m[c].cut == c)
    && (forall c, d :: c in m && d in m && c != d ==> !(m[c].Open() && m[d].Open() && m[c].agent == m[d].agent))
    && (forall c, d :: c in m && d in m && c != d ==> !(m[c].requestKey.Some? && m[c].requestKey == m[d].requestKey))
  }

  function Write(m: Moves, row: AgentMove): (Moves, Result<AgentMove, MoveRefusal>) {
    if WriteAllowed(m, row) then (m[row.cut := row], Ok(row)) else (m, Err(MoveStorageError))
  }

  lemma WriteIndexed(m: Moves, row: AgentMove)
    requires Indexed(m)
    ensures Indexed(Write(m, row).0)
  {
  }

  // ----------------------------------------------------------- admissions

  predicate AgentOpen(m: Moves, agent: string) { exists c :: c in m && m[c].Open() && m[c].agent == agent }

  ghost function OpenOf(m: Moves, agent: string): string
    requires AgentOpen(m, agent)
  {
    var c :| c in m && m[c].Open() && m[c].agent == agent; c
  }

  ghost function SlotRefusal(m: Moves, agent: string): Option<MoveRefusal> {
    if AgentOpen(m, agent) then Some(MoveInProgress(OpenOf(m, agent)))
    else if |OpenMoves(m)| >= OPEN_MAX then Some(MoveCap)
    else None
  }

  ghost predicate HasKey(m: Moves, key: Option<string>, c: string) { c in m && key.Some? && m[c].requestKey == key }

  /** Admit a source move over the live references that were checked. */
  ghost function AdmitSource(m: Moves, live: set<Ref>, digest: Option<string>, row: AgentMove, checked: set<Ref>)
    : (Moves, Result<AgentMove, MoveRefusal>)
  {
    if row.side != Source || row.step != Preparing || row.requestKey.None? || row.requestBody.None? then (m, Err(InvalidMove))
    else if exists c :: HasKey(m, row.requestKey, c) then
      var c :| HasKey(m, row.requestKey, c);
      (m, if m[c].requestBody == row.requestBody then Ok(m[c]) else Err(RequestKeyReused))
    else if live != checked then (m, Err(AgentBusy))
    else if |checked| > LIVE_REF_MAX then (m, Err(LiveRefCap))
    else if row.pinDigest != digest then (m, Err(AgentBusy))
    else if SlotRefusal(m, row.agent).Some? then (m, Err(SlotRefusal(m, row.agent).value))
    else Inserted(m, row)
  }

  /** An insert also refuses a cut that already has a row. */
  function Inserted(m: Moves, row: AgentMove): (Moves, Result<AgentMove, MoveRefusal>) {
    if row.cut in m then (m, Err(MoveStorageError)) else Write(m, row)
  }

  ghost function AdmitReceived(m: Moves, row: AgentMove): (Moves, Result<AgentMove, MoveRefusal>) {
    if row.side != Receiver || !(row.step in {PickedUp, Aborted}) then (m, Err(InvalidMove))
    else if row.cut in m then (m, Ok(m[row.cut]))
    else if SlotRefusal(m, row.agent).Some? then (m, Err(SlotRefusal(m, row.agent).value))
    else Inserted(m, row)
  }

  // ------------------------------------------------------------ checkpoints

  /** The row a driver's checkpoint leaves: the operator's abort and the background deliveries stay as stored. */
  function Checkpointed(current: AgentMove, row: AgentMove, clear: bool): AgentMove {
    row.(
      abort := if clear then None else if current.abort.Some? then current.abort else row.abort,
      accept := current.accept,
      release :=
        if current.release.Some? then current.release
        else if row.side == Source && row.step == Aborted && row.sealSent && !row.sealRefused then Some(PENDING)
        else row.release)
  }

  function Checkpoint(m: Moves, row: AgentMove, clear: bool): (Moves, Result<AgentMove, MoveRefusal>) {
    if row.cut !in m then (m, Err(MoveStorageError))
    else
      var current := m[row.cut];
      if row.step == Activating && current.step == Claimed && current.abort.Some? then (m, Ok(current))
      else Write(m, Checkpointed(current, row, clear))
  }

  /** The operator's abort: once per move, only before its boundary, and again only to retry a stuck cleanup. */
  function RequestAbort(m: Moves, cut: string, now: int): (Moves, Result<AgentMove, MoveRefusal>) {
    if cut !in m then (m, Err(MoveStorageError))
    else
      var row := m[cut];
      if row.step == Aborted then (m, Ok(row))
      else if !row.step.BeforeBoundary(row.side) then (m, Err(InvalidState))
      else if row.AbortStuck() then Write(m, row.(abort := Some(row.abort.value.(retryPending := true)), updatedAt := now))
      else if row.abort.Some? then (m, Ok(row))
      else Write(m, row.(abort := Some(OPERATOR), updatedAt := now))
  }

  /** The row an accepted abort request leaves. */
  function AbortedRow(row: AgentMove, now: int): AgentMove {
    row.(abort := Some(if row.AbortStuck() then row.abort.value.(retryPending := true) else OPERATOR), updatedAt := now)
  }

  /** An abort request writes that row or nothing. */
  lemma AbortWrites(m: Moves, cut: string, now: int)
    requires cut in m && m[cut].cut == cut
    ensures RequestAbort(m, cut, now).0 == m || RequestAbort(m, cut, now).0 == m[cut := AbortedRow(m[cut], now)]
  {
    hide WriteAllowed;
  }

  /** The driver takes up an operator's request to retry a stuck cleanup, once. */
  function ConsumeRetry(m: Moves, cut: string): (Moves, Result<bool, MoveRefusal>) {
    if cut !in m then (m, Err(MoveStorageError))
    else if m[cut].abort.Some? && m[cut].abort.value.retryPending then
      (m[cut := m[cut].(abort := Some(m[cut].abort.value.(retryPending := false)))], Ok(true))
    else (m, Ok(false))
  }

  /** Whether an activation checkpoint may replace the stored row, and what it leaves. */
  function ActivationRefusal(m: Moves, t: Tables, row: AgentMove, refs: seq<Ref>): Option<MoveRefusal> {
    if row.cut !in m then Some(MoveStorageError)
    else if m[row.cut].side != Receiver || m[row.cut].step != Activating || row.step != Activated || row.activatedAt.None? then Some(InvalidState)
    else if exists r :: r in refs && r in t.bindings && t.bindings[r].agent != row.agent then Some(IncomingRefBoundElsewhere)
    else None
  }

  function ActivatedRow(current: AgentMove, row: AgentMove): AgentMove {
    row.(abort := current.abort, accept := Some(PENDING), release := Some(PENDING))
  }

  function SetAccept(m: Moves, cut: string, accept: Delivery, now: int): Moves {
    if cut in m then m[cut := m[cut].(accept := Some(accept), updatedAt := now)] else m
  }

  function SetRelease(m: Moves, cut: string, release: Delivery): Moves {
    if cut in m then m[cut := m[cut].(release := Some(release))] else m
  }

  // ---------------------------------------------------- the abort boundary

  /**
   * A checkpoint puts a move into activating exactly when it asks to and does
   * not find a claimed move with an accepted abort.
   */
  lemma CheckpointEntersWhen(m: Moves, row: AgentMove, clear: bool)
    requires row.cut in m && m[row.cut].cut == row.cut && WriteAllowed(m, Checkpointed(m[row.cut], row, clear))
    requires m[row.cut].step != Activating
    ensures Checkpoint(m, row, clear).0[row.cut].step == Activating
       <==> row.step == Activating && !(m[row.cut].step == Claimed && m[row.cut].abort.Some?)
    ensures row.step == Activating && m[row.cut].step == Claimed && m[row.cut].abort.Some? ==> Checkpoint(m, row, clear).0 == m
  {
  }

  /** An accepted abort stays accepted until a checkpoint clears it, and the driver's stale rows never drop it. */
  lemma CheckpointKeepsAbort(m: Moves, row: AgentMove)
    requires row.cut in m && m[row.cut].cut == row.cut && m[row.cut].abort.Some?
    ensures Checkpoint(m, row, false).0[row.cut].abort == m[row.cut].abort
  {
  }

  /** No checkpoint, however stale its row, replaces the stored deliveries. */
  lemma CheckpointKeepsDeliveries(m: Moves, row: AgentMove, clear: bool)
    requires row.cut in m && m[row.cut].cut == row.cut
    ensures var after := Checkpoint(m, row, clear).0[row.cut];
      after.accept == m[row.cut].accept && (m[row.cut].release.Some? ==> after.release == m[row.cut].release)
  {
  }

  /** The indexes have no objection to a row that keeps its agent and key and does not reopen. */
  lemma SameIdentityAllowed(m: Moves, row: AgentMove)
    requires Indexed(m) && row.cut in m && (row.Open() ==> m[row.cut].Open())
    requires row.agent == m[row.cut].agent && row.requestKey == m[row.cut].requestKey
    ensures WriteAllowed(m, row)
  {
  }

  /** An abort request is taken exactly before the boundary; past it nothing changes at all. */
  lemma AbortTakenWhen(m: Moves, cut: string, now: int)
    requires Indexed(m) && cut in m
    ensures var ((after, answer), row) := (RequestAbort(m, cut, now), m[cut]);
      && (answer.Ok? <==> row.step == Aborted || row.step.BeforeBoundary(row.side))
      && (row.step.BeforeBoundary(row.side) ==> after[cut].abort.Some?)
      && (answer.Err? ==> after == m && answer.error == InvalidState)
      && (forall c :: c in m && c != cut ==> after[c] == m[c]) && after.Keys == m.Keys
  {
    hide Indexed, WriteAllowed;
    var row := m[cut];
    RowOfCut(m, cut);
    SameIdentityAllowed(m, row.(abort := Some(OPERATOR), updatedAt := now));
    if row.abort.Some? {
      SameIdentityAllowed(m, row.(abort := Some(row.abort.value.(retryPending := true)), updatedAt := now));
    }
  }

  lemma RowOfCut(m: Moves, cut: string)
    requires Indexed(m) && cut in m
    ensures m[cut].cut == cut
  {
  }

  // --------------------------------------------------------- open move caps

  lemma OpenAfterWrite(m: Moves, row: AgentMove)
    ensures OpenMoves(m[row.cut := row]) == if row.Open() then OpenMoves(m) + {row.cut} else OpenMoves(m) - {row.cut}
    ensures var n := |OpenMoves(m[row.cut := row])|;
      if row.cut in OpenMoves(m) then n == |OpenMoves(m)| - (if row.Open() then 0 else 1)
      else n == |OpenMoves(m)| + (if row.Open() then 1 else 0)
  {
    var (c, before) := (row.cut, OpenMoves(m));
    if c in before {
      assert before + {c} == before && |before - {c}| == |before| - 1;
    } else {
      assert before - {c} == before && |before + {c}| == |before| + 1;
    }
  }

  lemma InsertedSlots(m: Moves, row: AgentMove)
    requires Indexed(m) && SlotRefusal(m, row.agent).None?
    ensures |OpenMoves(Inserted(m, row).0)| <= OPEN_MAX
  {
    hide WriteAllowed, Indexed, OpenMoves;
    OpenAfterWrite(m, row);
    NotOpen(m, row.cut);
  }

  lemma NotOpen(m: Moves, cut: string)
    ensures cut in OpenMoves(m) <==> cut in m && m[cut].Open()
  {
  }

  /** Both admissions keep at most one open move per agent and four in all, and refuse before writing. */
  lemma AdmissionsWithinCaps(m: Moves, live: set<Ref>, digest: Option<string>, row: AgentMove, checked: set<Ref>)
    requires Indexed(m) && |OpenMoves(m)| <= OPEN_MAX
    ensures var (after, answer) := AdmitSource(m, live, digest, row, checked);
      Indexed(after) && |OpenMoves(after)| <= OPEN_MAX && (answer.Err? ==> after == m)
    ensures var (after, answer) := AdmitReceived(m, row);
      Indexed(after) && |OpenMoves(after)| <= OPEN_MAX && (answer.Err? ==> after == m)
  {
    hide SlotRefusal, OpenMoves, Indexed;
    WriteIndexed(m, row);
    if SlotRefusal(m, row.agent).None? { InsertedSlots(m, row); }
  }

  /** Exactly what a checkpoint may do to the number of open moves: only reopening a finished row adds one. */
  lemma CheckpointCap(m: Moves, row: AgentMove, clear: bool)
    requires Indexed(m) && |OpenMoves(m)| <= OPEN_MAX && row.cut in m && WriteAllowed(m, Checkpointed(m[row.cut], row, clear))
    ensures |OpenMoves(Checkpoint(m, row, clear).0)| <= OPEN_MAX
       <==> !(m[row.cut].step.Terminal() && row.Open() && |OpenMoves(m)| == OPEN_MAX)
  {
    hide WriteAllowed, OpenMoves;
    RowOfCut(m, row.cut);
    OpenAfterWrite(m, Checkpointed(m[row.cut], row, clear));
    NotOpen(m, row.cut);
  }
}
