/** Crash-safe appends to a shared log that takes an entry only in one slot. */
module PendingLog {
  import opened Prelude

  /** An append request: the entry, and the log length it expects; its only slot is at that index. */
  datatype Message = Message(id: string, head: nat)

  datatype Attempt = Attempt(id: string, head: nat, sent: bool)

  /** The durable rows of one machine: unfinished attempts, recorded positions, and the applied prefix. */
  datatype Rows = Rows(pending: map<string, nat>, recorded: map<string, nat>, applied: nat)

  /** The log, every request that may still reach it, and one machine. `started` remembers each attempt ever begun. */
  datatype World = World(log: seq<string>, wire: set<Message>, rows: Rows, attempt: Option<Attempt>, started: map<string, nat>)

  // ------------------------------------------------------------- the rows

  function Begun(r: Rows, id: string, head: nat): Rows { r.(pending := r.pending[id := head]) }

  function Dropped(r: Rows, id: string): Rows { r.(pending := r.pending - {id}) }

  /** An occupied position proves that every attempt expecting an earlier head lost its slot. */
  function Outrun(pending: map<string, nat>, position: nat): map<string, nat> {
    map id | id in pending && pending[id] >= position :: pending[id]
  }

  /** Record an entry at its position and settle every attempt it outran. */
  function Recorded(r: Rows, id: string, position: nat): Rows {
    Rows(Outrun(r.pending, position), r.recorded[id := position], position)
  }

  /** What the operation of one attempt came to. */
  datatype Settlement = Commit(position: nat) | Rollback(sent: bool)

  datatype Operation = Fails | NoEntry | TooLarge | Settles(settlement: Settlement)

  /** What the attempt then says about sending: only a settlement changes it. */
  function SentAfter(op: Operation, before: bool): bool {
    match op
    case Settles(Rollback(sent)) => sent
    case Settles(Commit(_)) => true
    case _ => before
  }

  class Store {
    var rows: Rows
    var attempt: Option<Attempt>

    constructor ()
      ensures rows == Rows(map[], map[], 0) && attempt.None?
    {
      rows, attempt := Rows(map[], map[], 0), None;
    }

    /** The end of the operation, inside its transaction: settle the entry if there is one. */
    method Finish(op: Operation) returns (ok: bool)
      requires attempt.Some? && !op.Fails?
      modifies this`rows, this`attempt
      ensures attempt.Some? && attempt.value == old(attempt).value.(sent := SentAfter(op, old(attempt).value.sent))
      ensures ok <==> op.NoEntry? || (op.Settles? && op.settlement.Commit?)
      ensures !ok ==> rows == old(rows)
      ensures op.NoEntry? ==> rows == Dropped(old(rows), old(attempt).value.id)
      ensures op.Settles? && op.settlement.Commit? ==>
        rows == Dropped(Recorded(old(rows), old(attempt).value.id, op.settlement.position), old(attempt).value.id)
    {
      var id := attempt.value.id;
      match op {
        case TooLarge => return false;
        case NoEntry =>
        case Settles(settlement) =>
          attempt := Some(attempt.value.(sent := true));
          match settlement {
            case Commit(position) => rows := Recorded(rows, id, position);
            case Rollback(sent) =>
              attempt := Some(attempt.value.(sent := sent));
              return false;
          }
      }
      rows := Dropped(rows, id);
      return true;
    }

    /**
     * One whole attempt: the row is committed before anything may be sent, and
     * on failure deleted again only when nothing can have been sent. An id that
     * already has a row is refused before anything happens. `commits` says
     * whether the operation's transaction commits once its entry is settled.
     */
    method SharedAttempt(id: string, head: nat, op: Operation, commits: bool) returns (ok: bool)
      requires attempt.None?
      modifies this
      ensures attempt.None?
      ensures ok <==> id !in old(rows).pending && commits && (op.NoEntry? || (op.Settles? && op.settlement.Commit?))
      ensures rows == if id in old(rows).pending then old(rows) else Attempted(old(rows), id, head, op, commits)
    {
      if id in rows.pending { return false; }
      rows := Begun(rows, id, head);
      attempt := Some(Attempt(id, head, false));
      ok := false;
      var begun := rows;
      if !op.Fails? { ok := Finish(op); }
      if ok && !commits { ok, rows := false, begun; }
      var sent := attempt.value.sent;
      attempt := None;
      if !ok && !sent { rows := Dropped(rows, id); }
    }

    /** Apply the next log entry, whoever wrote it. */
    method ApplyEntry(id: string, position: nat) returns (ok: bool)
      modifies this`rows
      ensures ok <==> position == old(rows).applied + 1
      ensures rows == if ok then Recorded(old(rows), id, position) else old(rows)
    {
      if position != rows.applied + 1 { return false; }
      rows := Recorded(rows, id, position);
      return true;
    }
  }

  /** The rows one uninterrupted attempt leaves. */
  function Attempted(r: Rows, id: string, head: nat, op: Operation, commits: bool): Rows {
    match op
    case Settles(Commit(position)) =>
      if commits then Dropped(Recorded(Begun(r, id, head), id, position), id) else Begun(r, id, head)
    case Settles(Rollback(true)) => Begun(r, id, head)
    case _ => Dropped(Begun(r, id, head), id)
  }

  // ------------------------------------------------------ the whole protocol

  datatype Event =
    | Start(id: string)                // the pending row commits
    | MarkSent                         // the operation hands its entry over
    | Send                             // a request, or the same one again
    | Deliver(m: Message)              // now or any time later
    | Foreign(id: string)              // another machine's entry takes the next slot
    | SettleCommit                     // the log's answer, recorded locally
    | GiveUp                           // nothing was sent: the row goes
    | Ambiguous                        // something was sent: the row stays
    | Crash                            // memory is lost at any point
    | ApplyNext                        // read the log one entry further

  predicate Fresh(w: World, id: string) {
    id !in w.started && id !in w.log && id !in w.rows.recorded
  }

  predicate Enabled(w: World, e: Event) {
    match e
    case Start(id) => w.attempt.None? && Fresh(w, id)
    case MarkSent => w.attempt.Some?
    case Send => w.attempt.Some? && w.attempt.value.sent
    case Deliver(m) => m in w.wire
    case Foreign(id) => Fresh(w, id)
    case SettleCommit =>
      w.attempt.Some? && w.attempt.value.sent && w.attempt.value.head < |w.log| && w.log[w.attempt.value.head] == w.attempt.value.id
    case GiveUp => w.attempt.Some? && Message(w.attempt.value.id, w.attempt.value.head) !in w.wire
    case Ambiguous => w.attempt.Some?
    case Crash => true
    case ApplyNext => w.rows.applied < |w.log| && (w.attempt.None? || !w.attempt.value.sent)
  }

  /** One step. Attempts start from a fully applied prefix: the head they expect is the applied position. */
  function Next(w: World, e: Event): World
    requires Enabled(w, e)
  {
    match e
    case Start(id) =>
      w.(rows := Begun(w.rows, id, w.rows.applied), attempt := Some(Attempt(id, w.rows.applied, false)), started := w.started[id := w.rows.applied])
    case MarkSent => w.(attempt := Some(w.attempt.value.(sent := true)))
    case Send => w.(wire := w.wire + {Message(w.attempt.value.id, w.attempt.value.head)})
    case Deliver(m) => if |w.log| == m.head then w.(log := w.log + [m.id]) else w
    case Foreign(id) => w.(log := w.log + [id])
    case SettleCommit =>
      var a := w.attempt.value;
      w.(rows := Dropped(Recorded(w.rows, a.id, a.head + 1), a.id), attempt := None)
    case GiveUp => w.(rows := Dropped(w.rows, w.attempt.value.id), attempt := None)
    case Ambiguous | Crash => w.(attempt := None)
    case ApplyNext => w.(rows := Recorded(w.rows, w.log[w.rows.applied], w.rows.applied + 1))
  }

  const BLANK := World([], {}, Rows(map[], map[], 0), None, map[])

  function Step(w: World, e: Event): World { if Enabled(w, e) then Next(w, e) else w }

  /** The events tried one after another; one that cannot happen then leaves the world as it is. */
  function Run(w: World, events: seq<Event>): World {
    if events == [] then w else Step(Run(w, events[..|events| - 1]), events[|events| - 1])
  }

  // ------------------------------------------------------------ invariants

  predicate OnWire(w: World, id: string, head: nat) { Message(id, head) in w.wire }

  predicate InFlight(w: World, id: string) { w.attempt.Some? && w.attempt.value.id == id }

  /** The slot is filled by this very entry. */
  predicate Landed(w: World, id: string, head: nat) { head < |w.log| && w.log[head] == id }

  predicate SlotTaken(w: World, id: string, head: nat) { head < |w.log| && w.log[head] != id }

  /** The applied prefix is exactly what is recorded, each entry once. */
  ghost predicate LogRecorded(w: World) {
    && w.rows.applied <= |w.log|
    && (forall i, j :: 0 <= i < j < |w.log| ==> w.log[i] != w.log[j])
    && (forall i :: 0 <= i < w.rows.applied ==> w.log[i] in w.rows.recorded && w.rows.recorded[w.log[i]] == i + 1)
    && (forall id :: id in w.rows.recorded ==> 1 <= w.rows.recorded[id] <= w.rows.applied && w.log[w.rows.recorded[id] - 1] == id)
  }

  /** Requests and rows belong to begun attempts, under the head they began at. */
  ghost predicate BeginRows(w: World) {
    && (forall m :: m in w.wire ==> m.id in w.started && w.started[m.id] == m.head)
    && (forall id :: id in w.rows.pending ==> id in w.started && w.started[id] == w.rows.pending[id])
    && (w.attempt.Some? ==> w.attempt.value.id in w.started && w.started[w.attempt.value.id] == w.attempt.value.head)
  }

  /** Of the log, exactly the delivered requests are this machine's, each in the slot it asked for. */
  ghost predicate BeginLog(w: World) {
    && (forall i :: 0 <= i < |w.log| && w.log[i] in w.started ==> w.started[w.log[i]] == i)
    && (forall id :: id in w.started && id in w.log ==> OnWire(w, id, w.started[id]))
  }

  ghost predicate Begins(w: World) { BeginRows(w) && BeginLog(w) }

  /** What may still land, or landed without being recorded, has its row. */
  ghost predicate Covered(w: World) {
    forall id :: id in w.started ==>
      var head := w.started[id];
      ((OnWire(w, id, head) || InFlight(w, id)) && |w.log| <= head ==> id in w.rows.pending)
      && (Landed(w, id, head) && id !in w.rows.recorded ==> id in w.rows.pending)
  }

  /** The attempt in progress is not recorded yet, expects no more than is applied, and is unsent until marked. */
  ghost predicate AttemptOpen(w: World) {
    w.attempt.Some? ==>
      var a := w.attempt.value;
      a.head <= w.rows.applied && a.id !in w.rows.recorded && (!a.sent ==> !OnWire(w, a.id, a.head))
  }

  ghost predicate Inv(w: World) { LogRecorded(w) && Begins(w) && Covered(w) && AttemptOpen(w) }

  /** Nothing of this entry is left open: it is recorded, was never sent, or can no longer land. */
  ghost predicate Settled(w: World, id: string)
    requires id in w.started
  {
    || (id in w.rows.recorded && 1 <= w.rows.recorded[id] <= |w.log| && w.log[w.rows.recorded[id] - 1] == id)
    || (!OnWire(w, id, w.started[id]) && !InFlight(w, id))
    || SlotTaken(w, id, w.started[id])
  }

  lemma RecordsNext(w: World, position: nat)
    requires LogRecorded(w) && position == w.rows.applied + 1 && position <= |w.log|
    ensures LogRecorded(w.(rows := Recorded(w.rows, w.log[position - 1], position)))
  {
  }

  lemma AppendKeeps(w: World, id: string)
    requires LogRecorded(w) && id !in w.log
    ensures LogRecorded(w.(log := w.log + [id]))
  {
  }

  /** A delivered entry is not in the log yet: its only slot was still free. */
  lemma DeliveredIsNew(w: World, m: Message)
    requires Begins(w) && m in w.wire && |w.log| == m.head
    ensures m.id !in w.log
  {
  }

  lemma AppliedBound(w: World)
    requires LogRecorded(w)
    ensures w.rows.applied <= |w.log|
  {
  }

  lemma SameLogRecorded(a: World, b: World)
    requires LogRecorded(a) && a.log == b.log && a.rows.recorded == b.rows.recorded && a.rows.applied == b.rows.applied
    ensures LogRecorded(b)
  {
  }

  /** A committed attempt's slot is the next one to apply. */
  lemma CommitAtFrontier(w: World)
    requires Inv(w) && Enabled(w, SettleCommit)
    ensures w.attempt.value.head == w.rows.applied < |w.log|
  {
    var a := w.attempt.value;
    AppliedIsRecorded(w, a.head);
  }

  lemma AppliedIsRecorded(w: World, i: nat)
    requires LogRecorded(w) && i < |w.log|
    ensures w.rows.applied <= |w.log| && (i < w.rows.applied ==> w.log[i] in w.rows.recorded)
  {
  }

  lemma NextRecorded(w: World, e: Event)
    requires Inv(w) && Enabled(w, e)
    ensures LogRecorded(Next(w, e))
  {
    hide LogRecorded, Outrun, Fresh, Inv;
    assert LogRecorded(w) && Begins(w) by { InvParts(w); }
    hide Begins;
    match e {
      case Deliver(m) => if |w.log| == m.head { DeliveredIsNew(w, m); AppendKeeps(w, m.id); }
      case Foreign(id) => FreshIsNew(w, id); AppendKeeps(w, id);
      case ApplyNext =>
        RecordsNext(w, w.rows.applied + 1);
      case SettleCommit =>
        CommitAtFrontier(w);
        RecordsNext(w, w.rows.applied + 1);
        SameLogRecorded(w.(rows := Recorded(w.rows, w.log[w.rows.applied], w.rows.applied + 1)), Next(w, e));
      case _ => SameLogRecorded(w, Next(w, e));
    }
  }

  lemma InvParts(w: World)
    requires Inv(w)
    ensures LogRecorded(w) && Begins(w) && Covered(w) && AttemptOpen(w)
  {
  }

  lemma FreshIsNew(w: World, id: string)
    requires Fresh(w, id)
    ensures id !in w.log && id !in w.started && id !in w.rows.recorded
  {
  }

  lemma NextBeginRows(w: World, e: Event)
    requires Begins(w) && Enabled(w, e)
    ensures BeginRows(Next(w, e))
  {
    hide BeginLog;
  }

  lemma NextBeginLog(w: World, e: Event)
    requires Begins(w) && Enabled(w, e)
    ensures BeginLog(Next(w, e))
  {
    hide Outrun, Recorded, Dropped, Begun;
    match e {
      case Deliver(m) =>
      case Foreign(id) =>
      case Start(id) =>
      case Send =>
      case _ => SameBeginLog(w, Next(w, e));
    }
  }

  lemma SameBeginLog(a: World, b: World)
    requires BeginLog(a) && b.log == a.log && b.wire == a.wire && b.started == a.started
    ensures BeginLog(b)
  {
  }

  lemma NextBegins(w: World, e: Event)
    requires Inv(w) && Enabled(w, e)
    ensures Begins(Next(w, e))
  {
    hide LogRecorded, Covered, AttemptOpen, BeginRows, BeginLog, Next;
    NextBeginRows(w, e);
    NextBeginLog(w, e);
  }

  lemma NextAttempt(w: World, e: Event)
    requires Inv(w) && Enabled(w, e)
    ensures AttemptOpen(Next(w, e))
  {
    hide LogRecorded, Covered, Inv, Outrun;
    InvParts(w);
  }

  /** Recording the next entry drops only rows whose slot is thereby known to be filled. */
  lemma OutrunCovered(w: World, id: string)
    requires Inv(w) && w.rows.applied < |w.log| && id in w.started
    requires id in w.rows.pending && id !in Recorded(w.rows, w.log[w.rows.applied], w.rows.applied + 1).pending
    ensures w.started[id] < |w.log|
    ensures Landed(w, id, w.started[id]) ==> id in Recorded(w.rows, w.log[w.rows.applied], w.rows.applied + 1).recorded
  {
    assert w.rows.pending[id] == w.started[id];
  }

  lemma NextCovered(w: World, e: Event)
    requires Inv(w) && Enabled(w, e)
    ensures Covered(Next(w, e))
  {
    InvParts(w);
    var n := Next(w, e);
    NextBegins(w, e);
    hide Inv, Next, Begins, LogRecorded, AttemptOpen;
    forall id | id in n.started ensures CoveredFor(n, id) {
      OneCovered(w, e, id);
    }
  }

  ghost predicate CoveredFor(w: World, id: string)
    requires id in w.started
  {
    && ((OnWire(w, id, w.started[id]) || InFlight(w, id)) && |w.log| <= w.started[id] ==> id in w.rows.pending)
    && (Landed(w, id, w.started[id]) && id !in w.rows.recorded ==> id in w.rows.pending)
  }

  ghost predicate StartedCovered(w: World, id: string) { id in w.started && CoveredFor(w, id) }

  lemma OneCovered(w: World, e: Event, id: string)
    requires Inv(w) && Enabled(w, e) && id in Next(w, e).started
    ensures CoveredFor(Next(w, e), id)
  {
    hide LogRecorded, Inv, Begins, Covered, AttemptOpen, CoveredFor, Next, Enabled;
    InvParts(w);
    CoveredEach(w);
    WasStarted(w, e, id);
    match e {
      case ApplyNext => ApplyCovered(w, id);
      case SettleCommit => CommitCovered(w, id);
      case Start(other) => StartCovered(w, other, id);
      case Deliver(m) => DeliverCovered(w, m, id);
      case Foreign(other) => ForeignCovered(w, other, id);
      case GiveUp => GiveUpCovered(w, id);
      case Send => SendCovered(w, id);
      case _ => QuietCovered(w, e, id);
    }
  }

  lemma CoveredEach(w: World)
    requires Covered(w)
    ensures forall id :: id in w.started ==> CoveredFor(w, id)
  {
  }

  lemma WasStarted(w: World, e: Event, id: string)
    requires Enabled(w, e) && id in Next(w, e).started
    ensures id in w.started || e == Start(id)
  {
    hide Recorded, Dropped, Begun, Fresh;
  }

  lemma StartCovered(w: World, other: string, id: string)
    requires Enabled(w, Start(other)) && LogRecorded(w) && Begins(w)
    requires id == other || StartedCovered(w, id)
    ensures CoveredFor(Next(w, Start(other)), id)
  {
    AppliedBound(w);
    FreshIsNew(w, other);
    hide LogRecorded, BeginLog, Fresh;
    assert !OnWire(w, other, w.rows.applied);
  }

  lemma ForeignCovered(w: World, other: string, id: string)
    requires Enabled(w, Foreign(other)) && StartedCovered(w, id)
    ensures CoveredFor(Next(w, Foreign(other)), id)
  {
    FreshIsNew(w, other);
    hide Fresh;
  }

  /** Marking, losing the reply and crashing touch neither the rows nor the log. */
  lemma QuietCovered(w: World, e: Event, id: string)
    requires Enabled(w, e) && (e.MarkSent? || e.Ambiguous? || e.Crash?) && StartedCovered(w, id)
    ensures CoveredFor(Next(w, e), id)
  {
    hide Recorded, Dropped, Begun, Fresh;
  }

  lemma DeliverCovered(w: World, m: Message, id: string)
    requires Begins(w) && StartedCovered(w, id) && Enabled(w, Deliver(m))
    ensures CoveredFor(Next(w, Deliver(m)), id)
  {
    hide Fresh, Recorded, Dropped, Begun;
  }

  lemma GiveUpCovered(w: World, id: string)
    requires Begins(w) && StartedCovered(w, id) && Enabled(w, GiveUp)
    ensures CoveredFor(Next(w, GiveUp), id)
  {
    hide Fresh, Recorded, Begun;
  }

  lemma SendCovered(w: World, id: string)
    requires Begins(w) && StartedCovered(w, id) && Enabled(w, Send)
    ensures CoveredFor(Next(w, Send), id)
  {
    hide Fresh, Recorded, Dropped, Begun;
  }

  lemma ApplyCovered(w: World, id: string)
    requires Inv(w) && id in w.started && Enabled(w, ApplyNext)
    ensures CoveredFor(Next(w, ApplyNext), id)
  {
    hide Inv, Recorded, Fresh;
    AppliedCovered(w, id);
  }

  lemma CommitCovered(w: World, id: string)
    requires Inv(w) && id in w.started && Enabled(w, SettleCommit)
    ensures CoveredFor(Next(w, SettleCommit), id)
  {
    hide Inv, LogRecorded, Begins, Covered, AttemptOpen, Fresh, Recorded;
    CommitAtFrontier(w);
    AppliedCovered(w, id);
    CommitRecords(w);
    AttemptIsSlot(w, id);
  }

  /** Another entry's slot is not where this attempt's entry landed. */
  lemma AttemptIsSlot(w: World, id: string)
    requires Inv(w) && w.attempt.Some? && id in w.started
    ensures w.attempt.value.id in w.started && w.started[w.attempt.value.id] == w.attempt.value.head
  {
    hide LogRecorded, BeginLog, Covered, AttemptOpen;
  }

  lemma CommitRecords(w: World)
    requires Enabled(w, SettleCommit)
    ensures w.attempt.value.id in Recorded(w.rows, w.attempt.value.id, w.attempt.value.head + 1).recorded
  {
  }

  /** The rows left after recording the next entry still cover everything open. */
  lemma AppliedCovered(w: World, id: string)
    requires Inv(w) && w.rows.applied < |w.log| && id in w.started
    ensures var (r, head) := (Recorded(w.rows, w.log[w.rows.applied], w.rows.applied + 1), w.started[id]);
      && ((OnWire(w, id, head) || InFlight(w, id)) && |w.log| <= head ==> id in r.pending)
      && (Landed(w, id, head) && id !in r.recorded ==> id in r.pending)
  {
    hide LogRecorded, Inv, Begins;
    InvParts(w);
    if id in w.rows.pending && id !in Recorded(w.rows, w.log[w.rows.applied], w.rows.applied + 1).pending {
      OutrunCovered(w, id);
    }
  }

  lemma NextInv(w: World, e: Event)
    requires Inv(w) && Enabled(w, e)
    ensures Inv(Next(w, e))
  {
    hide LogRecorded, Begins, Covered, AttemptOpen, Next;
    NextRecorded(w, e);
    NextBegins(w, e);
    NextCovered(w, e);
    NextAttempt(w, e);
  }

  lemma {:induction false} RunInv(events: seq<Event>)
    ensures Inv(Run(BLANK, events))
  {
    hide Inv, Next, Enabled;
    if events == [] {
      BlankInv();
    } else {
      var before := Run(BLANK, events[..|events| - 1]);
      RunInv(events[..|events| - 1]);
      if Enabled(before, events[|events| - 1]) { NextInv(before, events[|events| - 1]); }
    }
  }

  lemma BlankInv()
    ensures Inv(BLANK)
  {
  }

  // -------------------------------------------------------------- theorems

  /**
   * With lost replies, late and repeated delivery and crashes at any point: an
   * entry that may still land, or landed without being recorded, has its
   * pending row; and a begun attempt without a row is settled.
   */
  lemma OpenEntriesHaveRows(events: seq<Event>, w: World, id: string)
    requires w == Run(BLANK, events) && id in w.started
    ensures (OnWire(w, id, w.started[id]) || InFlight(w, id)) && |w.log| <= w.started[id] ==> id in w.rows.pending
    ensures Landed(w, id, w.started[id]) && id !in w.rows.recorded ==> id in w.rows.pending
    ensures id !in w.rows.pending ==> Settled(w, id)
  {
    hide Run, LogRecorded, AttemptOpen, Begins;
    RunInv(events);
    if id !in w.rows.pending { UncoveredSettled(w, id); }
  }

  ghost predicate RecordedRight(w: World, id: string) {
    id in w.rows.recorded && 1 <= w.rows.recorded[id] <= |w.log| && w.log[w.rows.recorded[id] - 1] == id
  }

  lemma RecordedStays(w: World, e: Event, id: string)
    requires Inv(w) && Enabled(w, e) && RecordedRight(w, id)
    ensures RecordedRight(Next(w, e), id)
  {
    hide Inv, LogRecorded, Begins, Covered, AttemptOpen, Next, Fresh;
    InvParts(w);
    if e.ApplyNext? || e.SettleCommit? {
      if e.SettleCommit? { CommitAtFrontier(w); }
      RecordedApart(w, id);
      OneMoreRecorded(w, e);
    } else {
      NoneRecorded(w, e);
    }
  }

  lemma OneMoreRecorded(w: World, e: Event)
    requires Enabled(w, e) && w.rows.applied < |w.log|
    requires e.ApplyNext? || (e.SettleCommit? && w.attempt.value.head == w.rows.applied)
    ensures Next(w, e).log == w.log && Next(w, e).rows.recorded == w.rows.recorded[w.log[w.rows.applied] := w.rows.applied + 1]
  {
    hide Outrun, Fresh;
  }

  lemma NoneRecorded(w: World, e: Event)
    requires Enabled(w, e) && !e.ApplyNext? && !e.SettleCommit?
    ensures w.log <= Next(w, e).log && Next(w, e).rows.recorded == w.rows.recorded
  {
    hide Outrun, Fresh, Recorded;
  }

  lemma RecordedApart(w: World, id: string)
    requires LogRecorded(w) && w.rows.applied < |w.log| && id in w.rows.recorded
    ensures w.log[w.rows.applied] != id
  {
  }

  /** Settled is for good: no later step can open such an entry again. */
  lemma StaysSettled(w: World, e: Event, id: string)
    requires Inv(w) && Enabled(w, e) && id in w.started && Settled(w, id)
    ensures id in Next(w, e).started && Settled(Next(w, e), id)
  {
    hide Outrun, LogRecorded, Begins, Covered, AttemptOpen, Recorded, Dropped, Begun;
    StartedKept(w, e, id);
    if RecordedRight(w, id) {
      hide Next;
      RecordedStays(w, e, id);
    }
  }

  lemma StartedKept(w: World, e: Event, id: string)
    requires Enabled(w, e) && id in w.started
    ensures id in Next(w, e).started && Next(w, e).started[id] == w.started[id]
  {
    hide Recorded, Dropped;
  }

  /** A step removes a row only when it leaves the entry settled. */
  lemma RowsLeaveSettled(w: World, e: Event, id: string)
    requires Inv(w) && Enabled(w, e) && id in w.rows.pending && id !in Next(w, e).rows.pending
    ensures id in Next(w, e).started && Settled(Next(w, e), id)
  {
    hide LogRecorded, Covered, AttemptOpen, Next, Outrun;
    NextInv(w, e);
    StartedGrows(w, e, id);
    hide Begins;
    UncoveredSettled(Next(w, e), id);
  }

  lemma StartedGrows(w: World, e: Event, id: string)
    requires Begins(w) && Enabled(w, e) && id in w.rows.pending
    ensures id in Next(w, e).started
  {
  }

  lemma UncoveredSettled(w: World, id: string)
    requires Inv(w) && id in w.started && id !in w.rows.pending
    ensures Settled(w, id)
  {
  }

  // ------------------------------------------------ what is left, exactly

  /** Something of the attempt may have reached the log when it failed: it says so, or its commit was lost. */
  ghost predicate MayHaveSent(op: Operation, commits: bool) {
    op.Settles? && (if op.settlement.Commit? then !commits else op.settlement.sent)
  }

  /**
   * The rows after one whole attempt. A success with an entry records it, moves
   * the applied position there and keeps only the attempts that expect that
   * position or a later one; any other end leaves the rows as they were, but
   * for the attempt's own row when something may have been sent.
   */
  lemma AttemptMeans(r: Rows, id: string, head: nat, op: Operation, commits: bool)
    requires id !in r.pending
    ensures var n := Attempted(r, id, head, op, commits);
      if op.Settles? && op.settlement.Commit? && commits then
        var position := op.settlement.position;
        && n.applied == position && n.recorded == r.recorded[id := position] && id !in n.pending
        && (forall o :: o != id ==> (o in n.pending <==> o in r.pending && r.pending[o] >= position))
        && (forall o :: o in n.pending ==> n.pending[o] == r.pending[o])
      else if MayHaveSent(op, commits) then n == Rows(r.pending[id := head], r.recorded, r.applied)
      else n == r
  {
    assert r.pending[id := head] - {id} == r.pending;
  }

  /** Nothing lingers: a row is only kept while its slot has not been applied. */
  ghost predicate NoneLingers(w: World) { forall id :: id in w.rows.pending ==> w.rows.pending[id] >= w.rows.applied }

  lemma NextLingers(w: World, e: Event)
    requires Inv(w) && Enabled(w, e) && NoneLingers(w)
    ensures NoneLingers(Next(w, e))
  {
    hide LogRecorded, Begins, Covered, AttemptOpen, Inv;
    if e.SettleCommit? { CommitAtFrontier(w); }
  }

  /** In every reachable state a row is only kept while its slot has not been applied. */
  lemma {:induction false} RowsNeverLinger(events: seq<Event>)
    ensures NoneLingers(Run(BLANK, events))
  {
    hide Inv, Next, Enabled;
    if events != [] {
      var before := Run(BLANK, events[..|events| - 1]);
      RowsNeverLinger(events[..|events| - 1]);
      RunInv(events[..|events| - 1]);
      if Enabled(before, events[|events| - 1]) { NextLingers(before, events[|events| - 1]); }
    }
  }

  /** Begin, hand over, send, and have the request delivered. */
  function Delivered(w: World, id: string): seq<Event> { [Start(id), MarkSent, Send, Deliver(Message(id, w.rows.applied))] }

  lemma {:induction false} RunJoins(w: World, a: seq<Event>, b: seq<Event>)
    ensures Run(w, a + b) == Run(Run(w, a), b)
  {
    hide Step;
    if b == [] {
      assert a + b == a;
    } else {
      RunJoins(w, a, b[..|b| - 1]);
      assert (a + b)[..|a + b| - 1] == a + b[..|b| - 1];
    }
  }

  lemma RunOne(w: World, e: Event)
    ensures Run(w, [e]) == Step(w, e)
  {
    assert [e][..0] == [];
    hide Step;
  }

  lemma RunDelivered(w: World, id: string)
    requires Inv(w) && w.attempt.None? && Fresh(w, id) && w.rows.applied == |w.log|
    ensures var n := Run(w, Delivered(w, id));
      && n.log == w.log + [id] && n.attempt == Some(Attempt(id, |w.log|, true))
      && n.rows == Rows(w.rows.pending[id := |w.log|], w.rows.recorded, |w.log|)
  {
    hide LogRecorded, Begins, Covered, AttemptOpen, Inv;
    var head := |w.log|;
    var a := Step(w, Start(id));
    var b := Step(a, MarkSent);
    var c := Step(b, Send);
    assert Delivered(w, id) == (([Start(id)] + [MarkSent]) + [Send]) + [Deliver(Message(id, head))];
    RunJoins(w, ([Start(id)] + [MarkSent]) + [Send], [Deliver(Message(id, head))]);
    RunJoins(w, [Start(id)] + [MarkSent], [Send]);
    RunJoins(w, [Start(id)], [MarkSent]);
    RunOne(w, Start(id));
    RunOne(a, MarkSent);
    RunOne(b, Send);
    RunOne(c, Deliver(Message(id, head)));
  }

  /**
   * A request that is delivered lands in the slot it asked for. Whether its
   * reply comes back, or is lost in a crash and the entry is found when the log
   * is read, the same rows are left: recorded there, and no longer pending.
   */
  lemma LostReplyIsRecovered(w: World, id: string)
    requires Inv(w) && w.attempt.None? && Fresh(w, id) && w.rows.applied == |w.log|
    ensures var (told, read) := (Run(w, Delivered(w, id) + [SettleCommit]), Run(w, Delivered(w, id) + [Crash, ApplyNext]));
      && told.log == read.log == w.log + [id] && told.attempt.None? && read.attempt.None?
      && told.rows == read.rows
      && told.rows.applied == |w.log| + 1 && told.rows.recorded == w.rows.recorded[id := |w.log| + 1] && id !in told.rows.pending
  {
    hide LogRecorded, Begins, Covered, AttemptOpen, Inv, Delivered, Run, Fresh, Step, Recorded;
    RunDelivered(w, id);
    var n := Run(w, Delivered(w, id));
    BothEnd(n, id);
    RunJoins(w, Delivered(w, id), [SettleCommit]);
    RunJoins(w, Delivered(w, id), [Crash, ApplyNext]);
    assert [Crash, ApplyNext] == [Crash] + [ApplyNext];
    RunJoins(n, [Crash], [ApplyNext]);
    RunOne(n, SettleCommit);
    RunOne(n, Crash);
    RunOne(Step(n, Crash), ApplyNext);
  }

  lemma BothEnd(n: World, id: string)
    requires n.log != [] && n.log[|n.log| - 1] == id && n.rows.applied == |n.log| - 1 && n.attempt == Some(Attempt(id, |n.log| - 1, true))
    requires id in n.rows.pending && n.rows.pending[id] == |n.log| - 1
    ensures var (told, read) := (Step(n, SettleCommit), Step(Step(n, Crash), ApplyNext));
      && told.log == read.log == n.log && told.attempt.None? && read.attempt.None? && told.rows == read.rows
      && told.rows.applied == |n.log| && told.rows.recorded == n.rows.recorded[id := |n.log|] && id !in told.rows.pending
  {
    var r := Recorded(n.rows, id, |n.log|);
    assert r.pending - {id} == r.pending;
  }

  // ------------------------------------------- the attempt as protocol steps

  /**
   * Uninterrupted, `SharedAttempt` leaves the rows its protocol steps leave:
   * begin, and then give up, stay ambiguous, or commit in whatever state the
   * log and the wire are by then. A commit that is lost with the operation's
   * transaction is ambiguous too: the entry is in the log, its row stays.
   */
  lemma AttemptIsSteps(w: World, id: string, op: Operation, commits: bool, c: World)
    requires Inv(w) && Enabled(w, Start(id))
    requires c.rows == Next(w, Start(id)).rows && c.attempt == Some(Attempt(id, w.rows.applied, true))
    requires op.Settles? && op.settlement.Commit? ==> op.settlement.position == w.rows.applied + 1
    ensures id !in w.rows.pending
    ensures var (begun, rows) := (Next(w, Start(id)), Attempted(w.rows, id, w.rows.applied, op, commits));
      match op
      case Settles(Commit(_)) =>
        if commits then Enabled(c, SettleCommit) ==> Next(c, SettleCommit).rows == rows else Next(c, Ambiguous).rows == rows
      case Settles(Rollback(true)) => Next(c, Ambiguous).rows == rows
      case _ => Enabled(begun, GiveUp) && Next(begun, GiveUp).rows == rows
  {
    hide Outrun, LogRecorded, Covered;
  }
}
