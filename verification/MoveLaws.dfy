/** What each write to the moves does: when it is accepted, the row it leaves, and why it is refused. */
module MoveLaws {
  import opened Prelude
  import opened Refs
  import opened SessionTables
  import opened MoveTables

  /** An open row of the agent, other than the row of this cut. */
  ghost predicate OtherOpen(m: Moves, agent: string, cut: string) {
    exists c :: c in m && c != cut && m[c].agent == agent && m[c].step !in {Released, Aborted, Done, TakenOver}
  }

  ghost predicate OtherHasKey(m: Moves, key: Option<string>, cut: string) {
    exists c :: c in m && c != cut && key.Some? && m[c].requestKey == key
  }

  /** The table takes a row exactly when no other row is open for the same agent, unless this one is finished, or has its request key. */
  lemma WriteMeans(m: Moves, row: AgentMove)
    ensures WriteAllowed(m, row)
       <==> (row.step !in {Released, Aborted, Done, TakenOver} ==> !OtherOpen(m, row.agent, row.cut)) && !OtherHasKey(m, row.requestKey, row.cut)
    ensures Write(m, row) == if WriteAllowed(m, row) then (m[row.cut := row], Ok(row)) else (m, Err(MoveStorageError))
  {
  }

  // ------------------------------------------------------------- admissions

  /** Open moves are those not released, aborted, done or taken over. */
  lemma OpenMeans(m: Moves, c: string)
    ensures c in OpenMoves(m) <==> c in m && m[c].step !in {Released, Aborted, Done, TakenOver}
  {
  }

  ghost predicate AgentFree(m: Moves, agent: string) { forall c :: c in OpenMoves(m) ==> m[c].agent != agent }

  ghost predicate WellAsked(row: AgentMove) {
    row.side == Source && row.step == Preparing && row.requestKey.Some? && row.requestBody.Some?
  }

  ghost predicate Repeats(m: Moves, row: AgentMove) { exists c :: c in m && row.requestKey.Some? && m[c].requestKey == row.requestKey }

  /**
   * A new source move is admitted exactly when the live references and the pin
   * digest are the ones checked, there are at most 256 of them, the agent has
   * no open move, fewer than four moves are open and the cut is new; its row
   * is then the only change. A refusal names the first condition missed, and a
   * repeated request key only ever returns the row it first admitted.
   */
  lemma AdmitSourceMeans(m: Moves, live: set<Ref>, digest: Option<string>, row: AgentMove, checked: set<Ref>)
    requires Indexed(m)
    ensures var (after, r) := AdmitSource(m, live, digest, row, checked);
      && (WellAsked(row) && Repeats(m, row) ==>
            after == m && forall c :: c in m && m[c].requestKey == row.requestKey ==>
              r == if m[c].requestBody == row.requestBody then Ok(m[c]) else Err(RequestKeyReused))
      && (WellAsked(row) && !Repeats(m, row) ==>
            (r.Ok? <==> live == checked && |checked| <= 256 && row.pinDigest == digest
                        && AgentFree(m, row.agent) && |OpenMoves(m)| < 4 && row.cut !in m))
      && (!WellAsked(row) ==> r == Err(InvalidMove))
      && (r.Ok? && !Repeats(m, row) ==> r.value == row && after == m[row.cut := row])
      && (r.Err? ==> after == m && match r.error
            case InvalidMove => !WellAsked(row)
            case RequestKeyReused => Repeats(m, row)
            case AgentBusy => !Repeats(m, row) && (live != checked || (|checked| <= 256 && row.pinDigest != digest))
            case LiveRefCap => !Repeats(m, row) && live == checked && |checked| > 256
            case MoveInProgress(c) => c in OpenMoves(m) && m[c].agent == row.agent && live == checked && |checked| <= 256 && row.pinDigest == digest
            case MoveCap => AgentFree(m, row.agent) && |OpenMoves(m)| >= 4 && live == checked && |checked| <= 256 && row.pinDigest == digest
            case MoveStorageError => AgentFree(m, row.agent) && |OpenMoves(m)| < 4 && row.cut in m
            case _ => false)
  {
    SlotMeans(m, row.agent);
    hide SlotRefusal, OpenMoves;
    if Repeats(m, row) {
      var c :| c in m && m[c].requestKey == row.requestKey;
      assert HasKey(m, row.requestKey, c);
      forall d | HasKey(m, row.requestKey, d) ensures d == c {
      }
    }
    hide Indexed;
    if WellAsked(row) && !Repeats(m, row) && AgentFree(m, row.agent) { FreshAllowed(m, row); }
  }

  lemma SlotMeans(m: Moves, agent: string)
    ensures var r := SlotRefusal(m, agent);
      && (r.None? <==> AgentFree(m, agent) && |OpenMoves(m)| < 4)
      && (r.Some? ==> if AgentFree(m, agent) then r.value == MoveCap
                      else r.value.MoveInProgress? && r.value.cut in OpenMoves(m) && m[r.value.cut].agent == agent)
  {
    if AgentOpen(m, agent) { assert OpenOf(m, agent) in OpenMoves(m); }
    if !AgentFree(m, agent) {
      var c :| c in OpenMoves(m) && m[c].agent == agent;
      assert AgentOpen(m, agent);
    }
  }

  lemma FreshAllowed(m: Moves, row: AgentMove)
    requires AgentFree(m, row.agent) && !Repeats(m, row)
    ensures WriteAllowed(m, row)
  {
    forall c | c in m && m[c].Open() ensures m[c].agent != row.agent {
      assert c in OpenMoves(m);
    }
  }

  /** The receiving machine admits a picked-up or already aborted move once; asked again, it answers with the stored row. */
  lemma AdmitReceivedMeans(m: Moves, row: AgentMove)
    requires Indexed(m)
    ensures var (after, r) := AdmitReceived(m, row);
      var asked := row.side == Receiver && (row.step == PickedUp || row.step == Aborted);
      && (asked && row.cut in m ==> after == m && r == Ok(m[row.cut]))
      && (asked && row.cut !in m ==>
            (r.Ok? <==> AgentFree(m, row.agent) && |OpenMoves(m)| < 4 && !OtherHasKey(m, row.requestKey, row.cut)))
      && (r.Ok? && row.cut !in m ==> r.value == row && after == m[row.cut := row])
      && (r.Err? ==> after == m && match r.error
            case InvalidMove => !asked
            case MoveInProgress(c) => asked && c in OpenMoves(m) && m[c].agent == row.agent
            case MoveCap => asked && AgentFree(m, row.agent) && |OpenMoves(m)| >= 4
            case MoveStorageError => asked && OtherHasKey(m, row.requestKey, row.cut)
            case _ => false)
  {
    SlotMeans(m, row.agent);
    hide SlotRefusal, OpenMoves, Indexed, WriteAllowed;
    if row.cut !in m && AgentFree(m, row.agent) { KeyDecides(m, row); }
  }

  lemma KeyDecides(m: Moves, row: AgentMove)
    requires AgentFree(m, row.agent)
    ensures WriteAllowed(m, row) <==> !OtherHasKey(m, row.requestKey, row.cut)
  {
    forall c | c in m && m[c].Open() ensures m[c].agent != row.agent {
      assert c in OpenMoves(m);
    }
  }

  // ------------------------------------------------------------ checkpoints

  /** An aborted source that sealed the agent's data and was not refused: its claim has to be released. */
  ghost predicate OwesRelease(row: AgentMove) {
    row.side == Source && row.step == Aborted && row.sealSent && !row.sealRefused
  }

  /** A claimed move whose abort was accepted is not moved on to activating. */
  ghost predicate HeldBack(stored: AgentMove, row: AgentMove) {
    stored.step == Claimed && stored.abort.Some? && row.step == Activating
  }

  /**
   * What a checkpoint leaves of a driver's row: the stored deliveries and an
   * uncleared abort stay, everything else is as saved, and a source that owes
   * a release has one from then on.
   */
  lemma CheckpointMeans(m: Moves, row: AgentMove, clear: bool)
    requires row.cut in m && m[row.cut].cut == row.cut
    ensures var ((after, r), stored) := (Checkpoint(m, row, clear), m[row.cut]);
      && (HeldBack(stored, row) ==> after == m && r == Ok(stored))
      && (!HeldBack(stored, row) ==>
            && (r.Ok? <==> (row.step !in {Released, Aborted, Done, TakenOver} ==> !OtherOpen(m, row.agent, row.cut))
                           && !OtherHasKey(m, row.requestKey, row.cut))
            && (r.Ok? ==>
                  && after == m[row.cut := r.value]
                  && r.value == row.(abort := r.value.abort, accept := stored.accept, release := r.value.release)
                  && (clear ==> r.value.abort.None?)
                  && (!clear ==> r.value.abort == if stored.abort.Some? then stored.abort else row.abort)
                  && (stored.release.Some? ==> r.value.release == stored.release)
                  && (stored.release.None? && OwesRelease(row) ==> r.value.release == Some(Delivery("pending", 0, 0)))
                  && (stored.release.None? && !OwesRelease(row) ==> r.value.release == row.release)))
      && (r.Err? ==> after == m && r.error == MoveStorageError)
  {
    hide WriteAllowed;
    WriteMeans(m, Checkpointed(m[row.cut], row, clear));
  }

  /** An aborted source whose seal was sent and not refused never goes without a release. */
  lemma CheckpointLeavesRelease(m: Moves, row: AgentMove, clear: bool)
    requires row.cut in m && m[row.cut].cut == row.cut && OwesRelease(row) && Checkpoint(m, row, clear).1.Ok?
    ensures var after := Checkpoint(m, row, clear).0[row.cut];
      after.release == if m[row.cut].release.Some? then m[row.cut].release else Some(PENDING)
  {
    hide WriteAllowed;
  }

  ghost predicate ReleasesKept(m: Moves) { forall c :: c in m && OwesRelease(m[c]) ==> m[c].release.Some? }

  // ----------------------------------------------------------------- aborts

  /** Before its boundary a move can still be called back: a source until it is releasing, a receiver until it is activating. */
  ghost predicate CanCallBack(row: AgentMove) {
    if row.side == Source then row.step in {Preparing, Exported, Sealed, Published} else row.step in {PickedUp, Imported, Staged, Claimed}
  }

  /**
   * An operator's abort is accepted exactly before the boundary, or when the
   * move is aborted already. The first one is recorded as the operator's; one
   * that finds its cleanup held asks for a retry and keeps its reason; any
   * other repeat, and every refusal, changes nothing.
   */
  lemma AbortMeans(m: Moves, cut: string, now: int)
    requires Indexed(m)
    ensures var (after, r) := RequestAbort(m, cut, now);
      && (r.Ok? <==> cut in m && (m[cut].step == Aborted || CanCallBack(m[cut])))
      && (r.Err? ==> after == m && r.error == if cut in m then InvalidState else MoveStorageError)
      && (r.Ok? ==>
            var row := m[cut];
            && after == m[cut := r.value]
            && r.value == if row.step == Aborted || (row.abort.Some? && !row.held) then row
                          else row.(updatedAt := now, abort := Some(AbortRequest(if row.abort.Some? then row.abort.value.reason else "operator", row.abort.Some?))))
  {
    if cut in m {
      RowOfCut(m, cut);
      SameIdentityAllowed(m, AbortedRow(m[cut], now));
    }
    hide Indexed, WriteAllowed;
  }

  /** The driver takes a requested retry up once, and touches nothing else. */
  lemma RetryMeans(m: Moves, cut: string)
    ensures var (after, r) := ConsumeRetry(m, cut);
      var asked := cut in m && m[cut].abort.Some? && m[cut].abort.value.retryPending;
      && (r == Ok(true) <==> asked)
      && (asked ==> after == m[cut := m[cut].(abort := Some(AbortRequest(m[cut].abort.value.reason, false)))])
      && (!asked ==> after == m && r == if cut in m then Ok(false) else Err(MoveStorageError))
  {
  }

  // ------------------------------------------------ activation, deliveries

  ghost predicate BoundElsewhere(t: Tables, refs: seq<Ref>, agent: string) {
    exists i :: 0 <= i < |refs| && refs[i] in t.bindings && t.bindings[refs[i]].agent != agent
  }

  /** An activation is let through exactly from the stored activating receiver row, for references no other agent holds here. */
  lemma ActivationMeans(m: Moves, t: Tables, row: AgentMove, refs: seq<Ref>)
    ensures var e := ActivationRefusal(m, t, row, refs);
      var ready := row.cut in m && m[row.cut].side == Receiver && m[row.cut].step == Activating && row.step == Activated && row.activatedAt.Some?;
      && (e.None? <==> ready && !BoundElsewhere(t, refs, row.agent))
      && (row.cut !in m ==> e == Some(MoveStorageError))
      && (row.cut in m && !ready ==> e == Some(InvalidState))
      && (ready && BoundElsewhere(t, refs, row.agent) ==> e == Some(IncomingRefBoundElsewhere))
    ensures row.cut in m ==>
      ActivatedRow(m[row.cut], row)
      == row.(abort := m[row.cut].abort, accept := Some(Delivery("pending", 0, 0)), release := Some(Delivery("pending", 0, 0)))
  {
    assert (exists r :: r in refs && r in t.bindings && t.bindings[r].agent != row.agent) <==> BoundElsewhere(t, refs, row.agent);
  }

  /** Progress of a background delivery is written to that move alone, and to that delivery alone. */
  lemma ProgressMeans(m: Moves, cut: string, delivery: Delivery, now: int)
    ensures cut in m ==> SetAccept(m, cut, delivery, now) == m[cut := m[cut].(accept := Some(delivery), updatedAt := now)]
    ensures cut in m ==> SetRelease(m, cut, delivery) == m[cut := m[cut].(release := Some(delivery))]
    ensures cut !in m ==> SetAccept(m, cut, delivery, now) == m && SetRelease(m, cut, delivery) == m
  {
  }
}
