/** The server's feed selection and the client's feed application. */
module StatusFeed {
  import opened Prelude
  import opened Catalog
  import opened Status

  datatype FeedMode = Full | After

  datatype NextStep = Done | FetchFullFeed

  datatype FeedRecord = FeedRecord(id: string, text: string, signature: string)

  datatype FeedReply = Unavailable | Records(feedSeq: nat, records: seq<FeedRecord>)

  datatype FeedState = FeedState(feedSeq: Option<nat>, held: map<string, Held>)

  datatype FeedOutcome = FeedOutcome(
    refusal: Option<StatusError>, records: seq<(string, Result<Apply, StatusError>)>, next: FeedState, step: NextStep)

  function Get<K, V>(m: map<K, V>, k: K): Option<V> { if k in m then Some(m[k]) else None }

  // ------------------------------------------------------------ the client

  /** One record against the holds so far: its key and the status to hold. */
  function ApplyRecord(o: Oracle, held: map<string, Held>, r: FeedRecord, chain: seq<StatusKey>, pins: map<string, Pin>)
    : Result<(Apply, string, Held), StatusError>
  {
    match Parse(o, r.text)
    case Err(e) => Err(e)
    case Ok((s, _)) =>
      var key := VersionKey(s.name, s.version);
      if key !in pins then Err(RecordMismatch)
      else
        match ApplyStatus(o, Get(held, key), r.text, r.signature, chain, pins[key])
        case Err(e) => Err(e)
        case Ok((result, next)) => Ok((result, key, next))
  }

  function HeldAfter(o: Oracle, held: map<string, Held>, rs: seq<FeedRecord>, chain: seq<StatusKey>, pins: map<string, Pin>): map<string, Held> {
    if rs == [] then held
    else
      var before := HeldAfter(o, held, rs[..|rs| - 1], chain, pins);
      match ApplyRecord(o, before, rs[|rs| - 1], chain, pins)
      case Err(_) => before
      case Ok((_, key, next)) => before[key := next]
  }

  function ResultsOf(o: Oracle, held: map<string, Held>, rs: seq<FeedRecord>, chain: seq<StatusKey>, pins: map<string, Pin>)
    : (out: seq<(string, Result<Apply, StatusError>)>)
    ensures |out| == |rs|
  {
    if rs == [] then []
    else
      var before := HeldAfter(o, held, rs[..|rs| - 1], chain, pins);
      var result: Result<Apply, StatusError> :=
        match ApplyRecord(o, before, rs[|rs| - 1], chain, pins) case Err(e) => Err(e) case Ok((a, _, _)) => Ok(a);
      ResultsOf(o, held, rs[..|rs| - 1], chain, pins) + [(rs[|rs| - 1].id, result)]
  }

  predicate AllOk(results: seq<(string, Result<Apply, StatusError>)>) {
    forall i :: 0 <= i < |results| ==> results[i].1.Ok?
  }

  predicate RolledBack(results: seq<(string, Result<Apply, StatusError>)>) {
    exists i :: 0 <= i < |results| && results[i].1.Err? && results[i].1.error.FeedRollback?
  }

  function Fallback(mode: FeedMode): NextStep { if mode == After then FetchFullFeed else Done }

  function FeedStep(o: Oracle, state: FeedState, mode: FeedMode, reply: FeedReply, chain: seq<StatusKey>, pins: map<string, Pin>): FeedOutcome {
    match reply
    case Unavailable => FeedOutcome(Some(FeedAfterUnavailable), [], state, Fallback(mode))
    case Records(feedSeq, records) =>
      if state.feedSeq.Some? && feedSeq < state.feedSeq.value then FeedOutcome(Some(FeedRollback(None)), [], state, Fallback(mode))
      else
        var results := ResultsOf(o, state.held, records, chain, pins);
        FeedOutcome(
          if RolledBack(results) then Some(FeedRollback(None)) else None,
          results,
          FeedState(if AllOk(results) then Some(feedSeq) else state.feedSeq, HeldAfter(o, state.held, records, chain, pins)),
          if RolledBack(results) then Fallback(mode) else Done)
  }

  method ApplyFeed(o: Oracle, state: FeedState, mode: FeedMode, reply: FeedReply, chain: seq<StatusKey>, pins: map<string, Pin>)
    returns (out: FeedOutcome)
    ensures out == FeedStep(o, state, mode, reply, chain, pins)
  {
    hide Parse, ApplyStatus, VersionKey;
    if reply.Unavailable? {
      return FeedOutcome(Some(FeedAfterUnavailable), [], state, Fallback(mode));
    }
    if state.feedSeq.Some? && reply.feedSeq < state.feedSeq.value {
      return FeedOutcome(Some(FeedRollback(None)), [], state, Fallback(mode));
    }
    var next := state;
    var results: seq<(string, Result<Apply, StatusError>)> := [];
    var rs := reply.records;
    for i := 0 to |rs|
      invariant next == FeedState(state.feedSeq, HeldAfter(o, state.held, rs[..i], chain, pins))
      invariant results == ResultsOf(o, state.held, rs[..i], chain, pins)
    {
      var r := rs[i];
      assert rs[..i + 1][..i] == rs[..i];
      var applied: Result<Apply, StatusError> := Err(RecordMismatch);
      match Parse(o, r.text) {
        case Err(e) => applied := Err(e);
        case Ok((s, _)) =>
          var key := VersionKey(s.name, s.version);
          if key in pins {
            match ApplyStatus(o, Get(next.held, key), r.text, r.signature, chain, pins[key]) {
              case Err(e) => applied := Err(e);
              case Ok((a, held)) =>
                next := next.(held := next.held[key := held]);
                applied := Ok(a);
            }
          }
      }
      results := results + [(r.id, applied)];
    }
    assert rs[..|rs|] == rs;
    if AllOk(results) {
      next := next.(feedSeq := Some(reply.feedSeq));
    }
    var rollback := RolledBack(results);
    return FeedOutcome(if rollback then Some(FeedRollback(None)) else None, results, next, if rollback then Fallback(mode) else Done);
  }

  /**
   * What a reply does as a whole. The cursor becomes the reply's exactly when
   * every record was accepted; one refused record leaves it where it was, and
   * an unavailable or older reply changes nothing at all. A full fetch comes
   * next exactly when a partial one was unavailable, older or rolled back.
   */
  lemma ReplyMeans(o: Oracle, state: FeedState, mode: FeedMode, reply: FeedReply, chain: seq<StatusKey>, pins: map<string, Pin>)
    ensures var out := FeedStep(o, state, mode, reply, chain, pins);
      var stale := reply.Records? && state.feedSeq.Some? && reply.feedSeq < state.feedSeq.value;
      var back := exists i :: 0 <= i < |out.records| && out.records[i].1.Err? && out.records[i].1.error.FeedRollback?;
      && (reply.Unavailable? || stale ==> out.next == state && out.records == [])
      && (reply.Records? && !stale ==> |out.records| == |reply.records|)
      && ((exists i :: 0 <= i < |out.records| && out.records[i].1.Err?) ==> out.next.feedSeq == state.feedSeq)
      && (reply.Records? && !stale && (forall i :: 0 <= i < |out.records| ==> out.records[i].1.Ok?) ==> out.next.feedSeq == Some(reply.feedSeq))
      && (out.refusal.Some? <==> reply.Unavailable? || stale || back)
      && (out.step == FetchFullFeed <==> mode == After && (reply.Unavailable? || stale || back))
  {
    hide ResultsOf, HeldAfter;
  }

  /** Each record answers for itself: it is held under its key when accepted, and leaves every hold alone when refused. */
  lemma RecordMeans(o: Oracle, state: FeedState, mode: FeedMode, reply: FeedReply, chain: seq<StatusKey>, pins: map<string, Pin>, i: nat)
    requires reply.Records? && !(state.feedSeq.Some? && reply.feedSeq < state.feedSeq.value) && i < |reply.records|
    ensures var out := FeedStep(o, state, mode, reply, chain, pins);
      var (before, after) := (HeldAfter(o, state.held, reply.records[..i], chain, pins), HeldAfter(o, state.held, reply.records[..i + 1], chain, pins));
      && i < |out.records| && out.records[i].0 == reply.records[i].id
      && (out.records[i].1.Err? ==> after == before)
      && (out.records[i].1.Ok? ==>
            && Parse(o, reply.records[i].text).Ok?
            && var s := Parse(o, reply.records[i].text).value.0;
               var key := VersionKey(s.name, s.version);
               && key in pins
               && var applied := ApplyStatus(o, Get(before, key), reply.records[i].text, reply.records[i].signature, chain, pins[key]);
                  applied.Ok? && after == before[key := applied.value.1])
      && (i + 1 == |reply.records| ==> out.next.held == after)
  {
    hide Parse, ApplyStatus, VersionKey;
    var (rs, n) := (reply.records, i + 1);
    assert rs[..n][..i] == rs[..i];
    assert i + 1 == |rs| ==> rs[..n] == rs;
    ResultAt(o, state.held, rs, chain, pins, i);
  }

  lemma {:induction false} ResultAt(o: Oracle, held: map<string, Held>, rs: seq<FeedRecord>, chain: seq<StatusKey>, pins: map<string, Pin>, i: nat)
    requires i < |rs|
    ensures var (result, applied) := (ResultsOf(o, held, rs, chain, pins)[i], ApplyRecord(o, HeldAfter(o, held, rs[..i], chain, pins), rs[i], chain, pins));
      result.0 == rs[i].id && (result.1.Ok? <==> applied.Ok?)
  {
    hide ApplyRecord, HeldAfter;
    if i + 1 < |rs| {
      ResultAt(o, held, rs[..|rs| - 1], chain, pins, i);
      assert rs[..|rs| - 1][..i] == rs[..i];
    }
  }

  // ----------------------------------------------------- safety over runs

  /** Every hold decodes from its own bytes and lies under its own version key. */
  ghost predicate Genuine(o: Oracle, held: map<string, Held>) {
    forall k :: k in held ==> Authentic(o, held[k]) && k == VersionKey(held[k].record.name, held[k].record.version)
  }

  /** No hold is lost and each one only moves forward. */
  ghost predicate HeldForward(a: map<string, Held>, b: map<string, Held>) {
    forall k :: k in a ==> k in b && Follows(a[k], b[k])
  }

  ghost predicate Forward(a: FeedState, b: FeedState) {
    && HeldForward(a.held, b.held)
    && (a.feedSeq.Some? ==> b.feedSeq.Some? && a.feedSeq.value <= b.feedSeq.value)
  }

  lemma ForwardTransitive(a: FeedState, b: FeedState, c: FeedState)
    requires Forward(a, b) && Forward(b, c)
    ensures Forward(a, c)
  {
    hide Follows;
    forall k | k in a.held ensures k in c.held && Follows(a.held[k], c.held[k]) {
      FollowsTransitive(a.held[k], b.held[k], c.held[k]);
    }
  }

  /** Holding `next` under its key, when it follows what was there. */
  lemma HoldNext(o: Oracle, held: map<string, Held>, key: string, next: Held)
    requires Genuine(o, held) && Authentic(o, next) && key == VersionKey(next.record.name, next.record.version)
    requires key in held ==> Follows(held[key], next)
    ensures Genuine(o, held[key := next]) && HeldForward(held, held[key := next])
  {
    hide VersionKey, Authentic;
  }

  lemma RecordForward(o: Oracle, held: map<string, Held>, r: FeedRecord, chain: seq<StatusKey>, pins: map<string, Pin>)
    requires Genuine(o, held) && ApplyRecord(o, held, r, chain, pins).Ok?
    ensures var (_, key, next) := ApplyRecord(o, held, r, chain, pins).value;
      Genuine(o, held[key := next]) && HeldForward(held, held[key := next])
  {
    hide VersionKey, ApplyStatus, Follows;
    var s := Parse(o, r.text).value.0;
    var key := VersionKey(s.name, s.version);
    ApplyFollows(o, Get(held, key), r.text, r.signature, chain, pins[key]);
    AppliedNames(o, Get(held, key), r.text, r.signature, chain, pins[key]);
    HoldNext(o, held, key, ApplyRecord(o, held, r, chain, pins).value.2);
  }

  /** The pin's name and version are the parsed ones, so the hold lies under the parsed key. */
  lemma AppliedNames(o: Oracle, held: Option<Held>, text: string, signature: string, chain: seq<StatusKey>, pin: Pin)
    requires ApplyStatus(o, held, text, signature, chain, pin).Ok?
    ensures Parse(o, text).Ok? && Parse(o, text).value.0.name == pin.name && Parse(o, text).value.0.version == pin.version
  {
    hide Parse, Position, Retirement;
  }

  lemma {:induction false} HeldAfterForward(o: Oracle, held: map<string, Held>, rs: seq<FeedRecord>, chain: seq<StatusKey>, pins: map<string, Pin>)
    requires Genuine(o, held)
    ensures Genuine(o, HeldAfter(o, held, rs, chain, pins)) && HeldForward(held, HeldAfter(o, held, rs, chain, pins))
  {
    hide ApplyRecord, Follows, Authentic, VersionKey;
    if rs != [] {
      var before := HeldAfter(o, held, rs[..|rs| - 1], chain, pins);
      HeldAfterForward(o, held, rs[..|rs| - 1], chain, pins);
      if ApplyRecord(o, before, rs[|rs| - 1], chain, pins).Ok? {
        RecordForward(o, before, rs[|rs| - 1], chain, pins);
        ForwardTransitive(FeedState(None, held), FeedState(None, before), FeedState(None, HeldAfter(o, held, rs, chain, pins)));
      }
    } else {
      assert forall k :: k in held ==> Follows(held[k], held[k]) by { FollowsSelf(held); }
    }
  }

  lemma FollowsSelf(held: map<string, Held>)
    ensures forall k :: k in held ==> Follows(held[k], held[k])
  {
  }

  /** Whatever can reach a client's holds: a feed reply, one signed status, or a bundle's initial status. */
  datatype Event =
    | Sync(mode: FeedMode, reply: FeedReply, chain: seq<StatusKey>, pins: map<string, Pin>)
    | Receive(text: string, signature: string, chain: seq<StatusKey>, pin: Pin)
    | Seed(text: string)

  function React(o: Oracle, s: FeedState, e: Event): FeedState {
    match e
    case Sync(mode, reply, chain, pins) => FeedStep(o, s, mode, reply, chain, pins).next
    case Receive(text, signature, chain, pin) => (
      var key := VersionKey(pin.name, pin.version);
      match ApplyStatus(o, Get(s.held, key), text, signature, chain, pin)
      case Err(_) => s
      case Ok((_, next)) => s.(held := s.held[key := next]))
    case Seed(text) =>
      match FromBundle(o, text)
      case Err(_) => s
      case Ok(h) =>
        var key := VersionKey(h.record.name, h.record.version);
        if Compare(Get(s.held, key), h) == Ok(Applied) then s.(held := s.held[key := h]) else s
  }

  function Run(o: Oracle, s: FeedState, events: seq<Event>): FeedState {
    if events == [] then s else React(o, Run(o, s, events[..|events| - 1]), events[|events| - 1])
  }

  /** One more event: a run goes on from where it was. */
  lemma RunGoesOn(o: Oracle, s: FeedState, events: seq<Event>, e: Event)
    ensures Run(o, s, []) == s && Run(o, s, events + [e]) == React(o, Run(o, s, events), e)
  {
    hide React;
    assert (events + [e])[..|events + [e]| - 1] == events;
  }

  /** A status accepted on its own is held under its package and version, and a bundle's exactly where nothing is held yet. */
  lemma ReactMeans(o: Oracle, s: FeedState, text: string, signature: string, chain: seq<StatusKey>, pin: Pin)
    ensures var (n, r) := (React(o, s, Receive(text, signature, chain, pin)), ApplyStatus(o, Get(s.held, VersionKey(pin.name, pin.version)), text, signature, chain, pin));
      && n.feedSeq == s.feedSeq
      && (r.Err? ==> n == s) && (r.Ok? ==> n.held == s.held[VersionKey(pin.name, pin.version) := r.value.1])
    ensures var n := React(o, s, Seed(text));
      if Parse(o, text).Err? then n == s
      else
        var (record, canonical) := Parse(o, text).value;
        var key := VersionKey(record.name, record.version);
        n == if key in s.held then s else s.(held := s.held[key := Held(record, canonical, 0, true)])
  {
    hide ApplyStatus, Parse, VersionKey;
    if FromBundle(o, text).Ok? { SeedCompares(o, s, text); }
  }

  lemma SeedCompares(o: Oracle, s: FeedState, text: string)
    requires FromBundle(o, text).Ok?
    ensures var h := FromBundle(o, text).value;
      && h == Held(Parse(o, text).value.0, Parse(o, text).value.1, 0, true)
      && (Compare(Get(s.held, VersionKey(h.record.name, h.record.version)), h) == Ok(Applied) <==> VersionKey(h.record.name, h.record.version) !in s.held)
  {
    hide Parse, VersionKey;
  }

  lemma ReactForward(o: Oracle, s: FeedState, e: Event)
    requires Genuine(o, s.held)
    ensures Genuine(o, React(o, s, e).held) && Forward(s, React(o, s, e))
  {
    hide ApplyStatus, VersionKey, HeldAfter, ResultsOf, Follows;
    FollowsSelf(s.held);
    match e {
      case Sync(mode, reply, chain, pins) =>
        if reply.Records? { HeldAfterForward(o, s.held, reply.records, chain, pins); }
      case Receive(text, signature, chain, pin) =>
        var key := VersionKey(pin.name, pin.version);
        var r := ApplyStatus(o, Get(s.held, key), text, signature, chain, pin);
        if r.Ok? {
          ApplyFollows(o, Get(s.held, key), text, signature, chain, pin);
          HoldNext(o, s.held, key, r.value.1);
        }
      case Seed(text) =>
        SeedForward(o, s, text);
    }
  }

  /** A bundle can start a hold but never move one. */
  lemma SeedForward(o: Oracle, s: FeedState, text: string)
    requires Genuine(o, s.held)
    ensures var r := React(o, s, Seed(text));
      && Genuine(o, r.held) && Forward(s, r)
      && forall k :: k in s.held ==> k in r.held && r.held[k] == s.held[k]
  {
    hide Follows, VersionKey, RecordValid;
    FollowsSelf(s.held);
    if FromBundle(o, text).Ok? {
      var h := FromBundle(o, text).value;
      var key := VersionKey(h.record.name, h.record.version);
      if key !in s.held { HoldNext(o, s.held, key, h); }
    }
  }

  /**
   * For arbitrary replies, statuses and bundles in any order and under any key
   * chains: every hold survives and only moves forward, and so does the cursor.
   */
  lemma {:induction false} RunForward(o: Oracle, s: FeedState, events: seq<Event>)
    requires Genuine(o, s.held)
    ensures Genuine(o, Run(o, s, events).held) && Forward(s, Run(o, s, events))
  {
    hide React, Follows, Genuine;
    if events == [] {
      FollowsSelf(s.held);
    } else {
      var before := Run(o, s, events[..|events| - 1]);
      RunForward(o, s, events[..|events| - 1]);
      ReactForward(o, before, events[|events| - 1]);
      ForwardTransitive(s, before, Run(o, s, events));
    }
  }

  /** The same, read off for one version between any two points of a run. */
  lemma NeverRollsBack(o: Oracle, s: FeedState, earlier: seq<Event>, later: seq<Event>, k: string)
    requires Genuine(o, s.held) && k in Run(o, s, earlier).held
    ensures k in Run(o, s, earlier + later).held
    ensures var (a, b) := (Run(o, s, earlier).held[k], Run(o, s, earlier + later).held[k]);
      && a.record.sequence <= b.record.sequence && a.record.changedAt <= b.record.changedAt
      && (a.canonical != b.canonical ==> a.record.sequence < b.record.sequence)
      && (!a.bundled ==> !b.bundled && a.signer <= b.signer)
      && (a.record.state == Tombstoned ==> b.record.state == Tombstoned)
      && (a.record.state == Revoked ==> b.record.state == Revoked || b.record.state == Tombstoned)
  {
    hide React, Follows, Genuine;
    RunForward(o, s, earlier);
    RunForward(o, Run(o, s, earlier), later);
    RunAppend(o, s, earlier, later);
    FollowsMeans(Run(o, s, earlier).held[k], Run(o, s, earlier + later).held[k]);
  }

  lemma {:induction false} RunAppend(o: Oracle, s: FeedState, earlier: seq<Event>, later: seq<Event>)
    ensures Run(o, s, earlier + later) == Run(o, Run(o, s, earlier), later)
  {
    hide React;
    if later == [] {
      assert earlier + later == earlier;
    } else {
      RunAppend(o, s, earlier, later[..|later| - 1]);
      assert (earlier + later)[..|earlier + later| - 1] == earlier + later[..|later| - 1];
    }
  }
}
