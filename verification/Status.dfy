/** Signed status records and the rules for replacing a held one. */
module Status {
  import opened Prelude
  import opened Catalog
  import Semver

  /** Instants are only ever compared. */
  type Time = int

  datatype StatusRecord = StatusRecord(
    keyId: string, name: string, version: string, archive: string, sequence: nat, state: State,
    reason: Option<string>, compromiseFrom: Option<Time>, publishedAt: Time, changedAt: Time)

  datatype Pin = Pin(name: string, version: string, archive: string)

  datatype StatusKey = StatusKey(keyId: string, publicKey: string, validFrom: Option<Time>)

  /** A held record, its exact bytes, and the epoch of its signer. */
  datatype Held = Held(record: StatusRecord, canonical: string, signer: nat, bundled: bool)

  datatype Apply = Applied | Duplicate

  datatype Rollback = LowerSequence | SameSequenceOtherBytes | ChangedAtRegressed | KeyEpochRegressed

  datatype StatusError =
    | StatusInvalid | KeyUnknown | SignatureInvalid | KeyNotValid | RecordMismatch | StatusTerminal
    | FeedAfterUnavailable | FeedRollback(reason: Option<Rollback>)

  /** The canonical form of a document, what it decodes to, and which signatures verify: (key, canonical, signature). */
  datatype Oracle = Oracle(
    canonical: string -> Option<string>, decode: string -> StatusRecord, verifies: (string, string, string) -> bool)

  predicate RecordValid(r: StatusRecord) {
    && r.sequence > 0
    && (r.state != Available ==> r.reason.Some? && r.reason.value != "")
    && (r.state == Revoked <==> r.compromiseFrom.Some?)
    && r.keyId != ""
    && Semver.ParseVersion(r.version).Some?
  }

  function Parse(o: Oracle, text: string): Result<(StatusRecord, string), StatusError> {
    match o.canonical(text)
    case None => Err(StatusInvalid)
    case Some(c) => if RecordValid(o.decode(c)) then Ok((o.decode(c), c)) else Err(StatusInvalid)
  }

  /** The first key of this id. */
  function Position(chain: seq<StatusKey>, id: string): (r: Option<nat>)
    ensures r.Some? ==> r.value < |chain| && chain[r.value].keyId == id && forall j :: 0 <= j < r.value ==> chain[j].keyId != id
    ensures r.None? ==> forall j :: 0 <= j < |chain| ==> chain[j].keyId != id
  {
    if chain == [] then None
    else if chain[0].keyId == id then Some(0)
    else
      match Position(chain[1..], id)
      case None => None
      case Some(i) =>
        assert forall j :: 0 < j <= i ==> chain[j] == chain[1..][j - 1];
        Some(i + 1)
  }

  /** The earliest instant at which one of these keys takes over. */
  function Retirement(later: seq<StatusKey>): (r: Option<Time>)
    ensures r.None? <==> forall k :: k in later ==> k.validFrom.None?
    ensures r.Some? ==> (exists k :: k in later && k.validFrom == r) && forall k :: k in later && k.validFrom.Some? ==> r.value <= k.validFrom.value
  {
    if later == [] then None
    else
      var (last, rest) := (later[|later| - 1], Retirement(later[..|later| - 1]));
      assert later == later[..|later| - 1] + [last];
      if last.validFrom.None? || (rest.Some? && rest.value <= last.validFrom.value) then rest else last.validFrom
  }

  /** A record signed by a key of the chain, in that key's window, for this pin. */
  function Authenticate(o: Oracle, text: string, signature: string, chain: seq<StatusKey>, pin: Pin): Result<Held, StatusError> {
    match Parse(o, text)
    case Err(e) => Err(e)
    case Ok((s, canonical)) =>
      match Position(chain, s.keyId)
      case None => Err(KeyUnknown)
      case Some(index) =>
        if !o.verifies(chain[index].publicKey, canonical, signature) then Err(SignatureInvalid)
        else if chain[index].validFrom.Some? && s.changedAt < chain[index].validFrom.value then Err(KeyNotValid)
        else
          var retirement := Retirement(chain[index + 1..]);
          if retirement.Some? && s.changedAt >= retirement.value then Err(KeyNotValid)
          else if s.name != pin.name || s.version != pin.version || s.archive != pin.archive then Err(RecordMismatch)
          else Ok(Held(s, canonical, index, false))
  }

  function Compare(held: Option<Held>, next: Held): Result<Apply, StatusError> {
    match held
    case None => Ok(Applied)
    case Some(prior) =>
      if next.record.sequence < prior.record.sequence then Err(FeedRollback(Some(LowerSequence)))
      else if next.record.sequence == prior.record.sequence then
        if next.canonical == prior.canonical then Ok(Duplicate) else Err(FeedRollback(Some(SameSequenceOtherBytes)))
      else if next.record.changedAt < prior.record.changedAt then Err(FeedRollback(Some(ChangedAtRegressed)))
      else if next.bundled then Err(FeedRollback(Some(KeyEpochRegressed)))
      else if !prior.bundled && next.signer < prior.signer then Err(FeedRollback(Some(KeyEpochRegressed)))
      else if !prior.record.state.Permits(next.record.state) then Err(StatusTerminal)
      else Ok(Applied)
  }

  function ApplyStatus(o: Oracle, held: Option<Held>, text: string, signature: string, chain: seq<StatusKey>, pin: Pin)
    : Result<(Apply, Held), StatusError>
  {
    match Authenticate(o, text, signature, chain, pin)
    case Err(e) => Err(e)
    case Ok(next) =>
      match Compare(held, next)
      case Err(e) => Err(e)
      case Ok(result) =>
        if result == Duplicate && held.Some? && !held.value.bundled then Ok((result, held.value)) else Ok((result, next))
  }

  function FromBundle(o: Oracle, text: string): Result<Held, StatusError> {
    match Parse(o, text)
    case Err(e) => Err(e)
    case Ok((s, canonical)) => Ok(Held(s, canonical, 0, true))
  }

  // ------------------------------------------------------------ the windows

  /** The signer's window: from its own start until any later key of the chain takes over. */
  ghost predicate InWindow(chain: seq<StatusKey>, i: nat, at: Time)
    requires i < |chain|
  {
    && (chain[i].validFrom.Some? ==> chain[i].validFrom.value <= at)
    && forall j :: i < j < |chain| && chain[j].validFrom.Some? ==> at < chain[j].validFrom.value
  }

  ghost predicate SignedInWindow(o: Oracle, h: Held, signature: string, chain: seq<StatusKey>) {
    && h.signer < |chain| && chain[h.signer].keyId == h.record.keyId
    && (forall j :: 0 <= j < h.signer ==> chain[j].keyId != h.record.keyId)
    && o.verifies(chain[h.signer].publicKey, h.canonical, signature)
    && InWindow(chain, h.signer, h.record.changedAt)
  }

  /** Exactly the parsed, signed, pinned records inside their signer's window are authentic. */
  lemma AuthenticMeans(o: Oracle, text: string, signature: string, chain: seq<StatusKey>, pin: Pin, h: Held)
    ensures Authenticate(o, text, signature, chain, pin) == Ok(h)
       <==> && Parse(o, text) == Ok((h.record, h.canonical)) && !h.bundled && SignedInWindow(o, h, signature, chain)
            && Pin(h.record.name, h.record.version, h.record.archive) == pin
  {
    hide RecordValid, Retirement;
    if Parse(o, text).Ok? {
      var s := Parse(o, text).value.0;
      var p := Position(chain, s.keyId);
      if p.Some? {
        WindowMeans(chain, p.value, s.changedAt);
      }
    }
  }

  lemma WindowMeans(chain: seq<StatusKey>, i: nat, at: Time)
    requires i < |chain|
    ensures InWindow(chain, i, at)
       <==> && !(chain[i].validFrom.Some? && at < chain[i].validFrom.value)
            && !(Retirement(chain[i + 1..]).Some? && at >= Retirement(chain[i + 1..]).value)
  {
    var later := chain[i + 1..];
    var r := Retirement(later);
    assert forall j :: i < j < |chain| ==> chain[j] == later[j - i - 1];
    if r.Some? && at < r.value {
      forall j | i < j < |chain| && chain[j].validFrom.Some? ensures at < chain[j].validFrom.value {
        assert later[j - i - 1] in later;
      }
    }
    if r.None? {
      forall j | i < j < |chain| ensures chain[j].validFrom.None? {
        assert later[j - i - 1] in later;
      }
    }
  }

  /** Growing the chain only narrows windows: what verifies later verified before, with the same signer. */
  lemma AuthenticUnderPrefix(o: Oracle, text: string, signature: string, chain: seq<StatusKey>, more: seq<StatusKey>, pin: Pin)
    requires Authenticate(o, text, signature, chain + more, pin).Ok?
    requires Authenticate(o, text, signature, chain + more, pin).value.signer < |chain|
    ensures Authenticate(o, text, signature, chain, pin) == Authenticate(o, text, signature, chain + more, pin)
  {
    hide Authenticate, Parse;
    var h := Authenticate(o, text, signature, chain + more, pin).value;
    AuthenticMeans(o, text, signature, chain + more, pin, h);
    var whole := chain + more;
    assert forall j :: 0 <= j < |chain| ==> whole[j] == chain[j];
    AuthenticMeans(o, text, signature, chain, pin, h);
  }

  /** What a document must decode to before anything else is looked at. */
  lemma ParseMeans(o: Oracle, text: string)
    ensures Parse(o, text).Ok?
       <==> && o.canonical(text).Some?
            && var r := o.decode(o.canonical(text).value);
               && r.sequence >= 1 && r.keyId != "" && Semver.ParseVersion(r.version).Some?
               && (r.state == Revoked <==> r.compromiseFrom.Some?)
               && (r.state == Available || (r.reason.Some? && r.reason.value != ""))
    ensures Parse(o, text).Ok? ==> Parse(o, text).value == (o.decode(o.canonical(text).value), o.canonical(text).value)
    ensures Parse(o, text).Err? ==> Parse(o, text).error == StatusInvalid
  {
  }

  /** Why a parsed record is not taken as authentic: the first of these that is wrong. */
  lemma AuthenticateRefuses(o: Oracle, text: string, signature: string, chain: seq<StatusKey>, pin: Pin)
    requires Parse(o, text).Ok? && Authenticate(o, text, signature, chain, pin).Err?
    ensures var ((s, canonical), e) := (Parse(o, text).value, Authenticate(o, text, signature, chain, pin).error);
      if forall k :: k in chain ==> k.keyId != s.keyId then e == KeyUnknown
      else exists i: nat :: FirstOf(chain, s.keyId, i)
             && e == if !o.verifies(chain[i].publicKey, canonical, signature) then SignatureInvalid
                     else if !InWindow(chain, i, s.changedAt) then KeyNotValid else RecordMismatch
  {
    hide RecordValid, Retirement;
    var s := Parse(o, text).value.0;
    var p := Position(chain, s.keyId);
    if p.Some? {
      assert FirstOf(chain, s.keyId, p.value);
      WindowMeans(chain, p.value, s.changedAt);
    }
  }

  ghost predicate FirstOf(chain: seq<StatusKey>, id: string, i: nat) {
    i < |chain| && chain[i].keyId == id && forall j :: 0 <= j < i ==> chain[j].keyId != id
  }

  // ------------------------------------------------- one status after another

  /** Every status that was ever held came from its own canonical bytes. */
  ghost predicate Authentic(o: Oracle, h: Held) { h.record == o.decode(h.canonical) }

  /** A strictly later record, signed by no earlier epoch, in a state the old one permits. */
  ghost predicate Supersedes(prior: Held, next: Held) {
    && prior.record.sequence < next.record.sequence && prior.record.changedAt <= next.record.changedAt && !next.bundled
    && (prior.bundled || prior.signer <= next.signer) && prior.record.state.Permits(next.record.state)
  }

  /** `next` is `prior`, or `prior` from a bundle now attested by the registry, or supersedes it. */
  ghost predicate Follows(prior: Held, next: Held) {
    || next == prior
    || (prior.bundled && !next.bundled && next.record == prior.record && next.canonical == prior.canonical)
    || Supersedes(prior, next)
  }

  /** A state may only stay or get worse: nothing leaves a tombstone, and a revoked version can only be tombstoned. */
  lemma PermitsMeans(a: State, b: State)
    ensures a.Permits(b) <==> (a == Tombstoned ==> b == Tombstoned) && (a == Revoked ==> b == Revoked || b == Tombstoned)
  {
  }

  /**
   * A record next to the held one: a duplicate when it is the same bytes at
   * the same sequence, applied when nothing is held or it supersedes what is,
   * and otherwise refused for the first rule it breaks.
   */
  lemma CompareMeans(prior: Held, next: Held)
    ensures Compare(None, next) == Ok(Applied)
    ensures var r := Compare(Some(prior), next);
      && (r == Ok(Duplicate) <==> next.record.sequence == prior.record.sequence && next.canonical == prior.canonical)
      && (r == Ok(Applied) <==> Supersedes(prior, next))
      && (r.Err? ==> match r.error
            case FeedRollback(Some(LowerSequence)) => next.record.sequence < prior.record.sequence
            case FeedRollback(Some(SameSequenceOtherBytes)) => next.record.sequence == prior.record.sequence && next.canonical != prior.canonical
            case FeedRollback(Some(ChangedAtRegressed)) =>
              next.record.sequence > prior.record.sequence && next.record.changedAt < prior.record.changedAt
            case FeedRollback(Some(KeyEpochRegressed)) =>
              && next.record.sequence > prior.record.sequence && next.record.changedAt >= prior.record.changedAt
              && (next.bundled || (!prior.bundled && next.signer < prior.signer))
            case StatusTerminal => next.record.sequence > prior.record.sequence && !prior.record.state.Permits(next.record.state)
            case _ => false)
  {
  }

  /** What is held after a status is accepted: the attested hold stays on a duplicate, any other is replaced. */
  lemma AcceptedHolds(o: Oracle, held: Option<Held>, text: string, signature: string, chain: seq<StatusKey>, pin: Pin)
    ensures var (a, r) := (Authenticate(o, text, signature, chain, pin), ApplyStatus(o, held, text, signature, chain, pin));
      && (a.Err? ==> r == Err(a.error))
      && (a.Ok? && Compare(held, a.value).Err? ==> r == Err(Compare(held, a.value).error))
      && (r.Ok? ==>
            && a.Ok? && Compare(held, a.value) == Ok(r.value.0)
            && (r.value.0 == Applied ==> r.value.1 == a.value)
            && (r.value.0 == Duplicate ==> held.Some? && r.value.1 == if held.value.bundled then a.value else held.value))
  {
    hide Authenticate;
  }

  /** A bundle's status is held as it was parsed, marked as the bundle's. */
  lemma BundleMeans(o: Oracle, text: string)
    ensures FromBundle(o, text).Ok? <==> Parse(o, text).Ok?
    ensures FromBundle(o, text).Ok? ==> FromBundle(o, text).value == Held(Parse(o, text).value.0, Parse(o, text).value.1, 0, true)
  {
    hide Parse;
  }

  lemma FollowsTransitive(a: Held, b: Held, c: Held)
    requires Follows(a, b) && Follows(b, c)
    ensures Follows(a, c)
  {
  }

  lemma FollowsAntisymmetric(a: Held, b: Held)
    requires Follows(a, b) && Follows(b, a)
    ensures a == b
  {
  }

  /** What a later hold may say, in the terms a reader of the feed cares about. */
  lemma FollowsMeans(a: Held, b: Held)
    requires Follows(a, b)
    ensures a.record.sequence <= b.record.sequence && a.record.changedAt <= b.record.changedAt
    ensures a.canonical != b.canonical ==> a.record.sequence < b.record.sequence
    ensures !a.bundled ==> !b.bundled && a.signer <= b.signer
    ensures a.record.state == Tombstoned ==> b.record.state == Tombstoned
    ensures a.record.state == Revoked ==> b.record.state == Revoked || b.record.state == Tombstoned
  {
  }

  /** Exactly the authentic copies of what is held, and the records that supersede it, are accepted. */
  lemma AcceptedWhen(o: Oracle, held: Option<Held>, text: string, signature: string, chain: seq<StatusKey>, pin: Pin)
    requires held.Some? ==> Authentic(o, held.value)
    ensures ApplyStatus(o, held, text, signature, chain, pin).Ok?
       <==> && Authenticate(o, text, signature, chain, pin).Ok?
            && (held.Some? ==>
                  var next := Authenticate(o, text, signature, chain, pin).value;
                  next.canonical == held.value.canonical || Supersedes(held.value, next))
  {
    hide Position, Retirement, RecordValid;
  }

  /** An accepted status follows the one held before. */
  lemma ApplyFollows(o: Oracle, held: Option<Held>, text: string, signature: string, chain: seq<StatusKey>, pin: Pin)
    requires held.Some? ==> Authentic(o, held.value)
    requires ApplyStatus(o, held, text, signature, chain, pin).Ok?
    ensures var (_, next) := ApplyStatus(o, held, text, signature, chain, pin).value;
      && Authentic(o, next) && (held.Some? ==> Follows(held.value, next))
      && !next.bundled && Pin(next.record.name, next.record.version, next.record.archive) == pin
  {
    hide Position, Retirement, RecordValid;
  }
}
