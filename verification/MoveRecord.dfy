/** The shared move record: what encodes, and why an accepted one can still be aborted. */
module MoveRecord {
  import opened Prelude
  import opened Text
  import opened Refs
  import opened Json

  const BODY_CAP: nat := 65_536
  const ABORT_RESERVE: nat := 4096
  const MOVE_BODY_CAP: nat := BODY_CAP - ABORT_RESERVE
  const DETAIL_CAP: nat := 2048
  const SUMMARY_CAP: nat := 512

  datatype RecordState = Published | Staged | Claimed | Activated | Released | Aborted
  {
    function Name(): string {
      match this
      case Published => "published"
      case Staged => "staged"
      case Claimed => "claimed"
      case Activated => "activated"
      case Released => "released"
      case Aborted => "aborted"
    }
  }

  /** The reasons with names of their own; any other text is carried as it is. */
  const NAMED_REASONS: set<string> := {
    "operator", "receiver_inbox_full", "move_too_large", "participant_refused", "door_refused", "cut_author_mismatch", "diverged",
    "incompatible_version", "claim_moved", "project_not_checked_out", "gone", "receiver_precondition", "pin_digest_mismatch", "trust_missing"}

  /** A reference kept outside; its check is the participant's own and passed through. */
  datatype External = External(kind: string, id: string, note: string, check: Json)

  datatype Participant = Participant(moduleId: string, refs: seq<Ref>, external: seq<External>)

  datatype Record = Record(
    v: U64, cutId: string, agentId: string, source: string, target: string, state: RecordState, claimVersion: U64,
    participants: seq<Participant>, pinDigest: Option<string>, reason: Option<string>, detail: Option<Json>)

  datatype CodecError =
    | UnknownVersion | CutIdMismatch | ParticipantUnsorted | ParticipantDuplicate | RefUnsorted | RefDuplicate | DetailTooLarge
    | MalformedBody | MoveTooLarge | BodyTooLarge

  // ---------------------------------------------------------------- encoding

  function RefJson(r: Ref): Json { Obj([Member("ref_kind", Str(r.kind)), Member("ref", Str(r.id))]) }

  function ExternalJson(x: External): Json {
    Obj([Member("ref_kind", Str(x.kind)), Member("ref", Str(x.id)), Member("note", Str(x.note)), Member("check", x.check)])
  }

  function ParticipantJson(p: Participant): Json {
    Obj([Member("module_id", Str(p.moduleId)),
         Member("refs", List(seq(|p.refs|, i requires 0 <= i < |p.refs| => RefJson(p.refs[i])))),
         Member("external", List(seq(|p.external|, i requires 0 <= i < |p.external| => ExternalJson(p.external[i]))))])
  }

  function Before(r: Record): seq<Member> {
    [Member("v", Number(Decimal(r.v))), Member("cut_id", Str(r.cutId)), Member("agent_id", Str(r.agentId)), Member("from", Str(r.source)), Member("to", Str(r.target))]
  }

  function Between(r: Record): seq<Member> {
    [Member("claim_version", Number(Decimal(r.claimVersion))),
     Member("participants", List(seq(|r.participants|, i requires 0 <= i < |r.participants| => ParticipantJson(r.participants[i]))))]
    + (if r.pinDigest.Some? then [Member("pin_digest", Str(r.pinDigest.value))] else [])
  }

  function OrNull(text: Option<string>): Json { if text.Some? then Str(text.value) else Null }

  function DetailJson(detail: Option<Json>): Json { if detail.Some? then detail.value else Null }

  /** Field order does not change the length; the three fields an abort changes stand apart here. */
  function RecordJson(r: Record): (j: Json)
    ensures j.Obj?
  {
    Obj(Before(r) + Between(r) + [Member("state", Str(r.state.Name())), Member("reason", OrNull(r.reason)), Member("detail", DetailJson(r.detail))])
  }

  // -------------------------------------------------------------- validation

  predicate Hex(s: string) { forall i :: 0 <= i < |s| ==> IsDigit(s[i]) || 'a' <= s[i] <= 'f' }

  ghost predicate RefsRise(refs: seq<Ref>) { forall i, j :: 0 <= i < j < |refs| ==> RefBefore(refs[i], refs[j]) }

  ghost predicate ModulesRise(ps: seq<Participant>) { forall i, j :: 0 <= i < j < |ps| ==> TextBefore(ps[i].moduleId, ps[j].moduleId) }

  predicate IdsValid(r: Record) {
    |r.cutId| == 32 && Hex(r.cutId) && (r.pinDigest.Some? ==> |r.pinDigest.value| == 64 && Hex(r.pinDigest.value))
  }

  ghost predicate ParticipantsValid(ps: seq<Participant>) {
    (forall i :: 0 <= i < |ps| ==> RefsRise(ps[i].refs)) && ModulesRise(ps)
  }

  /** The fixed parts of a record: everything an abort leaves alone. */
  ghost predicate PlanValid(subject: string, r: Record) {
    r.v == 1 && subject == "move:" + r.cutId && IdsValid(r) && ParticipantsValid(r.participants)
  }

  ghost predicate RecordValid(subject: string, r: Record) {
    && PlanValid(subject, r)
    && (r.detail.Some? ==> Size(r.detail.value) <= DETAIL_CAP)
    && (r.state == Aborted <==> r.reason.Some?) && (r.detail.Some? ==> r.state == Aborted)
  }

  ghost predicate RefsRepeat(refs: seq<Ref>) { exists i, j :: 0 <= i < j < |refs| && refs[i] == refs[j] }

  ghost predicate ModuleRepeats(ps: seq<Participant>, i: nat) { exists j :: 0 <= j < i < |ps| && ps[j].moduleId == ps[i].moduleId }

  ghost predicate ParticipantSound(ps: seq<Participant>, i: nat)
    requires i < |ps|
  {
    !ModuleRepeats(ps, i) && RefsRise(ps[i].refs)
  }

  /** The first participant at fault decides; only when there is none is the order of the modules looked at. */
  ghost predicate ParticipantsRefused(ps: seq<Participant>, e: CodecError) {
    if forall i: nat :: i < |ps| ==> ParticipantSound(ps, i) then e == ParticipantUnsorted && !ModulesRise(ps)
    else exists i: nat ::
      && i < |ps| && !ParticipantSound(ps, i) && (forall j: nat :: j < i ==> ParticipantSound(ps, j))
      && e == if ModuleRepeats(ps, i) then ParticipantDuplicate else if RefsRepeat(ps[i].refs) then RefDuplicate else RefUnsorted
  }

  /** The one error a faulty record is refused with, whatever else is wrong with it. */
  ghost predicate RecordRefused(subject: string, r: Record, e: CodecError) {
    if r.v != 1 then e == UnknownVersion
    else if subject != "move:" + r.cutId then e == CutIdMismatch
    else if !IdsValid(r) then e == MalformedBody
    else if !ParticipantsValid(r.participants) then ParticipantsRefused(r.participants, e)
    else if r.detail.Some? && Size(r.detail.value) > DETAIL_CAP then e == DetailTooLarge
    else e == MalformedBody && !RecordValid(subject, r)
  }

  /** `windows(2).any(pair[0] > pair[1])` after duplicates were refused: adjacent order is order. */
  lemma {:induction false} AdjacentRefsRise(refs: seq<Ref>, i: nat, j: nat)
    requires i < j < |refs| && forall k :: 0 <= k && k + 1 < |refs| ==> RefBefore(refs[k], refs[k + 1])
    ensures RefBefore(refs[i], refs[j])
    decreases j - i
  {
    if i + 1 < j {
      AdjacentRefsRise(refs, i + 1, j);
      assert RefBefore(refs[i], refs[i + 1]);
      RefBeforeTransitive(refs[i], refs[i + 1], refs[j]);
    }
  }

  /** Refuse a repeated reference, then one out of order. */
  method CheckRefs(refs: seq<Ref>) returns (e: Option<CodecError>)
    ensures e.None? <==> RefsRise(refs)
    ensures e == Some(RefDuplicate) <==> RefsRepeat(refs)
    ensures e.Some? ==> e.value in {RefDuplicate, RefUnsorted}
  {
    hide RefBefore;
    var seen: set<Ref> := {};
    for i := 0 to |refs|
      invariant forall r :: r in seen <==> exists j :: 0 <= j < i && refs[j] == r
      invariant forall j, k :: 0 <= j < k < i ==> refs[j] != refs[k]
    {
      if refs[i] in seen {
        var j :| 0 <= j < i && refs[j] == refs[i];
        RefBeforeTotal(refs[j], refs[i]);
        return Some(RefDuplicate);
      }
      seen := seen + {refs[i]};
    }
    for i := 0 to |refs|
      invariant forall k :: 0 <= k && k + 1 < i ==> RefBefore(refs[k], refs[k + 1])
    {
      if i > 0 {
        RefBeforeTotal(refs[i - 1], refs[i]);
        if RefBefore(refs[i], refs[i - 1]) { return Some(RefUnsorted); }
      }
    }
    forall i, j | 0 <= i < j < |refs| ensures RefBefore(refs[i], refs[j]) {
      AdjacentRefsRise(refs, i, j);
    }
    return None;
  }

  lemma {:induction false} AdjacentModulesRise(ps: seq<Participant>, i: nat, j: nat)
    requires i < j < |ps| && forall k :: 0 <= k && k + 1 < |ps| ==> TextBefore(ps[k].moduleId, ps[k + 1].moduleId)
    ensures TextBefore(ps[i].moduleId, ps[j].moduleId)
    decreases j - i
  {
    if i + 1 < j {
      AdjacentModulesRise(ps, i + 1, j);
      assert TextBefore(ps[i].moduleId, ps[i + 1].moduleId);
      CompareTextTransitive(ps[i].moduleId, ps[i + 1].moduleId, ps[j].moduleId);
    }
  }

  method CheckParticipants(ps: seq<Participant>) returns (e: Option<CodecError>)
    ensures e.None? <==> ParticipantsValid(ps)
    ensures e.Some? ==> ParticipantsRefused(ps, e.value)
  {
    hide RefsRise, RefsRepeat, CompareText, ParticipantsRefused;
    var seen: set<string> := {};
    for i := 0 to |ps|
      invariant forall m :: m in seen <==> exists j :: 0 <= j < i && ps[j].moduleId == m
      invariant forall j: nat :: j < i ==> ParticipantSound(ps, j)
    {
      if ps[i].moduleId in seen {
        assert ModuleRepeats(ps, i);
        RepeatUnsorted(ps, i);
        FirstAtFault(ps, i, ParticipantDuplicate);
        return Some(ParticipantDuplicate);
      }
      seen := seen + {ps[i].moduleId};
      var refused := CheckRefs(ps[i].refs);
      if refused.Some? {
        FirstAtFault(ps, i, refused.value);
        return refused;
      }
    }
    for i := 0 to |ps|
      invariant forall k :: 0 <= k && k + 1 < i ==> TextBefore(ps[k].moduleId, ps[k + 1].moduleId)
    {
      if i > 0 {
        TextBeforeTotal(ps[i - 1].moduleId, ps[i].moduleId);
        assert ParticipantSound(ps, i);
        if TextBefore(ps[i].moduleId, ps[i - 1].moduleId) {
          OnlyUnsorted(ps, i);
          return Some(ParticipantUnsorted);
        }
      }
    }
    forall i, j | 0 <= i < j < |ps| ensures TextBefore(ps[i].moduleId, ps[j].moduleId) {
      AdjacentModulesRise(ps, i, j);
    }
    forall i | 0 <= i < |ps| ensures RefsRise(ps[i].refs) {
      assert ParticipantSound(ps, i);
    }
    return None;
  }

  lemma FirstAtFault(ps: seq<Participant>, i: nat, e: CodecError)
    requires i < |ps| && !ParticipantSound(ps, i) && forall j: nat :: j < i ==> ParticipantSound(ps, j)
    requires e == if ModuleRepeats(ps, i) then ParticipantDuplicate else if RefsRepeat(ps[i].refs) then RefDuplicate else RefUnsorted
    ensures ParticipantsRefused(ps, e)
  {
    hide ParticipantSound, ModuleRepeats, RefsRepeat;
  }

  lemma OnlyUnsorted(ps: seq<Participant>, i: nat)
    requires 0 < i < |ps| && TextBefore(ps[i].moduleId, ps[i - 1].moduleId) && forall j: nat :: j < |ps| ==> ParticipantSound(ps, j)
    ensures !ModulesRise(ps) && ParticipantsRefused(ps, ParticipantUnsorted)
  {
    hide ParticipantSound;
    TextBeforeTotal(ps[i - 1].moduleId, ps[i].moduleId);
  }

  lemma RepeatUnsorted(ps: seq<Participant>, i: nat)
    requires ModuleRepeats(ps, i)
    ensures !ModulesRise(ps)
  {
    var j :| 0 <= j < i < |ps| && ps[j].moduleId == ps[i].moduleId;
    TextBeforeTotal(ps[j].moduleId, ps[i].moduleId);
  }

  method ValidateMove(subject: string, r: Record) returns (e: Option<CodecError>)
    ensures e.None? <==> RecordValid(subject, r)
    ensures e.Some? ==> RecordRefused(subject, r, e.value)
  {
    hide Size, ParticipantsValid, ParticipantsRefused;
    if r.v != 1 { return Some(UnknownVersion); }
    if |subject| < 5 || subject[..5] != "move:" || subject[5..] != r.cutId {
      assert subject != "move:" + r.cutId;
      return Some(CutIdMismatch);
    }
    assert subject == "move:" + r.cutId;
    if |r.cutId| != 32 || !Hex(r.cutId) { return Some(MalformedBody); }
    if r.pinDigest.Some? && (|r.pinDigest.value| != 64 || !Hex(r.pinDigest.value)) { return Some(MalformedBody); }
    var refused := CheckParticipants(r.participants);
    if refused.Some? { return refused; }
    if r.detail.Some? && Size(r.detail.value) > DETAIL_CAP { return Some(DetailTooLarge); }
    if (r.state != Aborted && (r.reason.Some? || r.detail.Some?)) || (r.state == Aborted && r.reason.None?) { return Some(MalformedBody); }
    return None;
  }

  ghost predicate SizeAllowed(r: Record) {
    Size(RecordJson(r)) <= if r.state == Aborted then BODY_CAP else MOVE_BODY_CAP
  }

  /** What the shared log will take: a valid record, leaving room for a later abort until there is one. */
  ghost predicate Encodes(subject: string, r: Record) { RecordValid(subject, r) && SizeAllowed(r) }

  method EncodeMoveRecord(subject: string, r: Record) returns (body: Result<Json, CodecError>)
    ensures body.Ok? <==> Encodes(subject, r)
    ensures body.Ok? ==> body.value == RecordJson(r)
    ensures body.Err? ==> if !RecordValid(subject, r) then RecordRefused(subject, r, body.error)
                          else body.error == if Size(RecordJson(r)) > BODY_CAP then BodyTooLarge else MoveTooLarge
  {
    hide Size, RecordJson, RecordValid, RecordRefused;
    var refused := ValidateMove(subject, r);
    if refused.Some? { return Err(refused.value); }
    var len := Size(RecordJson(r));
    if len > BODY_CAP { return Err(BodyTooLarge); }
    if r.state != Aborted && len > MOVE_BODY_CAP { return Err(MoveTooLarge); }
    return Ok(RecordJson(r));
  }

  // --------------------------------------------------------------- summaries

  /** Keep at most 512 characters, and then only as many as encode to 512 bytes. */
  function Clipped(s: string): (c: string)
    ensures c <= s && |c| <= SUMMARY_CAP && StrSize(c) <= SUMMARY_CAP
  {
    Shrunk(if |s| <= SUMMARY_CAP then s else s[..SUMMARY_CAP])
  }

  function Shrunk(s: string): (c: string)
    ensures c <= s && StrSize(c) <= SUMMARY_CAP
  {
    if StrSize(s) <= SUMMARY_CAP then s else Shrunk(s[..|s| - 1])
  }

  lemma {:induction false} PrefixSize(s: string, k: nat)
    requires k <= |s|
    ensures CharsSize(s[..k]) <= CharsSize(s)
  {
    if k < |s| {
      PrefixSize(s[..|s| - 1], k);
      assert s[..|s| - 1][..k] == s[..k];
    } else {
      assert s[..k] == s;
    }
  }

  /** What is kept is the longest prefix within both limits. */
  lemma ClippedIsLongest(s: string, k: nat)
    requires k <= |s| && k <= SUMMARY_CAP && StrSize(s[..k]) <= SUMMARY_CAP
    ensures k <= |Clipped(s)| && Clipped(s) == s[..|Clipped(s)|]
  {
    var front := if |s| <= SUMMARY_CAP then s else s[..SUMMARY_CAP];
    assert front[..k] == s[..k];
    ShrunkIsLongest(front, k);
  }

  lemma {:induction false} ShrunkIsLongest(s: string, k: nat)
    requires k <= |s| && StrSize(s[..k]) <= SUMMARY_CAP
    ensures k <= |Shrunk(s)|
  {
    assert s[..|s|] == s;
    if StrSize(s) > SUMMARY_CAP {
      assert s[..|s| - 1][..k] == s[..k];
      ShrunkIsLongest(s[..|s| - 1], k);
    }
  }

  method SummaryString(value: Option<string>) returns (j: Json)
    ensures j == if value.None? then Null else Str(Clipped(value.value))
  {
    if value.None? { return Null; }
    var text := if |value.value| <= SUMMARY_CAP then value.value else value.value[..SUMMARY_CAP];
    ghost var front := text;
    while StrSize(text) > SUMMARY_CAP
      invariant Shrunk(text) == Shrunk(front)
      decreases |text|
    {
      text := text[..|text| - 1];
    }
    return Str(text);
  }

  function ClippedJson(s: Option<string>): Json { if s.None? then Null else Str(Clipped(s.value)) }

  predicate Diverged(d: Json) { GetStr(d, "state") == Some("unknown") || GetStr(d, "state") == Some("advanced") }

  function OptionalField(key: string, s: Option<string>): seq<Member> { if s.None? then [] else [Member(key, Str(Clipped(s.value)))] }

  function Summary(d: Json): Json {
    Obj([Member("truncated", Bool(true)), Member("op", ClippedJson(GetStr(d, "op"))), Member("code", ClippedJson(GetStr(d, "code")))]
        + OptionalField("module_id", GetStr(d, "module_id"))
        + if Diverged(d) then
            OptionalField("ref", GetStr(d, "ref")) + OptionalField("state", GetStr(d, "state"))
            + (if GetStr(d, "reason").None? then [] else [Member("reason", Str(GetStr(d, "reason").value))])
          else [])
  }

  function Bounded(d: Json): Json { if Size(d) <= DETAIL_CAP then d else Summary(d) }

  method BoundedDetail(d: Json) returns (j: Json)
    ensures j == Bounded(d)
  {
    hide Size, Clipped, Diverged, GetStr;
    if Size(d) <= DETAIL_CAP { return d; }
    var op := SummaryString(GetStr(d, "op"));
    var code := SummaryString(GetStr(d, "code"));
    var moduleId := SummaryField("module_id", GetStr(d, "module_id"));
    var fields := [Member("truncated", Bool(true)), Member("op", op), Member("code", code)] + moduleId;
    if Diverged(d) {
      var ref := SummaryField("ref", GetStr(d, "ref"));
      var state := SummaryField("state", GetStr(d, "state"));
      var reason := if GetStr(d, "reason").Some? then [Member("reason", Str(GetStr(d, "reason").value))] else [];
      fields := fields + (ref + state + reason);
    }
    return Obj(fields);
  }

  method SummaryField(key: string, value: Option<string>) returns (fields: seq<Member>)
    ensures fields == OptionalField(key, value)
  {
    if value.None? { return []; }
    var text := SummaryString(value);
    return [Member(key, text)];
  }

  /** Aborting a record changes its state, reason and detail, and nothing else. */
  function AbortedRecord(r: Record, reason: string, detail: Option<Json>): Record {
    r.(state := Aborted, reason := Some(reason), detail := if detail.None? then None else Some(Bounded(detail.value)))
  }

  // ------------------------------------------------------- details stay bounded

  function Width(s: Option<string>): (n: nat)
    ensures n <= SUMMARY_CAP
  {
    if s.None? then 4 else StrSize(Clipped(s.value))
  }

  function FieldWidth(keyed: nat, s: Option<string>): nat { if s.None? then 0 else keyed + StrSize(Clipped(s.value)) }

  /** The width of a summary, read off the diagnostic's own fields; only a diverged one may be too wide. */
  function SummaryWidth(d: Json): nat {
    32 + Width(GetStr(d, "op")) + Width(GetStr(d, "code")) + FieldWidth(13, GetStr(d, "module_id"))
    + if Diverged(d) then
        FieldWidth(7, GetStr(d, "ref")) + FieldWidth(9, GetStr(d, "state"))
        + (if GetStr(d, "reason").None? then 0 else 10 + StrSize(GetStr(d, "reason").value))
      else 0
  }

  lemma KeySizes()
    ensures StrSize("truncated") == 11 && StrSize("op") == 4 && StrSize("code") == 6 && StrSize("module_id") == 11
    ensures StrSize("ref") == 5 && StrSize("state") == 7 && StrSize("reason") == 8 && StrSize("detail") == 8
  {
    PlainSize("truncated");
    PlainSize("op");
    PlainSize("code");
    PlainSize("module_id");
    PlainSize("ref");
    PlainSize("state");
    PlainSize("reason");
    PlainSize("detail");
  }

  /** Printable ASCII without quotes or backslashes takes a byte a character. */
  lemma {:induction false} PlainSize(s: string)
    requires forall i :: 0 <= i < |s| ==> ' ' <= s[i] <= '~' && s[i] != '\"' && s[i] != '\\'
    ensures CharsSize(s) == |s|
  {
    if s != [] { PlainSize(s[..|s| - 1]); }
  }

  lemma OptionalFieldSize(key: string, keyed: nat, s: Option<string>)
    requires keyed == StrSize(key) + 2
    ensures FieldsSize(OptionalField(key, s)) + |OptionalField(key, s)| == FieldWidth(keyed, s)
  {
    hide Clipped, StrSize;
  }

  lemma SummarySize(d: Json)
    ensures Size(Summary(d)) == SummaryWidth(d)
  {
    hide Clipped, GetStr, Diverged, StrSize, FieldsSize, Size;
    KeySizes();
    var front := [Member("truncated", Bool(true)), Member("op", ClippedJson(GetStr(d, "op"))), Member("code", ClippedJson(GetStr(d, "code")))];
    FrontSize(ClippedJson(GetStr(d, "op")), ClippedJson(GetStr(d, "code")));
    ClippedWidth(GetStr(d, "op"));
    ClippedWidth(GetStr(d, "code"));
    var m := OptionalField("module_id", GetStr(d, "module_id"));
    OptionalFieldSize("module_id", 13, GetStr(d, "module_id"));
    FieldsConcat(front, m);
    if Diverged(d) {
      var (ref, state) := (OptionalField("ref", GetStr(d, "ref")), OptionalField("state", GetStr(d, "state")));
      var reason := if GetStr(d, "reason").None? then [] else [Member("reason", Str(GetStr(d, "reason").value))];
      OptionalFieldSize("ref", 7, GetStr(d, "ref"));
      OptionalFieldSize("state", 9, GetStr(d, "state"));
      ReasonSize(GetStr(d, "reason"));
      FieldsConcat(ref, state);
      FieldsConcat(ref + state, reason);
      FieldsConcat(front + m, ref + state + reason);
      ObjSize(front + m + (ref + state + reason));
    } else {
      assert front + m + [] == front + m;
      ObjSize(front + m);
    }
  }

  lemma FrontSize(op: Json, code: Json)
    ensures FieldsSize([Member("truncated", Bool(true)), Member("op", op), Member("code", code)]) == 28 + Size(op) + Size(code)
  {
    hide StrSize, FieldsSize;
    KeySizes();
    ThreeFields(Member("truncated", Bool(true)), Member("op", op), Member("code", code));
  }

  lemma ClippedWidth(s: Option<string>)
    ensures Size(ClippedJson(s)) == Width(s)
  {
    hide Clipped, StrSize;
  }

  lemma ReasonSize(s: Option<string>)
    ensures var reason := if s.None? then [] else [Member("reason", Str(s.value))];
      FieldsSize(reason) + |reason| == if s.None? then 0 else 10 + StrSize(s.value)
  {
    hide StrSize;
    KeySizes();
  }

  /** A bounded detail is within the cap exactly when it was small, is not diverged, or its summary's fields are. */
  lemma BoundedWithinCap(d: Json)
    ensures Size(Bounded(d)) <= DETAIL_CAP <==> Size(d) <= DETAIL_CAP || !Diverged(d) || SummaryWidth(d) <= DETAIL_CAP
  {
    hide Size, Clipped, GetStr, Diverged, Summary, StrSize;
    SummarySize(d);
    ClippedWithin(GetStr(d, "module_id"));
  }

  lemma ClippedWithin(s: Option<string>)
    ensures FieldWidth(13, s) <= 13 + SUMMARY_CAP
  {
    hide StrSize;
  }

  function Utf8Size(s: string): nat { if s == [] then 0 else Utf8Size(s[..|s| - 1]) + |Utf8(s[|s| - 1])| }

  predicate ControlFree(s: string) { forall i :: 0 <= i < |s| ==> s[i] >= ' ' }

  lemma {:induction false} ControlFreeSize(s: string)
    requires ControlFree(s)
    ensures CharsSize(s) <= 2 * Utf8Size(s)
  {
    if s != [] { ControlFreeSize(s[..|s| - 1]); }
  }

  /** What participants promise of a diverged detail is enough: no op or code, and a short reason without control characters. */
  lemma DivergedFits(d: Json)
    requires GetStr(d, "op").None? && GetStr(d, "code").None?
    requires GetStr(d, "reason").Some? ==> Utf8Size(GetStr(d, "reason").value) <= 256 && ControlFree(GetStr(d, "reason").value)
    ensures Size(Bounded(d)) <= DETAIL_CAP
  {
    hide Size, Clipped, GetStr, Diverged, Bounded, CharsSize, Utf8Size;
    BoundedWithinCap(d);
    if GetStr(d, "reason").Some? { ControlFreeSize(GetStr(d, "reason").value); }
    if Diverged(d) { StateWidth(d); }
  }

  lemma StateWidth(d: Json)
    requires Diverged(d)
    ensures FieldWidth(9, GetStr(d, "state")) <= 19
  {
    hide GetStr;
    var s := GetStr(d, "state").value;
    PlainSize(s);
    PrefixSize(s, |Clipped(s)|);
    assert Clipped(s) == s[..|Clipped(s)|];
  }

  /** Without that promise it can fail: four long fields alone are already too wide. */
  lemma DivergedCanOverflow(long: string)
    requires |long| == 600 && forall i :: 0 <= i < 600 ==> long[i] == 'a'
    ensures var d := Obj([Member("op", Str(long)), Member("code", Str(long)), Member("module_id", Str(long)), Member("ref", Str(long)), Member("state", Str("unknown"))]);
      Size(d) > DETAIL_CAP && Size(Bounded(d)) > DETAIL_CAP
  {
    hide Clipped, StrSize, Bounded, Summary;
    var fields := [Member("op", Str(long)), Member("code", Str(long)), Member("module_id", Str(long)), Member("ref", Str(long)), Member("state", Str("unknown"))];
    var d := Obj(fields);
    LongClips(long);
    FiveFields(fields, long);
    FiveFieldsWide(fields, long);
    BoundedWithinCap(d);
  }

  lemma LongClips(long: string)
    requires |long| == 600 && forall i :: 0 <= i < 600 ==> long[i] == 'a'
    ensures StrSize(long) == 602 && StrSize(Clipped(long)) == 512
  {
    hide Clipped;
    PlainSize(long);
    PlainSize(long[..510]);
    ClippedIsLongest(long, 510);
    PlainSize(Clipped(long));
  }

  lemma FiveFields(fields: seq<Member>, long: string)
    requires fields == [Member("op", Str(long)), Member("code", Str(long)), Member("module_id", Str(long)), Member("ref", Str(long)), Member("state", Str("unknown"))]
    ensures var d := Obj(fields);
      && GetStr(d, "op") == Some(long) && GetStr(d, "code") == Some(long) && GetStr(d, "module_id") == Some(long)
      && GetStr(d, "ref") == Some(long) && GetStr(d, "state") == Some("unknown")
  {
    assert Field(fields[4..], "state") == Some(Str("unknown"));
    assert Field(fields[3..], "state") == Some(Str("unknown")) && Field(fields[3..], "ref") == Some(Str(long));
    assert fields[3..][1..] == fields[4..];
    SkipTo(fields, "ref", 3);
    SkipTo(fields, "state", 4);
    SkipTo(fields, "module_id", 2);
    SkipTo(fields, "code", 1);
  }

  lemma FiveFieldsWide(fields: seq<Member>, long: string)
    requires fields == [Member("op", Str(long)), Member("code", Str(long)), Member("module_id", Str(long)), Member("ref", Str(long)), Member("state", Str("unknown"))]
    requires StrSize(long) == 602
    ensures Size(Obj(fields)) > DETAIL_CAP
  {
    hide StrSize, FieldsSize;
    ObjSize(fields);
    assert fields == fields[..1] + (fields[1..2] + (fields[2..3] + (fields[3..4] + fields[4..])));
    FieldsConcat(fields[..1], fields[1..2] + (fields[2..3] + (fields[3..4] + fields[4..])));
    FieldsConcat(fields[1..2], fields[2..3] + (fields[3..4] + fields[4..]));
    FieldsConcat(fields[2..3], fields[3..4] + fields[4..]);
    FieldsConcat(fields[3..4], fields[4..]);
    AtLeastValue(fields[0]);
    AtLeastValue(fields[1]);
    AtLeastValue(fields[2]);
    AtLeastValue(fields[3]);
    assert fields[..1] == [fields[0]] && fields[1..2] == [fields[1]] && fields[2..3] == [fields[2]] && fields[3..4] == [fields[3]];
  }

  lemma AtLeastValue(m: Member)
    ensures FieldsSize([m]) >= Size(m.value)
  {
    assert [m][1..] == [];
  }

  // -------------------------------------------------------- aborting what was accepted

  lemma TailSize(r: Record)
    ensures FieldsSize([Member("state", Str(r.state.Name())), Member("reason", OrNull(r.reason)), Member("detail", DetailJson(r.detail))])
         == 26 + StrSize(r.state.Name()) + Size(OrNull(r.reason)) + Size(DetailJson(r.detail))
  {
    hide StrSize, FieldsSize;
    KeySizes();
    ThreeFields(Member("state", Str(r.state.Name())), Member("reason", OrNull(r.reason)), Member("detail", DetailJson(r.detail)));
    assert Size(Str(r.state.Name())) == StrSize(r.state.Name());
  }

  /** A record's size apart from what an abort changes. */
  function PlanSize(r: Record): nat { FieldsSize(Before(r) + Between(r)) + |Before(r) + Between(r)| }

  lemma RecordSize(r: Record)
    ensures Size(RecordJson(r)) == 30 + PlanSize(r) + StrSize(r.state.Name()) + Size(OrNull(r.reason)) + Size(DetailJson(r.detail))
  {
    hide StrSize, FieldsSize, Before, Between, Size;
    var tail := [Member("state", Str(r.state.Name())), Member("reason", OrNull(r.reason)), Member("detail", DetailJson(r.detail))];
    TailSize(r);
    FieldsConcat(Before(r) + Between(r), tail);
    ObjSize(Before(r) + Between(r) + tail);
  }

  lemma NamedSizes(state: RecordState, reason: string)
    requires reason in NAMED_REASONS
    ensures StrSize(Aborted.Name()) == 9 && 8 <= StrSize(state.Name()) && StrSize(reason) <= 140
  {
    hide CharsSize;
    StateSizes(state);
    StateSizes(Aborted);
    NamedShort(reason);
    WidestSize(reason);
  }

  lemma StateSizes(state: RecordState)
    ensures StrSize(state.Name()) == 2 + |state.Name()|
  {
    hide CharsSize;
    PlainSize(state.Name());
  }

  lemma NamedShort(reason: string)
    requires reason in NAMED_REASONS
    ensures |reason| <= 23
  {
  }

  lemma SamePlan(r: Record, reason: string, detail: Option<Json>)
    ensures PlanSize(AbortedRecord(r, reason, detail)) == PlanSize(r)
  {
    hide Bounded;
    var a := AbortedRecord(r, reason, detail);
    assert Before(a) == Before(r) && Between(a) == Between(r);
  }

  /**
   * The reserve works: a record accepted before it was aborted can be aborted
   * with any named reason, and still encodes, exactly when its bounded detail
   * is within the detail cap.
   */
  lemma AcceptedCanAbort(subject: string, r: Record, reason: string, detail: Option<Json>)
    requires Encodes(subject, r) && r.state != Aborted && reason in NAMED_REASONS
    ensures Encodes(subject, AbortedRecord(r, reason, detail)) <==> (detail.Some? ==> Size(Bounded(detail.value)) <= DETAIL_CAP)
  {
    hide Size, Bounded, PlanSize, RecordJson, StrSize, PlanValid;
    var a := AbortedRecord(r, reason, detail);
    RecordSize(r);
    RecordSize(a);
    SamePlan(r, reason, detail);
    NamedSizes(r.state, reason);
    NullSizes(reason);
    SamePlanValid(subject, r, reason, detail);
  }

  lemma NullSizes(reason: string)
    ensures Size(Null) == 4 && Size(Str(reason)) == StrSize(reason)
  {
    hide StrSize;
  }

  lemma SamePlanValid(subject: string, r: Record, reason: string, detail: Option<Json>)
    ensures PlanValid(subject, AbortedRecord(r, reason, detail)) <==> PlanValid(subject, r)
  {
    hide Bounded, RefsRise, ModulesRise;
  }

  /** In particular any diagnostic that is not diverged, and none at all, can always be sent. */
  lemma AbortAlwaysFits(subject: string, r: Record, reason: string, detail: Option<Json>)
    requires Encodes(subject, r) && r.state != Aborted && reason in NAMED_REASONS
    requires detail.Some? ==> !Diverged(detail.value)
    ensures Encodes(subject, AbortedRecord(r, reason, detail))
  {
    hide Encodes, AbortedRecord, Size, Bounded, Diverged, SummaryWidth;
    AcceptedCanAbort(subject, r, reason, detail);
    if detail.Some? { BoundedWithinCap(detail.value); }
  }
}
