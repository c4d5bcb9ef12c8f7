/** Decoding a shared move record, and the round trip with its encoding. */
module MoveCodec {
  import opened Prelude
  import opened Text
  import opened Refs
  import opened Json
  import opened JsonRead
  import opened MoveRecord

  function ReadState(s: string): Option<RecordState> {
    match s
    case "published" => Some(Published)
    case "staged" => Some(Staged)
    case "claimed" => Some(Claimed)
    case "activated" => Some(Activated)
    case "released" => Some(Released)
    case "aborted" => Some(Aborted)
    case _ => None
  }

  function ReadRef(j: Json): Option<Ref> {
    if j.Obj? && Strict(j.fields, {"ref_kind", "ref"}, {}) then
      match (GetStr(j, "ref_kind"), GetStr(j, "ref")) case (Some(kind), Some(id)) => Some(Ref(kind, id)) case _ => None
    else None
  }

  function ReadExternal(j: Json): Option<External> {
    if j.Obj? && Strict(j.fields, {"ref_kind", "ref", "note", "check"}, {}) then
      match (GetStr(j, "ref_kind"), GetStr(j, "ref"), GetStr(j, "note"), Get(j, "check"))
      case (Some(kind), Some(id), Some(note), Some(check)) => Some(External(kind, id, note, check))
      case _ => None
    else None
  }

  function ReadParticipant(j: Json): Option<Participant> {
    if j.Obj? && Strict(j.fields, {"module_id", "refs", "external"}, {}) then
      match (GetStr(j, "module_id"), ReadList(Get(j, "refs"), ReadRef), ReadList(Get(j, "external"), ReadExternal))
      case (Some(moduleId), Some(refs), Some(external)) => Some(Participant(moduleId, refs, external))
      case _ => None
    else None
  }

  const REQUIRED: set<string> := {"v", "cut_id", "agent_id", "from", "to", "state", "claim_version", "participants"}
  const OPTIONAL: set<string> := {"pin_digest", "reason", "detail"}

  function ReadRecord(j: Json): Option<Record> {
    if j.Obj? && Strict(j.fields, REQUIRED, OPTIONAL) then
      match (ReadU64(Get(j, "v")), GetStr(j, "cut_id"), GetStr(j, "agent_id"), GetStr(j, "from"), GetStr(j, "to"))
      case (Some(v), Some(cutId), Some(agentId), Some(source), Some(target)) =>
        (match (GetStr(j, "state"), ReadU64(Get(j, "claim_version")), ReadList(Get(j, "participants"), ReadParticipant),
                ReadOptional(Get(j, "pin_digest"), ReadText), ReadOptional(Get(j, "reason"), ReadText))
         case (Some(name), Some(claimVersion), Some(participants), Some(pinDigest), Some(reason)) =>
           (match ReadState(name)
            case Some(state) =>
              Some(Record(v, cutId, agentId, source, target, state, claimVersion, participants, pinDigest, reason, ReadDetail(Get(j, "detail"))))
            case None => None)
         case _ => None)
      case _ => None
    else None
  }

  /** An explicit null is read as no detail. */
  function ReadDetail(j: Option<Json>): Option<Json> { if j == Some(Null) then None else j }

  /** What decoding a body answers: its length, its value if it is JSON at all, and the record it must hold. */
  ghost predicate Decoded(subject: string, len: nat, body: Option<Json>, r: Result<Record, CodecError>) {
    if len > BODY_CAP then r == Err(BodyTooLarge)
    else if body.None? then r == Err(MalformedBody)
    else
      var v := ReadU64(Get(body.value, "v"));
      if v.None? then r == Err(MalformedBody)
      else if v.value != 1 then r == Err(UnknownVersion)
      else if Get(body.value, "reason").None? || Get(body.value, "detail").None? || ReadRecord(body.value).None? then r == Err(MalformedBody)
      else
        var x := ReadRecord(body.value).value;
        if !RecordValid(subject, x) then r.Err? && RecordRefused(subject, x, r.error)
        else r == if x.state != Aborted && len > MOVE_BODY_CAP then Err(MoveTooLarge) else Ok(x)
  }

  method DecodeMoveRecord(subject: string, len: nat, body: Option<Json>) returns (r: Result<Record, CodecError>)
    ensures Decoded(subject, len, body, r)
  {
    hide ReadRecord, RecordValid, RecordRefused, Get;
    if len > BODY_CAP { return Err(BodyTooLarge); }
    if body.None? { return Err(MalformedBody); }
    var v := ReadU64(Get(body.value, "v"));
    if v.None? { return Err(MalformedBody); }
    if v.value != 1 { return Err(UnknownVersion); }
    if Get(body.value, "reason").None? || Get(body.value, "detail").None? { return Err(MalformedBody); }
    var record := ReadRecord(body.value);
    if record.None? { return Err(MalformedBody); }
    var refused := ValidateMove(subject, record.value);
    if refused.Some? { return Err(refused.value); }
    if record.value.state != Aborted && len > MOVE_BODY_CAP { return Err(MoveTooLarge); }
    return Ok(record.value);
  }

  // -------------------------------------------------------- the round trip

  lemma StateRead(state: RecordState)
    ensures ReadState(state.Name()) == Some(state)
  {
  }

  lemma RefRead(x: Ref)
    ensures ReadRef(RefJson(x)) == Some(x)
  {
    hide Field;
    var (fields, keys) := (RefJson(x).fields, ["ref_kind", "ref"]);
    StrictKeys(fields, keys, {"ref_kind", "ref"}, {});
    FieldFound(fields, keys);
    assert keys[0] == "ref_kind" && keys[1] == "ref";
  }

  lemma ExternalRead(x: External)
    ensures ReadExternal(ExternalJson(x)) == Some(x)
  {
    hide Field;
    var (fields, keys) := (ExternalJson(x).fields, ["ref_kind", "ref", "note", "check"]);
    StrictKeys(fields, keys, {"ref_kind", "ref", "note", "check"}, {});
    FieldFound(fields, keys);
    assert keys[0] == "ref_kind" && keys[1] == "ref" && keys[2] == "note" && keys[3] == "check";
  }

  lemma ParticipantRead(p: Participant)
    ensures ReadParticipant(ParticipantJson(p)) == Some(p)
  {
    hide Field, ReadItems, RefJson, ExternalJson, ReadRef, ReadExternal;
    var (fields, keys) := (ParticipantJson(p).fields, ["module_id", "refs", "external"]);
    StrictKeys(fields, keys, {"module_id", "refs", "external"}, {});
    FieldFound(fields, keys);
    assert keys[0] == "module_id" && keys[1] == "refs" && keys[2] == "external";
    forall i | 0 <= i < |p.refs| ensures ReadRef(RefJson(p.refs[i])) == Some(p.refs[i]) { RefRead(p.refs[i]); }
    forall i | 0 <= i < |p.external| ensures ReadExternal(ExternalJson(p.external[i])) == Some(p.external[i]) { ExternalRead(p.external[i]); }
    ItemsRead(fields[1].value.items, ReadRef, p.refs);
    ItemsRead(fields[2].value.items, ReadExternal, p.external);
  }

  lemma ParticipantsRead(r: Record)
    ensures ReadItems(ParticipantList(r).items, ReadParticipant) == Some(r.participants)
  {
    hide ReadItems, ParticipantJson, ReadParticipant;
    var ps := r.participants;
    forall i | 0 <= i < |ps| ensures ReadParticipant(ParticipantJson(ps[i])) == Some(ps[i]) { ParticipantRead(ps[i]); }
    ItemsRead(ParticipantList(r).items, ReadParticipant, ps);
  }

  /** An encoded record holds each field once, under its name on the wire. */
  lemma RecordFields(r: Record)
    ensures var j := RecordJson(r);
      && Strict(j.fields, REQUIRED, OPTIONAL)
      && Get(j, "v") == Some(Number(Decimal(r.v))) && Get(j, "claim_version") == Some(Number(Decimal(r.claimVersion)))
      && GetStr(j, "cut_id") == Some(r.cutId) && GetStr(j, "agent_id") == Some(r.agentId)
      && GetStr(j, "from") == Some(r.source) && GetStr(j, "to") == Some(r.target) && GetStr(j, "state") == Some(r.state.Name())
      && Get(j, "participants") == Some(ParticipantList(r))
      && Get(j, "pin_digest") == (if r.pinDigest.None? then None else Some(Str(r.pinDigest.value)))
      && Get(j, "reason") == Some(if r.reason.None? then Null else Str(r.reason.value))
      && Get(j, "detail") == Some(if r.detail.None? then Null else r.detail.value)
  {
    hide Field, Decimal, Strict, RecordJson, RecordKeys, Distinct, Keyed;
    var (j, keys) := (RecordJson(r), RecordKeys(r));
    RecordKeyed(r);
    StrictKeys(j.fields, keys, REQUIRED, OPTIONAL);
    FieldFound(j.fields, keys);
    RecordEntries(r);
    LaterEntries(r);
    if r.pinDigest.None? { NotFound(j.fields, "pin_digest"); }
  }

  function ParticipantList(r: Record): (j: Json)
    ensures j.List?
  { List(seq(|r.participants|, i requires 0 <= i < |r.participants| => ParticipantJson(r.participants[i])))
  }

  /** The fields in the order they are written here. */
  lemma RecordEntries(r: Record)
    ensures var (fields, keys) := (RecordJson(r).fields, RecordKeys(r));
      && |fields| == |keys| >= 10
      && (keys[0] == "v" && fields[0].value == Number(Decimal(r.v)))
      && (keys[1] == "cut_id" && fields[1].value == Str(r.cutId))
      && (keys[2] == "agent_id" && fields[2].value == Str(r.agentId))
      && (keys[3] == "from" && fields[3].value == Str(r.source))
      && (keys[4] == "to" && fields[4].value == Str(r.target))
  {
    hide ParticipantJson, Decimal;
  }

  lemma LaterEntries(r: Record)
    ensures var (fields, keys) := (RecordJson(r).fields, RecordKeys(r));
      var n := |fields| - 3;
      && |fields| == |keys| >= 10
      && (keys[5] == "claim_version" && fields[5].value == Number(Decimal(r.claimVersion)))
      && (keys[6] == "participants" && fields[6].value == ParticipantList(r))
      && (r.pinDigest.Some? ==> keys[7] == "pin_digest" && fields[7].value == Str(r.pinDigest.value))
      && (keys[n] == "state" && fields[n].value == Str(r.state.Name()))
      && (keys[n + 1] == "reason" && fields[n + 1].value == if r.reason.None? then Null else Str(r.reason.value))
      && (keys[n + 2] == "detail" && fields[n + 2].value == if r.detail.None? then Null else r.detail.value)
  {
    hide ParticipantJson, Decimal;
    var tail := [Member("state", Str(r.state.Name())), Member("reason", OrNull(r.reason)), Member("detail", DetailJson(r.detail))];
    assert RecordJson(r).fields == Before(r) + Between(r) + tail;
  }

  function RecordKeys(r: Record): seq<string> {
    if r.pinDigest.None? then ["v", "cut_id", "agent_id", "from", "to", "claim_version", "participants", "state", "reason", "detail"]
    else ["v", "cut_id", "agent_id", "from", "to", "claim_version", "participants", "pin_digest", "state", "reason", "detail"]
  }

  lemma RecordKeyed(r: Record)
    ensures Keyed(RecordJson(r).fields, RecordKeys(r)) && Distinct(RecordKeys(r))
    ensures r.pinDigest.None? ==> forall i :: 0 <= i < |RecordJson(r).fields| ==> RecordJson(r).fields[i].key != "pin_digest"
    ensures (forall k :: k in RecordKeys(r) ==> k in REQUIRED + OPTIONAL) && (forall k :: k in REQUIRED ==> k in RecordKeys(r))
  {
    hide ParticipantJson, Decimal;
  }

  /** What a record becomes on the wire and back: only an explicit null detail is lost. */
  function Unnulled(r: Record): Record { r.(detail := if r.detail == Some(Null) then None else r.detail) }

  lemma RecordRead(r: Record)
    ensures ReadRecord(RecordJson(r)) == Some(Unnulled(r))
  {
    hide Get, RecordJson, Strict, ParticipantList, ReadItems, Decimal, ReadState;
    RecordFields(r);
    NumberRead(r.v);
    NumberRead(r.claimVersion);
    StateRead(r.state);
    ParticipantsRead(r);
  }

  /**
   * Every record that encodes is accepted by the decoder, and comes back as it
   * was, if and only if its detail is not an explicit null.
   */
  lemma EncodeThenDecode(subject: string, r: Record, back: Result<Record, CodecError>)
    requires Encodes(subject, r) && Decoded(subject, Size(RecordJson(r)), Some(RecordJson(r)), back)
    ensures back.Ok? && (back.value == r <==> r.detail != Some(Null))
    ensures back.value == r.(detail := if r.detail == Some(Null) then None else r.detail)
  {
    hide Get, RecordJson, Strict, ReadRecord, Decimal, Size, RecordValid;
    RecordFields(r);
    NumberRead(r.v);
    RecordRead(r);
    UnnulledValid(subject, r);
  }

  lemma UnnulledValid(subject: string, r: Record)
    requires RecordValid(subject, r)
    ensures RecordValid(subject, Unnulled(r)) && r.v == 1
  {
    hide ParticipantsValid, Hex, Size;
  }

  /** A short key and a small value. */
  ghost predicate Small(m: Member) { |m.key| <= 20 && Size(m.value) <= 200 }

  lemma {:induction false} FieldsBound(fields: seq<Member>)
    requires forall i :: 0 <= i < |fields| ==> Small(fields[i])
    ensures FieldsSize(fields) <= 323 * |fields|
  {
    hide Size, StrSize;
    if fields != [] {
      assert Small(fields[0]);
      KeyBound(fields[0].key);
      FieldsBound(fields[1..]);
    }
  }

  lemma KeyBound(key: string)
    requires |key| <= 20
    ensures StrSize(key) <= 122
  {
    WidestSize(key);
  }

  const ZEROS: string := "00000000000000000000000000000000"

  const NULL_DETAIL: Record := Record(1, ZEROS, "", "", "", Aborted, 0, [], None, Some("operator"), Some(Null))

  /** A record for which the round trip is not exact: its explicit null is read as no detail. */
  lemma NullDetailIsLost(back: Result<Record, CodecError>)
    requires Decoded("move:" + ZEROS, Size(RecordJson(NULL_DETAIL)), Some(RecordJson(NULL_DETAIL)), back)
    ensures Encodes("move:" + ZEROS, NULL_DETAIL) && back == Ok(NULL_DETAIL.(detail := None)) && back.value != NULL_DETAIL
  {
    hide Size, RecordJson, Decoded, RecordValid;
    NullDetailValid();
    NullDetailFits();
    EncodeThenDecode("move:" + ZEROS, NULL_DETAIL, back);
  }

  lemma NullDetailValid()
    ensures RecordValid("move:" + ZEROS, NULL_DETAIL)
  {
  }

  lemma NullDetailFits()
    ensures Size(RecordJson(NULL_DETAIL)) <= BODY_CAP
  {
    hide Size, StrSize, FieldsSize, Decimal, Small, RecordJson;
    NullDetailFields();
    NullDetailSmall();
    FieldsBound(NULL_FIELDS);
    ObjSize(NULL_FIELDS);
  }

  const NULL_FIELDS: seq<Member> := [
    Member("v", Number(Decimal(1))), Member("cut_id", Str(ZEROS)), Member("agent_id", Str("")), Member("from", Str("")), Member("to", Str("")),
    Member("claim_version", Number(Decimal(0))), Member("participants", List([])),
    Member("state", Str("aborted")), Member("reason", Str("operator")), Member("detail", Null)]

  lemma NullDetailFields()
    ensures RecordJson(NULL_DETAIL).fields == NULL_FIELDS
  {
    hide Decimal;
    assert ParticipantList(NULL_DETAIL) == List([]);
  }

  lemma NullDetailSmall()
    ensures forall i :: 0 <= i < |NULL_FIELDS| ==> Small(NULL_FIELDS[i])
  {
    hide Size, StrSize, Decimal;
    TextBound(ZEROS);
    TextBound("");
    TextBound("operator");
    TextBound("aborted");
    SmallSizes();
  }

  lemma TextBound(s: string)
    requires |s| <= 32
    ensures Size(Str(s)) <= 194
  {
    WidestSize(s);
  }

  lemma SmallSizes()
    ensures Size(Null) == 4 && Size(List([])) == 2 && Size(Number(Decimal(1))) == 1 && Size(Number(Decimal(0))) == 1
  {
  }

  /** Two records with one encoding differ at most in writing no detail as null. */
  lemma EncodingTellsApart(a: Record, b: Record)
    requires RecordJson(a) == RecordJson(b)
    ensures a.(detail := None) == b.(detail := None)
    ensures a.detail == b.detail || (a.detail in {None, Some(Null)} && b.detail in {None, Some(Null)})
  {
    hide RecordJson, ReadRecord;
    RecordRead(a);
    RecordRead(b);
  }

  /** What the decoder accepts is fixed by encoding it again: it reads as the same record. */
  lemma DecodeThenEncode(subject: string, len: nat, body: Option<Json>, r: Record)
    requires Decoded(subject, len, body, Ok(r))
    ensures r.detail != Some(Null) && ReadRecord(RecordJson(r)) == Some(r)
  {
    hide RecordJson, Strict, RecordValid, Get, ReadItems;
    DetailNotNull(body.value, r);
    hide ReadRecord;
    RecordRead(r);
  }

  lemma DetailNotNull(j: Json, r: Record)
    requires ReadRecord(j) == Some(r)
    ensures r.detail != Some(Null)
  {
    hide Strict, Get, ReadItems, ReadState;
  }

  /**
   * An accepted move that is aborted with a named reason, and a diagnostic that
   * is not diverged, is read by the other machine as that abort of that plan.
   */
  lemma AbortIsRead(subject: string, r: Record, reason: string, detail: Option<Json>, back: Result<Record, CodecError>)
    requires Encodes(subject, r) && r.state != Aborted && reason in NAMED_REASONS && (detail.Some? ==> !Diverged(detail.value))
    requires var a := AbortedRecord(r, reason, detail); Decoded(subject, Size(RecordJson(a)), Some(RecordJson(a)), back)
    ensures back.Ok? && back.value.state == Aborted && back.value.reason == Some(reason)
    ensures back.value.(state := r.state, reason := r.reason, detail := r.detail) == r
  {
    hide Encodes, Decoded, RecordJson, Size, Diverged, Bounded;
    AbortAlwaysFits(subject, r, reason, detail);
    EncodeThenDecode(subject, AbortedRecord(r, reason, detail), back);
  }

  /** A summarised diagnostic says so; a diverged one also keeps what diverged, with its reason whole. */
  lemma SummaryMeans(d: Json)
    requires Size(d) > DETAIL_CAP
    ensures var s := Bounded(d);
      && Get(s, "truncated") == Some(Bool(true))
      && Get(s, "op") == Some(ClippedJson(GetStr(d, "op"))) && Get(s, "code") == Some(ClippedJson(GetStr(d, "code")))
      && Get(s, "module_id") == ClippedField(GetStr(d, "module_id"))
      && (GetStr(d, "state") in {Some("unknown"), Some("advanced")} ==>
            && Get(s, "ref") == ClippedField(GetStr(d, "ref")) && Get(s, "state") == ClippedField(GetStr(d, "state"))
            && GetStr(s, "reason") == GetStr(d, "reason"))
      && (GetStr(d, "state") !in {Some("unknown"), Some("advanced")} ==> Get(s, "ref") == None && Get(s, "state") == None && Get(s, "reason") == None)
  {
    hide Field, Size, GetStr, Get, ClippedJson, Summary, ClippedField, SummaryAt;
    SummaryAtKeys(d);
    forall key ensures Get(Summary(d), key) == SummaryAt(d, key) { SummaryFound(d, key); }
    StringFound(Summary(d), "reason");
  }

  lemma StringFound(j: Json, key: string)
    ensures GetStr(j, key) == match Get(j, key) case Some(Str(s)) => Some(s) case _ => None
  {
  }

  /** What a summary holds under each key. */
  function SummaryAt(d: Json, key: string): Option<Json> {
    match key
    case "truncated" => Some(Bool(true))
    case "op" => Some(ClippedJson(GetStr(d, "op")))
    case "code" => Some(ClippedJson(GetStr(d, "code")))
    case "module_id" => ClippedField(GetStr(d, "module_id"))
    case "ref" => if Diverged(d) then ClippedField(GetStr(d, "ref")) else None
    case "state" => if Diverged(d) then ClippedField(GetStr(d, "state")) else None
    case "reason" => if Diverged(d) then (match GetStr(d, "reason") case Some(s) => Some(Str(s)) case None => None) else None
    case _ => None
  }

  lemma SummaryAtKeys(d: Json)
    ensures SummaryAt(d, "truncated") == Some(Bool(true))
    ensures SummaryAt(d, "op") == Some(ClippedJson(GetStr(d, "op"))) && SummaryAt(d, "code") == Some(ClippedJson(GetStr(d, "code")))
    ensures SummaryAt(d, "module_id") == ClippedField(GetStr(d, "module_id"))
    ensures SummaryAt(d, "ref") == if Diverged(d) then ClippedField(GetStr(d, "ref")) else None
    ensures SummaryAt(d, "state") == if Diverged(d) then ClippedField(GetStr(d, "state")) else None
    ensures SummaryAt(d, "reason") == if Diverged(d) && GetStr(d, "reason").Some? then Some(Str(GetStr(d, "reason").value)) else None
  {
    hide GetStr, ClippedJson, ClippedField, Diverged;
  }

  lemma OptionalFound(name: string, s: Option<string>, key: string)
    ensures Field(OptionalField(name, s), key) == if key == name then ClippedField(s) else None
  {
    hide Clipped;
  }

  lemma FrontFound(op: Json, code: Json, key: string)
    ensures Field([Member("truncated", Bool(true)), Member("op", op), Member("code", code)], key)
         == if key == "truncated" then Some(Bool(true)) else if key == "op" then Some(op) else if key == "code" then Some(code) else None
  {
    var fields := [Member("truncated", Bool(true)), Member("op", op), Member("code", code)];
    var last := [Member("code", code)];
    assert last[1..] == [];
    assert fields[1..][1..] == last;
    assert Field(last, key) == if key == "code" then Some(code) else None;
    assert Field(fields[1..], key) == if key == "op" then Some(op) else Field(last, key);
  }

  lemma SummaryFound(d: Json, key: string)
    ensures Get(Summary(d), key) == SummaryAt(d, key)
  {
    hide Field, GetStr, ClippedJson, OptionalField, ClippedField;
    var (op, code) := (ClippedJson(GetStr(d, "op")), ClippedJson(GetStr(d, "code")));
    var front := [Member("truncated", Bool(true)), Member("op", op), Member("code", code)];
    var name := OptionalField("module_id", GetStr(d, "module_id"));
    var (ref, state) := (OptionalField("ref", GetStr(d, "ref")), OptionalField("state", GetStr(d, "state")));
    var reason := if GetStr(d, "reason").None? then [] else [Member("reason", Str(GetStr(d, "reason").value))];
    FrontFound(op, code, key);
    OptionalFound("module_id", GetStr(d, "module_id"), key);
    OptionalFound("ref", GetStr(d, "ref"), key);
    OptionalFound("state", GetStr(d, "state"), key);
    ReasonFound(GetStr(d, "reason"), key);
    FieldJoin(front, name, key);
    FieldJoin(ref, state, key);
    FieldJoin(ref + state, reason, key);
    FieldJoin(front + name, if Diverged(d) then ref + state + reason else [], key);
    if !Diverged(d) { NotFound([], key); }
  }

  lemma ReasonFound(s: Option<string>, key: string)
    ensures Field(if s.None? then [] else [Member("reason", Str(s.value))], key) == if key == "reason" && s.Some? then Some(Str(s.value)) else None
  {
  }

  /** The field a summarised text appears as, if there was such a text. */
  function ClippedField(s: Option<string>): Option<Json> { if s.None? then None else Some(ClippedJson(s)) }

  ghost predicate LowerHex(s: string, n: nat) { |s| == n && forall c :: c in s ==> c in "0123456789abcdef" }

  ghost predicate NeighboursRise(refs: seq<Ref>) {
    forall k: nat :: k + 1 < |refs| ==> RefBefore(refs[k], refs[k + 1])
  }

  ghost predicate ModuleNeighboursRise(ps: seq<Participant>) {
    forall k: nat :: k + 1 < |ps| ==> TextBefore(ps[k].moduleId, ps[k + 1].moduleId)
  }

  /** A well-formed record, field by field: neighbours in strict order are enough for its lists. */
  lemma ValidMeans(subject: string, r: Record)
    ensures RecordValid(subject, r) <==>
      && r.v == 1 && |subject| > 5 && subject[..5] == "move:" && subject[5..] == r.cutId
      && LowerHex(r.cutId, 32) && (r.pinDigest.Some? ==> LowerHex(r.pinDigest.value, 64))
      && (forall p :: p in r.participants ==> NeighboursRise(p.refs)) && ModuleNeighboursRise(r.participants)
      && (r.detail.Some? ==> |Rendered(r.detail.value)| <= 2048)
      && (r.state.Aborted? <==> r.reason.Some?) && (r.detail.Some? ==> r.state.Aborted?)
  {
    hide Size, Rendered, RefBefore, TextBefore, LowerHex, RefsRise, NeighboursRise, ModulesRise, ModuleNeighboursRise, Hex;
    if r.detail.Some? { SizeIsLength(r.detail.value); }
    HexMeans(r.cutId, 32);
    if r.pinDigest.Some? { HexMeans(r.pinDigest.value, 64); }
    ModuleOrder(r.participants);
    forall refs ensures RefsRise(refs) <==> NeighboursRise(refs) { RefOrder(refs); }
    if |subject| > 5 && subject[..5] == "move:" { assert subject == "move:" + subject[5..]; }
  }

  lemma HexMeans(s: string, n: nat)
    ensures LowerHex(s, n) <==> |s| == n && Hex(s)
  {
    forall c: char ensures IsDigit(c) || 'a' <= c <= 'f' <==> c in "0123456789abcdef" { HexDigits(c); }
  }

  lemma HexDigits(c: char)
    ensures IsDigit(c) || 'a' <= c <= 'f' <==> c in "0123456789abcdef"
  {
  }

  lemma RefOrder(refs: seq<Ref>)
    ensures RefsRise(refs) <==> NeighboursRise(refs)
  {
    hide RefBefore;
    if NeighboursRise(refs) {
      forall i, j | 0 <= i < j < |refs| ensures RefBefore(refs[i], refs[j]) { AdjacentRefsRise(refs, i, j); }
    }
  }

  lemma ModuleOrder(ps: seq<Participant>)
    ensures ModulesRise(ps) <==> ModuleNeighboursRise(ps)
  {
    hide TextBefore;
    if ModuleNeighboursRise(ps) {
      forall i, j | 0 <= i < j < |ps| ensures TextBefore(ps[i].moduleId, ps[j].moduleId) { AdjacentModulesRise(ps, i, j); }
    }
  }

  // ------------------------------------------------- what the decoder takes

  lemma StateMeans(name: string, state: RecordState)
    ensures ReadState(name) == Some(state) <==> name == state.Name()
  {
  }

  /** A reference is an object of exactly these two texts. */
  lemma RefReads(j: Json, x: Ref)
    ensures ReadRef(j) == Some(x) <==>
      j.Obj? && OnlyOnce(j.fields, {"ref_kind", "ref"}) && Get(j, "ref_kind") == Some(Str(x.kind)) && Get(j, "ref") == Some(Str(x.id))
  {
    hide Field;
  }

  lemma ExternalReads(j: Json, x: External)
    ensures ReadExternal(j) == Some(x) <==>
      && j.Obj? && OnlyOnce(j.fields, {"ref_kind", "ref", "note", "check"})
      && Get(j, "ref_kind") == Some(Str(x.kind)) && Get(j, "ref") == Some(Str(x.id)) && Get(j, "note") == Some(Str(x.note)) && Get(j, "check") == Some(x.check)
  {
    hide Field;
  }

  /** `j` is a list of as many items, each read as its place in `xs`. */
  ghost predicate ListReads<T>(j: Option<Json>, read: Json -> Option<T>, xs: seq<T>) {
    j.Some? && j.value.List? && |j.value.items| == |xs| && forall i :: 0 <= i < |xs| ==> read(j.value.items[i]) == Some(xs[i])
  }

  lemma ListMeans<T>(j: Option<Json>, read: Json -> Option<T>, xs: seq<T>)
    ensures ReadList(j, read) == Some(xs) <==> ListReads(j, read, xs)
    ensures ReadList(j, read).Some? ==> j.Some?
  {
    if j.Some? && j.value.List? {
      ItemsMean(j.value.items, read);
      if ListReads(j, read, xs) { ItemsRead(j.value.items, read, xs); }
    }
  }

  lemma ParticipantReads(j: Json, p: Participant)
    ensures ReadParticipant(j) == Some(p) <==>
      && j.Obj? && OnlyOnce(j.fields, {"module_id", "refs", "external"}) && Get(j, "module_id") == Some(Str(p.moduleId))
      && ListReads(Get(j, "refs"), ReadRef, p.refs) && ListReads(Get(j, "external"), ReadExternal, p.external)
  {
    hide Field, ReadList, ReadRef, ReadExternal, ListReads;
    ListMeans(Get(j, "refs"), ReadRef, p.refs);
    ListMeans(Get(j, "external"), ReadExternal, p.external);
  }

  /** A field that may be missing or null holds this text, or there is none. */
  ghost predicate HoldsText(j: Option<Json>, s: Option<string>) {
    if s.None? then j == None || j == Some(Null) else j == Some(Str(s.value))
  }

  /**
   * Which values are records, and of what: exactly the objects of the eleven
   * fields, none unknown and none twice, numbers and states spelled as they
   * are written, and only pin digest, reason and detail missing or null.
   */
  lemma RecordReads(j: Json, r: Record)
    ensures ReadRecord(j) == Some(r) <==>
      && j.Obj? && OnlyOnce(j.fields, {"v", "cut_id", "agent_id", "from", "to", "state", "claim_version", "participants", "pin_digest", "reason", "detail"})
      && Get(j, "v") == Some(Number(Decimal(r.v))) && Get(j, "claim_version") == Some(Number(Decimal(r.claimVersion)))
      && Get(j, "cut_id") == Some(Str(r.cutId)) && Get(j, "agent_id") == Some(Str(r.agentId))
      && Get(j, "from") == Some(Str(r.source)) && Get(j, "to") == Some(Str(r.target)) && Get(j, "state") == Some(Str(r.state.Name()))
      && ListReads(Get(j, "participants"), ReadParticipant, r.participants)
      && HoldsText(Get(j, "pin_digest"), r.pinDigest) && HoldsText(Get(j, "reason"), r.reason)
      && r.detail == (if Get(j, "detail") == Some(Null) then None else Get(j, "detail"))
  {
    hide Field, ReadList, ReadParticipant, ListReads, ReadState, Decimal, ReadU64, OnlyOnce, Strict;
    ListMeans(Get(j, "participants"), ReadParticipant, r.participants);
    if j.Obj? { StrictRecord(j); }
    NumbersMean();
    forall name, state ensures ReadState(name) == Some(state) <==> name == state.Name() { StateMeans(name, state); }
  }

  lemma StrictRecord(j: Json)
    requires j.Obj?
    ensures Strict(j.fields, REQUIRED, OPTIONAL) <==>
      && OnlyOnce(j.fields, {"v", "cut_id", "agent_id", "from", "to", "state", "claim_version", "participants", "pin_digest", "reason", "detail"})
      && (forall key :: key in REQUIRED ==> Get(j, key).Some?)
  {
    hide Field;
    assert REQUIRED + OPTIONAL == {"v", "cut_id", "agent_id", "from", "to", "state", "claim_version", "participants", "pin_digest", "reason", "detail"};
  }
}
