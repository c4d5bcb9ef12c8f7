/** Packing a bootstrap snapshot into log entries under a size cap. */
module Snapshot {
  import opened Prelude
  import opened Text
  import opened Json

  const SNAPSHOT_CAP: nat := 204_800
  const USIZE_MAX: nat := 0xFFFF_FFFF_FFFF_FFFF

  type Row = Json
  type Agent = Json

  datatype Changes = Changes(upsert: seq<Row>, delete: seq<Row>)

  datatype MemberName = MemberName(author: string, displayName: string)

  datatype Image = Image(tables: map<string, Changes>, agents: seq<Agent>, memberName: Option<MemberName>)

  /** One entry of the snapshot as sent. */
  datatype Part = Part(id: string, part: nat, parts: nat, base: Option<nat>, image: Image)

  // --------------------------------------------------------------- encoding

  function TableFields(tables: map<string, Changes>, names: seq<string>): seq<Member>
    requires forall t :: t in names ==> t in tables
  {
    seq(|names|, i requires 0 <= i < |names| =>
      assert names[i] in names;
      Member(names[i], Obj([Member("delete", List(tables[names[i]].delete)), Member("upsert", List(tables[names[i]].upsert))])))
  }

  /** The image's own fields; agents and name are left out when there are none. */
  function ImageFields(image: Image): seq<Member> {
    [Member("op", Str("shared.snapshot")), Member("tables", Obj(TableFields(image.tables, Sorted(image.tables.Keys))))]
    + (if image.agents == [] then [] else [Member("agents", List(image.agents))])
    + NameFields(image.memberName)
  }

  function NameFields(name: Option<MemberName>): seq<Member> {
    match name
    case None => []
    case Some(n) => [Member("member_name", Obj([Member("author", Str(n.author)), Member("display_name", Str(n.displayName))]))]
  }

  /** What a part adds around its image. Field order does not change the length. */
  function WireFields(p: Part): seq<Member> {
    [Member("snapshot_id", Str(p.id)), Member("part", Number(Decimal(p.part))), Member("parts", Number(Decimal(p.parts)))]
    + match p.base { case None => [] case Some(n) => [Member("supersedes_through", Number(Decimal(n)))] }
  }

  function BodySize(p: Part): nat { Size(Obj(WireFields(p) + ImageFields(p.image))) }

  /** The size an image is packed by: maximum-width counts, and a maximum-width base if there will be one. */
  function Estimate(id: string, image: Image, base: Option<nat>): nat {
    BodySize(Part(id, USIZE_MAX, USIZE_MAX, if base.Some? then Some(U64_MAX) else None, image))
  }

  // ------------------------------------------------------------------ units

  datatype Unit = RowUnit(table: string, row: Row) | AgentUnit(agent: Agent)

  function RowUnits(table: string, rows: seq<Row>): (us: seq<Unit>)
    ensures |us| == |rows| && forall i :: 0 <= i < |rows| ==> us[i] == RowUnit(table, rows[i])
  {
    seq(|rows|, i requires 0 <= i < |rows| => RowUnit(table, rows[i]))
  }

  function TableUnits(tables: map<string, Changes>, names: seq<string>): seq<Unit>
    requires forall t :: t in names ==> t in tables
  {
    if names == [] then []
    else TableUnits(tables, names[..|names| - 1]) + RowUnits(names[|names| - 1], tables[names[|names| - 1]].upsert)
  }

  function AgentUnits(agents: seq<Agent>): (us: seq<Unit>)
    ensures |us| == |agents| && forall i :: 0 <= i < |agents| ==> us[i] == AgentUnit(agents[i])
  {
    seq(|agents|, i requires 0 <= i < |agents| => AgentUnit(agents[i]))
  }

  /** Every row, table by table in name order, then every agent. */
  function Units(image: Image): seq<Unit> {
    TableUnits(image.tables, Sorted(image.tables.Keys)) + AgentUnits(image.agents)
  }

  function Add(image: Image, u: Unit): Image {
    match u
    case RowUnit(t, row) =>
      image.(tables := image.tables[t := if t in image.tables then image.tables[t].(upsert := image.tables[t].upsert + [row]) else Changes([row], [])])
    case AgentUnit(a) => image.(agents := image.agents + [a])
  }

  function Build(name: Option<MemberName>, us: seq<Unit>): Image {
    if us == [] then Image(map[], [], name) else Add(Build(name, us[..|us| - 1]), us[|us| - 1])
  }

  // ---------------------------------------------------------------- packing

  function Fits(id: string, base: Option<nat>, image: Image): bool {
    Estimate(id, image, base) <= SNAPSHOT_CAP
  }

  /** Only the first part carries the member's name. */
  function NameAt(name: Option<MemberName>, i: nat): Option<MemberName> { if i == 0 then name else None }

  /** Part `i` holds the units from `from` up to `to`, and fitted after each of them; only an opening part may hold none. */
  ghost predicate Holds(id: string, base: Option<nat>, name: Option<MemberName>, us: seq<Unit>, i: nat, from: nat, to: nat, image: Image) {
    && from <= to <= |us| && image == Build(NameAt(name, i), us[from..to])
    && (i > 0 ==> from < to) && forall k :: from < k <= to ==> Fits(id, base, Build(NameAt(name, i), us[from..k]))
  }

  /** It was closed because its next unit no longer fitted. */
  ghost predicate Full(id: string, base: Option<nat>, name: Option<MemberName>, us: seq<Unit>, i: nat, from: nat, to: nat) {
    from <= to < |us| && !Fits(id, base, Build(NameAt(name, i), us[from..to + 1]))
  }

  /** The closed parts hold exactly the units before `to`, in order. */
  ghost predicate ClosedTo(id: string, base: Option<nat>, name: Option<MemberName>, us: seq<Unit>, images: seq<Image>, to: nat) {
    if images == [] then to == 0
    else
      var i := |images| - 1;
      exists from: nat :: ClosedTo(id, base, name, us, images[..i], from) && Holds(id, base, name, us, i, from, to, images[i])
                          && Full(id, base, name, us, i, from, to)
  }

  /** All units packed: closed parts, and the last one with the rest. */
  ghost predicate Packs(id: string, base: Option<nat>, name: Option<MemberName>, us: seq<Unit>, images: seq<Image>) {
    images != [] &&
    var i := |images| - 1;
    exists from: nat :: ClosedTo(id, base, name, us, images[..i], from) && Holds(id, base, name, us, i, from, |us|, images[i])
  }

  ghost predicate Oversize(id: string, base: Option<nat>, u: Unit) {
    !Fits(id, base, Build(None, [u]))
  }

  function PartsOf(id: string, images: seq<Image>, base: Option<nat>): (ps: seq<Part>)
    ensures |ps| == |images|
    ensures forall i :: 0 <= i < |ps| ==> ps[i] == Part(id, i + 1, |images|, base, images[i])
  {
    seq(|images|, i requires 0 <= i < |images| => Part(id, i + 1, |images|, base, images[i]))
  }

  lemma BuildNext(name: Option<MemberName>, us: seq<Unit>, a: nat, k: nat)
    requires a <= k < |us|
    ensures Build(name, us[a..k + 1]) == Add(Build(name, us[a..k]), us[k])
  {
    assert us[a..k + 1][..k - a] == us[a..k];
  }

  lemma OneUnit(us: seq<Unit>, k: nat)
    requires k < |us|
    ensures us[k..k + 1] == [us[k]]
  {
  }

  /** Take the image apart: rows in table order, then agents. */
  method ListUnits(image: Image) returns (us: seq<Unit>)
    ensures us == Units(image)
  {
    us := [];
    var names := Sorted(image.tables.Keys);
    for i := 0 to |names|
      invariant us == TableUnits(image.tables, names[..i])
    {
      assert names[..i + 1][..i] == names[..i];
      us := us + RowUnits(names[i], image.tables[names[i]].upsert);
    }
    assert names[..|names|] == names;
    us := us + AgentUnits(image.agents);
  }

  /** The first unit that would not fit in a part of its own. */
  ghost predicate FirstOversize(id: string, base: Option<nat>, us: seq<Unit>, u: Unit) {
    exists k :: 0 <= k < |us| && us[k] == u && Oversize(id, base, us[k]) && forall j :: 0 <= j < k ==> !Oversize(id, base, us[j])
  }

  /**
   * Pack greedily. Refused, naming the row, exactly when some row is too large
   * for a part of its own.
   */
  method Partition(id: string, image: Image, base: nat) returns (r: Result<seq<Part>, Unit>)
    ensures var (us, over) := (Units(image), if base > 0 then Some(base) else None);
      && (r.Err? ==> FirstOversize(id, over, us, r.error))
      && (r.Ok? ==> (forall u :: u in us ==> !Oversize(id, over, u))
                    && exists images :: Packs(id, over, image.memberName, us, images) && r.value == PartsOf(id, images, over))
  {
    hide Fits, Build, Add, Units;
    var over := if base > 0 then Some(base) else None;
    ghost var name := image.memberName;
    var us := ListUnits(image);
    var images: seq<Image> := [];
    var current := Image(map[], [], image.memberName);
    ghost var from: nat := 0;
    assert us[0..0] == [];
    assert Build(name, []) == current by { BuildNone(name); }
    for k := 0 to |us|
      invariant from <= k && ClosedTo(id, over, name, us, images, from)
      invariant Holds(id, over, name, us, |images|, from, k, current)
      invariant forall j :: 0 <= j < k ==> !Oversize(id, over, us[j])
    {
      var u := us[k];
      BuildNext(NameAt(name, |images|), us, from, k);
      OneUnit(us, k);
      var alone := AddTo(Image(map[], [], None), u);
      assert alone == Build(None, [u]) by { BuildOne(u); }
      if !Fits(id, over, alone) {
        assert Oversize(id, over, us[k]);
        return Err(u);
      }
      var next := AddTo(current, u);
      if !Fits(id, over, next) {
        assert (images + [current])[..|images|] == images;
        images := images + [current];
        current, from := alone, k;
      } else {
        current := next;
      }
    }
    assert (images + [current])[..|images|] == images;
    images := images + [current];
    assert Packs(id, over, name, us, images);
    return Ok(PartsOf(id, images, over));
  }

  /** `clone` and `extend` by one unit. */
  method AddTo(image: Image, u: Unit) returns (next: Image)
    ensures next == Add(image, u)
  {
    next := image;
    match u {
      case RowUnit(t, row) =>
        var changes := if t in next.tables then next.tables[t] else Changes([], []);
        assert [] + [row] == [row];
        next := next.(tables := next.tables[t := changes.(upsert := changes.upsert + [row])]);
      case AgentUnit(a) =>
        next := next.(agents := next.agents + [a]);
    }
  }

  lemma BuildNone(name: Option<MemberName>)
    ensures Build(name, []) == Image(map[], [], name)
  {
  }

  lemma BuildOne(u: Unit)
    ensures Build(None, [u]) == Add(Image(map[], [], None), u)
  {
    assert [u][..0] == [];
  }

  // ---------------------------------------------------------------- within the cap

  lemma {:induction false} DecimalGrows(a: nat, b: nat)
    requires a <= b
    ensures |Decimal(a)| <= |Decimal(b)|
  {
    if b >= 10 && a >= 10 { DecimalGrows(a / 10, b / 10); }
  }

  /** The numbers in the wire fields are all that counts and base change. */
  function NumbersSize(p: Part): nat {
    |Decimal(p.part)| + |Decimal(p.parts)| + match p.base { case None => 0 case Some(n) => |Decimal(n)| + StrSize("supersedes_through") + 2 }
  }

  lemma WireSize(p: Part)
    ensures FieldsSize(WireFields(p)) + |WireFields(p)| == 6 + StrSize("snapshot_id") + StrSize("part") + StrSize("parts") + StrSize(p.id) + NumbersSize(p)
  {
    hide StrSize, FieldsSize, Decimal;
    var front := [Member("snapshot_id", Str(p.id)), Member("part", Number(Decimal(p.part))), Member("parts", Number(Decimal(p.parts)))];
    ThreeFields(front[0], front[1], front[2]);
    match p.base {
      case None => assert WireFields(p) == front;
      case Some(n) =>
        var base := Member("supersedes_through", Number(Decimal(n)));
        OneField(base);
        FieldsConcat(front, [base]);
    }
  }

  lemma BodySizeIs(p: Part)
    ensures BodySize(p) == 7 + StrSize("snapshot_id") + StrSize("part") + StrSize("parts") + StrSize(p.id) + NumbersSize(p)
                           + FieldsSize(ImageFields(p.image)) + |ImageFields(p.image)|
  {
    hide StrSize, FieldsSize, Decimal, WireFields, ImageFields, Size, NumbersSize;
    WireSize(p);
    FieldsConcat(WireFields(p), ImageFields(p.image));
    HasWireFields(p);
    ObjSize(WireFields(p) + ImageFields(p.image));
  }

  lemma HasWireFields(p: Part)
    ensures WireFields(p) + ImageFields(p.image) != []
  {
    hide Decimal, ImageFields;
    assert |WireFields(p)| >= 3;
  }

  /** Real counts and the real base are never wider than the estimate. */
  lemma WithinEstimate(p: Part)
    requires p.part <= USIZE_MAX && p.parts <= USIZE_MAX && (p.base.Some? ==> p.base.value <= U64_MAX)
    ensures BodySize(p) <= Estimate(p.id, p.image, p.base)
  {
    hide Decimal, BodySize, StrSize, ImageFields, FieldsSize;
    BodySizeIs(p);
    BodySizeIs(Part(p.id, USIZE_MAX, USIZE_MAX, if p.base.Some? then Some(U64_MAX) else None, p.image));
    DecimalGrows(p.part, USIZE_MAX);
    DecimalGrows(p.parts, USIZE_MAX);
    if p.base.Some? { DecimalGrows(p.base.value, U64_MAX); }
  }

  /** An opening part that holds no unit: at most the member's name. */
  predicate NameOnly(image: Image) { image.tables == map[] && image.agents == [] }

  lemma HeldFits(id: string, base: Option<nat>, name: Option<MemberName>, us: seq<Unit>, i: nat, from: nat, to: nat, image: Image)
    requires Holds(id, base, name, us, i, from, to, image)
    ensures Fits(id, base, image) || (i == 0 && NameOnly(image))
  {
    hide Fits;
    if from == to { assert us[from..to] == []; }
  }

  lemma {:induction false} ClosedFit(id: string, base: Option<nat>, name: Option<MemberName>, us: seq<Unit>, images: seq<Image>, to: nat, i: nat)
    requires ClosedTo(id, base, name, us, images, to) && i < |images|
    ensures Fits(id, base, images[i]) || (i == 0 && NameOnly(images[i]))
  {
    hide Fits, Holds, Full, NameOnly;
    var last := |images| - 1;
    var from: nat :| ClosedTo(id, base, name, us, images[..last], from) && Holds(id, base, name, us, last, from, to, images[last])
                     && Full(id, base, name, us, last, from, to);
    if i == last {
      HeldFits(id, base, name, us, last, from, to, images[last]);
    } else {
      ClosedFit(id, base, name, us, images[..last], from, i);
    }
  }

  /** Every entry sent is within the cap once its real counts replace the estimates, unless it opens with nothing but the name. */
  lemma PartWithinCap(id: string, base: Option<nat>, name: Option<MemberName>, us: seq<Unit>, images: seq<Image>, i: nat)
    requires Packs(id, base, name, us, images) && i < |images| <= USIZE_MAX && (base.Some? ==> base.value <= U64_MAX)
    ensures BodySize(PartsOf(id, images, base)[i]) <= SNAPSHOT_CAP || (i == 0 && NameOnly(images[0]))
  {
    hide Holds, Full, NameOnly, BodySize;
    var last := |images| - 1;
    var from: nat :| ClosedTo(id, base, name, us, images[..last], from) && Holds(id, base, name, us, last, from, |us|, images[last]);
    if i == last {
      HeldFits(id, base, name, us, last, from, |us|, images[last]);
    } else {
      ClosedFit(id, base, name, us, images[..last], from, i);
    }
    WithinEstimate(PartsOf(id, images, base)[i]);
  }

  function OnlyName(name: Option<MemberName>): Image { Image(map[], [], name) }

  /** The member's name is left alone in the first part: there is nothing else, or the first unit does not fit beside it. */
  predicate NameAlone(id: string, base: Option<nat>, name: Option<MemberName>, us: seq<Unit>) {
    us == [] || !Fits(id, base, Build(name, [us[0]]))
  }

  lemma {:induction false} BuildKeeps(name: Option<MemberName>, us: seq<Unit>)
    ensures NameOnly(Build(name, us)) <==> us == []
    ensures us == [] ==> Build(name, us) == OnlyName(name)
  {
    if us != [] { BuildKeeps(name, us[..|us| - 1]); }
  }

  /** The first part: how far it reaches, and why it ends there. */
  lemma {:induction false} FirstClosed(id: string, base: Option<nat>, name: Option<MemberName>, us: seq<Unit>, images: seq<Image>, to: nat)
    requires ClosedTo(id, base, name, us, images, to) && images != []
    ensures exists end: nat :: Holds(id, base, name, us, 0, 0, end, images[0]) && Full(id, base, name, us, 0, 0, end)
  {
    hide Holds, Full;
    var last := |images| - 1;
    var from: nat :| ClosedTo(id, base, name, us, images[..last], from) && Holds(id, base, name, us, last, from, to, images[last])
                     && Full(id, base, name, us, last, from, to);
    if last > 0 { FirstClosed(id, base, name, us, images[..last], from); }
  }

  lemma FirstPart(id: string, base: Option<nat>, name: Option<MemberName>, us: seq<Unit>, images: seq<Image>)
    requires Packs(id, base, name, us, images)
    ensures exists end: nat :: Holds(id, base, name, us, 0, 0, end, images[0]) && (end == |us| || Full(id, base, name, us, 0, 0, end))
  {
    hide Holds, Full;
    var last := |images| - 1;
    var from: nat :| ClosedTo(id, base, name, us, images[..last], from) && Holds(id, base, name, us, last, from, |us|, images[last]);
    if last > 0 { FirstClosed(id, base, name, us, images[..last], from); }
  }

  /** What the caller hands over decides whether the first part holds the name alone. */
  lemma NameAloneMeans(id: string, base: Option<nat>, name: Option<MemberName>, us: seq<Unit>, images: seq<Image>)
    requires Packs(id, base, name, us, images)
    ensures NameOnly(images[0]) <==> NameAlone(id, base, name, us)
    ensures NameOnly(images[0]) ==> images[0] == OnlyName(name)
  {
    hide Fits, Build, NameOnly, ClosedTo;
    FirstPart(id, base, name, us, images);
    var end: nat :| Holds(id, base, name, us, 0, 0, end, images[0]) && (end == |us| || Full(id, base, name, us, 0, 0, end));
    BuildKeeps(name, us[0..end]);
    if us != [] {
      assert us[0..1] == [us[0]];
    }
  }

  /**
   * All parts are within the cap if and only if the name is not left alone in
   * the first one, or that part with its real counts is within the cap.
   */
  lemma PartsWithinCap(id: string, base: Option<nat>, image: Image, images: seq<Image>)
    requires Packs(id, base, image.memberName, Units(image), images) && |images| <= USIZE_MAX && (base.Some? ==> base.value <= U64_MAX)
    ensures (forall i :: 0 <= i < |images| ==> BodySize(PartsOf(id, images, base)[i]) <= SNAPSHOT_CAP)
       <==> !NameAlone(id, base, image.memberName, Units(image)) || BodySize(Part(id, 1, |images|, base, OnlyName(image.memberName))) <= SNAPSHOT_CAP
  {
    hide Packs, BodySize, NameAlone, NameOnly, OnlyName, Units;
    NameAloneMeans(id, base, image.memberName, Units(image), images);
    assert images != [] by { PacksSome(id, base, image.memberName, Units(image), images); }
    forall i | 0 <= i < |images| ensures BodySize(PartsOf(id, images, base)[i]) <= SNAPSHOT_CAP || (i == 0 && NameOnly(images[0])) {
      PartWithinCap(id, base, image.memberName, Units(image), images, i);
    }
    assert PartsOf(id, images, base)[0] == Part(id, 1, |images|, base, images[0]);
  }

  lemma PacksSome(id: string, base: Option<nat>, name: Option<MemberName>, us: seq<Unit>, images: seq<Image>)
    requires Packs(id, base, name, us, images)
    ensures images != []
  {
  }

  /** Before anything is packed: when the name-only estimate fits, every part will. */
  lemma NameFitsAllFit(id: string, base: Option<nat>, image: Image, images: seq<Image>)
    requires Packs(id, base, image.memberName, Units(image), images) && |images| <= USIZE_MAX && (base.Some? ==> base.value <= U64_MAX)
    requires Fits(id, base, OnlyName(image.memberName))
    ensures forall i :: 0 <= i < |images| ==> BodySize(PartsOf(id, images, base)[i]) <= SNAPSHOT_CAP
  {
    hide Packs, BodySize, NameAlone, OnlyName, Units;
    PacksSome(id, base, image.memberName, Units(image), images);
    PartsWithinCap(id, base, image, images);
    WithinEstimate(Part(id, 1, |images|, base, OnlyName(image.memberName)));
  }

  /** What a stored member name has passed, and the ids that are drawn for snapshots. */
  predicate NameValid(n: MemberName) { |n.author| == 32 && 1 <= |n.displayName| <= 64 }

  /** A name that can be stored never comes near the cap, so every snapshot the store prepares fits. */
  lemma StoredNamesFit(id: string, base: Option<nat>, image: Image, images: seq<Image>)
    requires |id| == 32 && (image.memberName.Some? ==> NameValid(image.memberName.value))
    requires Packs(id, base, image.memberName, Units(image), images) && |images| <= USIZE_MAX && (base.Some? ==> base.value <= U64_MAX)
    ensures forall i :: 0 <= i < |images| ==> BodySize(PartsOf(id, images, base)[i]) <= SNAPSHOT_CAP
  {
    hide Packs, BodySize, Units, PartsOf, NameValid;
    OnlyNameSize(id, base, image.memberName);
    NameFitsAllFit(id, base, image, images);
  }

  // ---------------------------------------------------------------- restoring

  function RowsOf(image: Image, t: string): seq<Row> { if t in image.tables then image.tables[t].upsert else [] }

  function UnitRows(us: seq<Unit>, t: string): seq<Row> {
    if us == [] then []
    else UnitRows(us[..|us| - 1], t) + match us[|us| - 1] { case RowUnit(table, row) => if table == t then [row] else [] case AgentUnit(_) => [] }
  }

  function UnitAgents(us: seq<Unit>): seq<Agent> {
    if us == [] then []
    else UnitAgents(us[..|us| - 1]) + match us[|us| - 1] { case RowUnit(_, _) => [] case AgentUnit(a) => [a] }
  }

  function AllRows(images: seq<Image>, t: string): seq<Row> {
    if images == [] then [] else AllRows(images[..|images| - 1], t) + RowsOf(images[|images| - 1], t)
  }

  function AllAgents(images: seq<Image>): seq<Agent> {
    if images == [] then [] else AllAgents(images[..|images| - 1]) + images[|images| - 1].agents
  }

  lemma {:induction false} BuildHolds(name: Option<MemberName>, us: seq<Unit>, t: string)
    ensures RowsOf(Build(name, us), t) == UnitRows(us, t) && Build(name, us).agents == UnitAgents(us) && Build(name, us).memberName == name
    ensures forall n :: n in Build(name, us).tables ==> Build(name, us).tables[n].delete == []
  {
    if us != [] { BuildHolds(name, us[..|us| - 1], t); }
  }

  lemma {:induction false} RowsConcat(a: seq<Unit>, b: seq<Unit>, t: string)
    ensures UnitRows(a + b, t) == UnitRows(a, t) + UnitRows(b, t)
  {
    if b == [] {
      assert a + b == a;
    } else {
      RowsConcat(a, b[..|b| - 1], t);
      assert (a + b)[..|a + b| - 1] == a + b[..|b| - 1];
    }
  }

  lemma {:induction false} AgentsConcat(a: seq<Unit>, b: seq<Unit>)
    ensures UnitAgents(a + b) == UnitAgents(a) + UnitAgents(b)
  {
    if b == [] {
      assert a + b == a;
    } else {
      AgentsConcat(a, b[..|b| - 1]);
      assert (a + b)[..|a + b| - 1] == a + b[..|b| - 1];
    }
  }

  lemma UnitsConcat(a: seq<Unit>, b: seq<Unit>, t: string)
    ensures UnitRows(a + b, t) == UnitRows(a, t) + UnitRows(b, t) && UnitAgents(a + b) == UnitAgents(a) + UnitAgents(b)
  {
    hide UnitRows, UnitAgents;
    RowsConcat(a, b, t);
    AgentsConcat(a, b);
  }

  /** One more part: what it holds continues what the parts before it restore. */
  lemma RestoreNext(name: Option<MemberName>, us: seq<Unit>, images: seq<Image>, from: nat, to: nat, t: string)
    requires images != [] && from <= to <= |us|
    requires images[|images| - 1] == Build(NameAt(name, |images| - 1), us[from..to])
    requires AllRows(images[..|images| - 1], t) == UnitRows(us[..from], t) && AllAgents(images[..|images| - 1]) == UnitAgents(us[..from])
    ensures AllRows(images, t) == UnitRows(us[..to], t) && AllAgents(images) == UnitAgents(us[..to])
    ensures images[|images| - 1].memberName == NameAt(name, |images| - 1)
  {
    hide Build, UnitRows, UnitAgents, RowsOf;
    BuildHolds(NameAt(name, |images| - 1), us[from..to], t);
    UnitsConcat(us[..from], us[from..to], t);
    assert us[..from] + us[from..to] == us[..to];
  }

  lemma HoldsBuilt(id: string, base: Option<nat>, name: Option<MemberName>, us: seq<Unit>, i: nat, from: nat, to: nat, image: Image)
    requires Holds(id, base, name, us, i, from, to, image)
    ensures from <= to <= |us| && image == Build(NameAt(name, i), us[from..to])
  {
    hide Fits, Build;
  }

  lemma NothingRestored(us: seq<Unit>, t: string)
    ensures UnitRows(us[..0], t) == [] && UnitAgents(us[..0]) == []
  {
  }

  lemma {:induction false} ClosedRestore(id: string, base: Option<nat>, name: Option<MemberName>, us: seq<Unit>, images: seq<Image>, to: nat, t: string)
    requires ClosedTo(id, base, name, us, images, to)
    ensures to <= |us| && AllRows(images, t) == UnitRows(us[..to], t) && AllAgents(images) == UnitAgents(us[..to])
    ensures forall i :: 0 <= i < |images| ==> images[i].memberName == NameAt(name, i)
  {
    hide Fits, Full, Holds, Build, UnitRows, UnitAgents, NameAt;
    if images != [] {
      var last := |images| - 1;
      var from: nat :| ClosedTo(id, base, name, us, images[..last], from) && Holds(id, base, name, us, last, from, to, images[last])
                       && Full(id, base, name, us, last, from, to);
      ClosedRestore(id, base, name, us, images[..last], from, t);
      HoldsBuilt(id, base, name, us, last, from, to, images[last]);
      RestoreNext(name, us, images, from, to, t);
    } else {
      NothingRestored(us, t);
    }
  }

  lemma PacksRestore(id: string, base: Option<nat>, name: Option<MemberName>, us: seq<Unit>, images: seq<Image>, t: string)
    requires Packs(id, base, name, us, images)
    ensures AllRows(images, t) == UnitRows(us, t) && AllAgents(images) == UnitAgents(us)
    ensures forall i :: 0 <= i < |images| ==> images[i].memberName == NameAt(name, i)
  {
    hide Fits, ClosedTo, Holds, Build, UnitRows, UnitAgents, NameAt, AllRows, AllAgents;
    var last := |images| - 1;
    var from: nat :| ClosedTo(id, base, name, us, images[..last], from) && Holds(id, base, name, us, last, from, |us|, images[last]);
    ClosedRestore(id, base, name, us, images[..last], from, t);
    HoldsBuilt(id, base, name, us, last, from, |us|, images[last]);
    RestoreNext(name, us, images, from, |us|, t);
    assert us[..|us|] == us;
  }

  lemma {:induction false} RowUnitsRows(table: string, rows: seq<Row>, t: string)
    ensures UnitRows(RowUnits(table, rows), t) == (if table == t then rows else []) && UnitAgents(RowUnits(table, rows)) == []
  {
    if rows != [] {
      RowUnitsRows(table, rows[..|rows| - 1], t);
      assert RowUnits(table, rows)[..|rows| - 1] == RowUnits(table, rows[..|rows| - 1]);
      assert rows == rows[..|rows| - 1] + [rows[|rows| - 1]];
    }
  }

  lemma {:induction false} AgentUnitsAgents(agents: seq<Agent>, t: string)
    ensures UnitRows(AgentUnits(agents), t) == [] && UnitAgents(AgentUnits(agents)) == agents
  {
    if agents != [] {
      AgentUnitsAgents(agents[..|agents| - 1], t);
      assert AgentUnits(agents)[..|agents| - 1] == AgentUnits(agents[..|agents| - 1]);
      assert agents == agents[..|agents| - 1] + [agents[|agents| - 1]];
    }
  }

  lemma {:induction false} TableUnitsRows(tables: map<string, Changes>, names: seq<string>, t: string)
    requires forall n :: n in names ==> n in tables
    requires forall i, j :: 0 <= i < j < |names| ==> names[i] != names[j]
    ensures UnitRows(TableUnits(tables, names), t) == (if t in names then tables[t].upsert else []) && UnitAgents(TableUnits(tables, names)) == []
  {
    if names != [] {
      var (front, last) := (names[..|names| - 1], names[|names| - 1]);
      TableUnitsRows(tables, front, t);
      RowUnitsRows(last, tables[last].upsert, t);
      UnitsConcat(TableUnits(tables, front), RowUnits(last, tables[last].upsert), t);
      assert names == front + [last];
    }
  }

  /**
   * Reading the parts back in order restores every table's rows and all agents
   * in order, and the member's name comes from the first part alone.
   */
  lemma PartitionRestores(id: string, image: Image, base: Option<nat>, images: seq<Image>, t: string)
    requires Packs(id, base, image.memberName, Units(image), images)
    ensures AllRows(images, t) == RowsOf(image, t) && AllAgents(images) == image.agents
    ensures forall i :: 0 <= i < |images| ==> images[i].memberName == if i == 0 then image.memberName else None
  {
    hide Packs, TableUnits, AgentUnits, UnitRows, UnitAgents, Sorted;
    var names := Sorted(image.tables.Keys);
    AscendingDistinct(names);
    PacksRestore(id, base, image.memberName, Units(image), images, t);
    TableUnitsRows(image.tables, names, t);
    AgentUnitsAgents(image.agents, t);
    UnitsConcat(TableUnits(image.tables, names), AgentUnits(image.agents), t);
  }

  lemma NamePartSize(name: Option<MemberName>)
    ensures var fields := ImageFields(OnlyName(name));
      FieldsSize(fields) + |fields| == 6 + StrSize("op") + StrSize("shared.snapshot") + StrSize("tables")
        + if name.None? then 0
          else 7 + StrSize("member_name") + StrSize("author") + StrSize("display_name") + StrSize(name.value.author) + StrSize(name.value.displayName)
  {
    hide StrSize, FieldsSize;
    var (op, tables) := (Member("op", Str("shared.snapshot")), Member("tables", Obj([])));
    assert Sorted({}) == [];
    assert TableFields(map[], Sorted({})) == [];
    NoFields();
    OneField(op);
    OneField(tables);
    FieldsConcat([op], [tables]);
    assert [op] + [tables] == [op, tables];
    match name {
      case None => assert ImageFields(OnlyName(name)) == [op, tables];
      case Some(n) =>
        var (author, shown) := (Member("author", Str(n.author)), Member("display_name", Str(n.displayName)));
        OneField(author);
        OneField(shown);
        FieldsConcat([author], [shown]);
        assert [author] + [shown] == [author, shown];
        ObjSize([author, shown]);
        OneField(Member("member_name", Obj([author, shown])));
        FieldsConcat([op, tables], NameFields(name));
        assert ImageFields(OnlyName(name)) == [op, tables] + NameFields(name);
    }
  }

  lemma NoFields()
    ensures Size(Obj([])) == 2
  {
  }

  lemma ShortSize(s: string, n: nat)
    requires |s| <= n
    ensures StrSize(s) <= 2 + 6 * n
  {
    WidestSize(s);
  }

  lemma OnlyNameSize(id: string, base: Option<nat>, name: Option<MemberName>)
    requires |id| == 32 && (name.Some? ==> NameValid(name.value))
    ensures Fits(id, base, OnlyName(name))
  {
    hide BodySize, StrSize, ImageFields, FieldsSize, Decimal;
    BodySizeIs(Part(id, USIZE_MAX, USIZE_MAX, if base.Some? then Some(U64_MAX) else None, OnlyName(name)));
    NamePartSize(name);
    WidestCount();
    ShortSize(id, 32);
    ShortSize("snapshot_id", 20);
    ShortSize("part", 20);
    ShortSize("parts", 20);
    ShortSize("supersedes_through", 20);
    ShortSize("op", 20);
    ShortSize("shared.snapshot", 20);
    ShortSize("tables", 20);
    ShortSize("member_name", 20);
    ShortSize("author", 20);
    ShortSize("display_name", 20);
    if name.Some? {
      ShortSize(name.value.author, 32);
      ShortSize(name.value.displayName, 64);
    }
  }

  lemma LongNameSize(p: Part, name: MemberName)
    requires p.image == OnlyName(Some(name)) && |name.displayName| > SNAPSHOT_CAP
    ensures BodySize(p) > SNAPSHOT_CAP
  {
    hide BodySize, CharsSize, ImageFields, FieldsSize, Decimal;
    BodySizeIs(p);
    NamePartSize(Some(name));
    AtLeastLength(name.displayName);
  }

  lemma {:induction false} AtLeastLength(s: string)
    ensures CharsSize(s) >= |s|
  {
    if s != [] { AtLeastLength(s[..|s| - 1]); }
  }

  /** The condition matters to the packing itself: unbounded names would go out over the cap, though none can be stored. */
  lemma LongNameOverflows(id: string, name: MemberName)
    requires |name.displayName| > SNAPSHOT_CAP
    ensures var images := [OnlyName(Some(name))];
      Packs(id, None, Some(name), [], images) && BodySize(PartsOf(id, images, None)[0]) > SNAPSHOT_CAP
  {
    hide BodySize, Fits;
    var images := [OnlyName(Some(name))];
    var us: seq<Unit> := [];
    assert us[0..0] == [] && images[..0] == [];
    assert ClosedTo(id, None, Some(name), us, images[..0], 0);
    assert Holds(id, None, Some(name), us, 0, 0, 0, images[0]);
    LongNameSize(Part(id, 1, 1, None, images[0]), name);
  }

  lemma WidestCount()
    ensures |Decimal(USIZE_MAX)| <= 20
  {
    assert Pow10(4) == 10_000 && Pow10(8) == 100_000_000;
    assert Pow10(12) == 1_000_000_000_000 && Pow10(16) == 10_000_000_000_000_000 && Pow10(20) == 100_000_000_000_000_000_000;
    DecimalWidth(USIZE_MAX, 20);
  }

  lemma {:induction false} DecimalWidth(n: nat, w: nat)
    requires w >= 1 && n < Pow10(w)
    ensures |Decimal(n)| <= w
  {
    if n >= 10 {
      assert w > 1;
      DecimalWidth(n / 10, w - 1);
    }
  }
}
