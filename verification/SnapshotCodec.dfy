/** Reading a snapshot part back from the log. */
module SnapshotCodec {
  import opened Prelude
  import opened Text
  import opened Json
  import opened JsonRead
  import opened Snapshot

  function ReadChanges(j: Json): Option<Changes> {
    if j.Obj? && Strict(j.fields, {"upsert", "delete"}, {}) then
      match (Get(j, "upsert"), Get(j, "delete")) case (Some(List(upsert)), Some(List(delete))) => Some(Changes(upsert, delete)) case _ => None
    else None
  }

  /** An object read as a map: a key written again replaces what it held. */
  function ReadTables(fields: seq<Member>): Option<map<string, Changes>> {
    if fields == [] then Some(map[])
    else
      var last := fields[|fields| - 1];
      match (ReadTables(fields[..|fields| - 1]), ReadChanges(last.value))
      case (Some(tables), Some(changes)) => Some(tables[last.key := changes])
      case _ => None
  }

  function ReadName(j: Option<Json>): Option<MemberName> {
    if j.Some? && j.value.Obj? && Strict(j.value.fields, {"author", "display_name"}, {}) then
      match (GetStr(j.value, "author"), GetStr(j.value, "display_name")) case (Some(author), Some(shown)) => Some(MemberName(author, shown)) case _ => None
    else None
  }

  /** Left out when there are none; never null. */
  function ReadAgents(j: Option<Json>): Option<seq<Agent>> {
    match j case None => Some([]) case Some(List(items)) => Some(items) case _ => None
  }

  const REQUIRED: set<string> := {"snapshot_id", "part", "parts", "op", "tables"}
  const OPTIONAL: set<string> := {"agents", "supersedes_through", "member_name"}

  /** The body as the reader's record has it, before it is judged. */
  function ReadBody(j: Json): Option<Part> {
    if j.Obj? && Strict(j.fields, REQUIRED, OPTIONAL) && GetStr(j, "op") == Some("shared.snapshot") then
      match (GetStr(j, "snapshot_id"), ReadU64(Get(j, "part")), ReadU64(Get(j, "parts")), Get(j, "tables"))
      case (Some(id), Some(part), Some(parts), Some(Obj(tables))) =>
        (match (ReadTables(tables), ReadAgents(Get(j, "agents")), ReadOptional(Get(j, "supersedes_through"), ReadU64), ReadOptional(Get(j, "member_name"), ReadName))
         case (Some(tables), Some(agents), Some(base), Some(name)) => Some(Part(id, part, parts, base, Image(tables, agents, name)))
         case _ => None)
      case _ => None
    else None
  }

  /** A part is taken from its author's entry, numbered from one; only the first may name the member, and then only the author. */
  function ReadPart(author: string, j: Json): Option<Part> {
    match ReadBody(j)
    case Some(p) =>
      if p.id != "" && 1 <= p.part <= p.parts && (p.part != 1 ==> Get(j, "member_name").None?)
         && (p.image.memberName.Some? ==> p.image.memberName.value.author == author) then Some(p) else None
    case None => None
  }

  function PartJson(p: Part): (j: Json)
    ensures j.Obj? && Size(j) == BodySize(p)
  {
    Obj(WireFields(p) + ImageFields(p.image))
  }

  // -------------------------------------------------------- the round trip

  lemma ChangesRead(c: Changes)
    ensures ReadChanges(Obj([Member("delete", List(c.delete)), Member("upsert", List(c.upsert))])) == Some(c)
  {
    hide Field;
    var (fields, keys) := ([Member("delete", List(c.delete)), Member("upsert", List(c.upsert))], ["delete", "upsert"]);
    StrictKeys(fields, keys, {"upsert", "delete"}, {});
    FieldFound(fields, keys);
    assert keys[0] == "delete" && keys[1] == "upsert";
  }

  lemma {:induction false} TablesRead(tables: map<string, Changes>, names: seq<string>)
    requires forall t :: t in names ==> t in tables
    ensures var r := ReadTables(TableFields(tables, names));
      && r.Some? && (forall t :: t in r.value <==> t in names) && forall t :: t in r.value ==> r.value[t] == tables[t]
  {
    hide ReadChanges;
    if names != [] {
      var n := |names| - 1;
      TablesRead(tables, names[..n]);
      assert TableFields(tables, names)[..n] == TableFields(tables, names[..n]);
      assert names[n] in names;
      ChangesRead(tables[names[n]]);
      assert names == names[..n] + [names[n]];
    }
  }

  lemma AllTablesRead(tables: map<string, Changes>)
    ensures ReadTables(TableFields(tables, Sorted(tables.Keys))) == Some(tables)
  {
    hide ReadTables, TableFields;
    TablesRead(tables, Sorted(tables.Keys));
    assert ReadTables(TableFields(tables, Sorted(tables.Keys))).value == tables;
  }

  lemma NameRead(n: MemberName)
    ensures ReadName(Some(Obj([Member("author", Str(n.author)), Member("display_name", Str(n.displayName))]))) == Some(n)
  {
    hide Field;
    var (fields, keys) := ([Member("author", Str(n.author)), Member("display_name", Str(n.displayName))], ["author", "display_name"]);
    StrictKeys(fields, keys, {"author", "display_name"}, {});
    FieldFound(fields, keys);
    assert keys[0] == "author" && keys[1] == "display_name";
  }

  lemma DistinctJoin(a: seq<string>, b: seq<string>)
    requires Distinct(a) && Distinct(b) && forall k :: k in a ==> k !in b
    ensures Distinct(a + b)
  {
    forall i, j | 0 <= i < j < |a + b| ensures (a + b)[i] != (a + b)[j] {
      if i < |a| <= j { assert a[i] in a && b[j - |a|] in b; }
    }
  }

  function BaseKeys(p: Part): seq<string> { if p.base.Some? then ["supersedes_through"] else [] }
  function AgentKeys(p: Part): seq<string> { if p.image.agents != [] then ["agents"] else [] }
  function NameKeys(p: Part): seq<string> { if p.image.memberName.Some? then ["member_name"] else [] }

  function WireKeys(p: Part): seq<string> { ["snapshot_id", "part", "parts"] + BaseKeys(p) }

  function ImageKeys(p: Part): seq<string> { ["op", "tables"] + AgentKeys(p) + NameKeys(p) }

  lemma WireKeyed(p: Part)
    ensures Keyed(WireFields(p), WireKeys(p)) && Distinct(WireKeys(p))
  {
    hide Decimal;
  }

  lemma ImageKeyed(p: Part)
    ensures Keyed(ImageFields(p.image), ImageKeys(p)) && Distinct(ImageKeys(p))
  {
    hide TableFields, Distinct;
    ImageKeysDiffer(p);
  }

  lemma ImageKeysDiffer(p: Part)
    ensures Distinct(ImageKeys(p))
  {
    hide Distinct;
    var front := ["op", "tables"];
    assert Distinct(front) && Distinct(AgentKeys(p)) && Distinct(NameKeys(p)) by { FewDiffer(p); }
    DistinctJoin(front, AgentKeys(p));
    DistinctJoin(front + AgentKeys(p), NameKeys(p));
  }

  lemma FewDiffer(p: Part)
    ensures Distinct(["op", "tables"]) && Distinct(AgentKeys(p)) && Distinct(NameKeys(p))
  {
  }

  lemma PartStrict(p: Part)
    ensures Strict(PartJson(p).fields, REQUIRED, OPTIONAL)
  {
    hide WireFields, ImageFields, BodySize;
    WireKeyed(p);
    ImageKeyed(p);
    DistinctJoin(WireKeys(p), ImageKeys(p));
    StrictKeys(PartJson(p).fields, WireKeys(p) + ImageKeys(p), REQUIRED, OPTIONAL);
  }

  /** The part's own fields, under their names on the wire. */
  lemma WireFound(p: Part)
    ensures var fields := PartJson(p).fields;
      && Field(fields, "snapshot_id") == Some(Str(p.id))
      && Field(fields, "part") == Some(Number(Decimal(p.part))) && Field(fields, "parts") == Some(Number(Decimal(p.parts)))
      && Field(fields, "supersedes_through") == (if p.base.Some? then Some(Number(Decimal(p.base.value))) else None)
  {
    hide Field, ImageFields, Decimal;
    WireKeyed(p);
    ImageKeyed(p);
    var (wire, image, keys) := (WireFields(p), ImageFields(p.image), WireKeys(p));
    FieldFound(wire, keys);
    assert keys[0] == "snapshot_id" && keys[1] == "part" && keys[2] == "parts";
    FieldJoin(wire, image, "snapshot_id");
    FieldJoin(wire, image, "part");
    FieldJoin(wire, image, "parts");
    FieldJoin(wire, image, "supersedes_through");
    if p.base.Some? {
      assert keys[3] == "supersedes_through";
    } else {
      NotFound(wire, "supersedes_through");
      NotFound(image, "supersedes_through");
    }
  }

  function NameJson(n: MemberName): Json { Obj([Member("author", Str(n.author)), Member("display_name", Str(n.displayName))]) }

  /** The image's fields, written beside the part's own. */
  lemma ImageFound(p: Part)
    ensures var (fields, image) := (PartJson(p).fields, p.image);
      && Field(fields, "op") == Some(Str("shared.snapshot"))
      && Field(fields, "tables") == Some(Obj(TableFields(image.tables, Sorted(image.tables.Keys))))
      && Field(fields, "agents") == (if image.agents == [] then None else Some(List(image.agents)))
      && Field(fields, "member_name") == (if image.memberName.None? then None else Some(NameJson(image.memberName.value)))
  {
    hide Field, TableFields, Decimal;
    WireKeyed(p);
    ImageKeyed(p);
    var (wire, image, keys) := (WireFields(p), ImageFields(p.image), ImageKeys(p));
    FieldFound(image, keys);
    forall key | key in {"op", "tables", "agents", "member_name"} ensures Field(wire + image, key) == Field(image, key) {
      NotFound(wire, key);
      FieldJoin(wire, image, key);
    }
    assert keys[0] == "op" && keys[1] == "tables";
    if p.image.agents == [] { NotFound(image, "agents"); } else { assert keys[2] == "agents"; }
    if p.image.memberName.None? { NotFound(image, "member_name"); } else { assert keys[|keys| - 1] == "member_name"; }
  }

  /** A written body is read as the part it was written for. */
  lemma BodyRead(p: Part)
    requires p.part <= U64_MAX && p.parts <= U64_MAX && (p.base.Some? ==> p.base.value <= U64_MAX)
    ensures ReadBody(PartJson(p)) == Some(p)
  {
    hide Field, PartJson, Strict, Decimal, TableFields, ReadTables;
    PartStrict(p);
    WireFound(p);
    ImageFound(p);
    NumberRead(p.part);
    NumberRead(p.parts);
    if p.base.Some? { NumberRead(p.base.value); }
    AllTablesRead(p.image.tables);
    if p.image.memberName.Some? { NameRead(p.image.memberName.value); }
  }

  /**
   * Every part of a snapshot is accepted from its author and read as it was
   * packed; with `PartitionRestores`, the parts together hold what was given.
   */
  lemma PartsReadBack(author: string, id: string, image: Image, base: Option<nat>, images: seq<Image>, i: nat)
    requires Packs(id, base, image.memberName, Units(image), images) && id != "" && |images| <= USIZE_MAX && (base.Some? ==> base.value <= U64_MAX)
    requires image.memberName.Some? ==> image.memberName.value.author == author
    requires i < |images|
    ensures var p := PartsOf(id, images, base)[i]; ReadPart(author, PartJson(p)) == Some(p)
  {
    hide Packs, Units, PartJson, ReadBody, Field;
    var p := PartsOf(id, images, base)[i];
    PartitionRestores(id, image, base, images, "");
    BodyRead(p);
    ImageFound(p);
  }

  /** A unit is refused for what it takes alone, with the widest counts there can be, and the widest base if there is one. */
  lemma OversizeMeans(id: string, base: Option<nat>, u: Unit)
    ensures var image := match u { case RowUnit(t, row) => Image(map[t := Changes([row], [])], [], None) case AgentUnit(a) => Image(map[], [a], None) };
      var widest := 0xFFFF_FFFF_FFFF_FFFF;
      Oversize(id, base, u) <==> Size(PartJson(Part(id, widest, widest, if base.Some? then Some(widest) else None, image))) > 204_800
  {
    hide BodySize, WireFields, ImageFields;
    BuildOne(u);
    assert [] + [if u.AgentUnit? then u.agent else u.row] == [if u.AgentUnit? then u.agent else u.row];
  }

  /** `k` opens a part that goes on to `to`, with no member name. */
  ghost predicate Opens(us: seq<Unit>, k: nat, to: nat, image: Image) { k < to <= |us| && image == Build(None, us[k..to]) }

  /** The unit at `k` is what the part could not take. */
  ghost predicate Ends(id: string, base: Option<nat>, us: seq<Unit>, k: nat, image: Image) {
    k < |us| && !Fits(id, base, Add(image, us[k]))
  }

  /** The next part opens with what this one could not take. */
  ghost predicate Follows(id: string, base: Option<nat>, us: seq<Unit>, part: Image, next: Image) {
    exists k: nat, to: nat :: Ends(id, base, us, k, part) && Opens(us, k, to, next)
  }

  lemma {:induction false} ClosedNext(id: string, base: Option<nat>, name: Option<MemberName>, us: seq<Unit>, images: seq<Image>, to: nat, i: nat)
    requires ClosedTo(id, base, name, us, images, to) && i < |images|
    ensures i + 1 == |images| ==> Ends(id, base, us, to, images[i])
    ensures i + 1 < |images| ==> Follows(id, base, us, images[i], images[i + 1])
  {
    hide Fits, Build;
    var last := |images| - 1;
    var from: nat :| ClosedTo(id, base, name, us, images[..last], from) && Holds(id, base, name, us, last, from, to, images[last])
                     && Full(id, base, name, us, last, from, to);
    if i == last {
      BuildNext(NameAt(name, last), us, from, to);
    } else {
      ClosedNext(id, base, name, us, images[..last], from, i);
      if i + 1 == last { assert Ends(id, base, us, from, images[i]) && Opens(us, from, to, images[last]); }
    }
  }

  /** Packing is greedy: what opens a later part did not fit into the part before it. */
  lemma PartsAreGreedy(id: string, base: Option<nat>, name: Option<MemberName>, us: seq<Unit>, images: seq<Image>, i: nat)
    requires Packs(id, base, name, us, images) && i + 1 < |images|
    ensures Follows(id, base, us, images[i], images[i + 1])
  {
    hide Fits, Build, ClosedTo, Full, Ends;
    var last := |images| - 1;
    var from: nat :| ClosedTo(id, base, name, us, images[..last], from) && Holds(id, base, name, us, last, from, |us|, images[last]);
    ClosedNext(id, base, name, us, images[..last], from, i);
    if i + 1 == last { assert Ends(id, base, us, from, images[i]) && Opens(us, from, |us|, images[last]); }
  }

  // -------------------------------------------------- what the reader takes

  lemma ChangesMean(j: Json, c: Changes)
    ensures ReadChanges(j) == Some(c) <==>
      j.Obj? && OnlyOnce(j.fields, {"upsert", "delete"}) && Get(j, "upsert") == Some(List(c.upsert)) && Get(j, "delete") == Some(List(c.delete))
  {
    hide Field;
  }

  lemma NameMeans(j: Json, n: MemberName)
    ensures ReadName(Some(j)) == Some(n) <==>
      && j.Obj? && OnlyOnce(j.fields, {"author", "display_name"})
      && Get(j, "author") == Some(Str(n.author)) && Get(j, "display_name") == Some(Str(n.displayName))
  {
    hide Field;
  }

  /** The last place a key is written. */
  ghost predicate LastAt(fields: seq<Member>, key: string, i: nat) {
    i < |fields| && fields[i].key == key && forall j :: i < j < |fields| ==> fields[j].key != key
  }

  lemma LastIsLast(fields: seq<Member>, changes: Changes)
    requires fields != [] && ReadChanges(fields[|fields| - 1].value) == Some(changes)
    ensures ReadFrom(fields, fields[|fields| - 1].key, changes)
  {
    hide ReadChanges;
    assert LastAt(fields, fields[|fields| - 1].key, |fields| - 1);
  }

  /** A later table of another name does not matter. */
  lemma StillFrom(fields: seq<Member>, t: string, changes: Changes)
    requires fields != [] && fields[|fields| - 1].key != t && ReadFrom(fields[..|fields| - 1], t, changes)
    ensures ReadFrom(fields, t, changes)
  {
    hide ReadChanges;
    var front := fields[..|fields| - 1];
    var i: nat :| LastAt(front, t, i) && ReadChanges(front[i].value) == Some(changes);
    assert forall j :: 0 <= j < |front| ==> fields[j] == front[j];
    assert LastAt(fields, t, i);
  }

  lemma NoTables()
    ensures ReadTables([]) == Some(map[])
  {
  }

  lemma ReadNext(fields: seq<Member>)
    requires fields != [] && ReadTables(fields).Some?
    ensures var (front, last) := (fields[..|fields| - 1], fields[|fields| - 1]);
      && ReadTables(front).Some? && ReadChanges(last.value).Some?
      && ReadTables(fields).value == ReadTables(front).value[last.key := ReadChanges(last.value).value]
  {
    hide ReadChanges;
  }

  /** `t` is read from the last place it is written at. */
  ghost predicate ReadFrom(fields: seq<Member>, t: string, changes: Changes) {
    exists i: nat :: LastAt(fields, t, i) && ReadChanges(fields[i].value) == Some(changes)
  }

  lemma {:induction false} TableReads(fields: seq<Member>, t: string)
    requires ReadTables(fields).Some? && t in ReadTables(fields).value
    ensures ReadFrom(fields, t, ReadTables(fields).value[t])
  {
    hide ReadChanges, LastAt, ReadTables, ReadFrom;
    if fields == [] {
      NoTables();
    } else {
      var n := |fields| - 1;
      ReadNext(fields);
      if t == fields[n].key {
        LastIsLast(fields, ReadTables(fields).value[t]);
      } else {
        TableReads(fields[..n], t);
        StillFrom(fields, t, ReadTables(fields[..n]).value[t]);
      }
    }
  }

  lemma {:induction false} PlaceReads(fields: seq<Member>, i: nat)
    requires ReadTables(fields).Some? && i < |fields|
    ensures fields[i].key in ReadTables(fields).value && ReadChanges(fields[i].value).Some?
  {
    hide ReadChanges, ReadTables;
    ReadNext(fields);
    if i < |fields| - 1 { PlaceReads(fields[..|fields| - 1], i); }
  }

  /** Every table written is read, from the last place it is written at, and nothing else is. */
  lemma TablesMean(fields: seq<Member>)
    requires ReadTables(fields).Some?
    ensures forall i :: 0 <= i < |fields| ==> fields[i].key in ReadTables(fields).value && ReadChanges(fields[i].value).Some?
    ensures forall t :: t in ReadTables(fields).value ==> ReadFrom(fields, t, ReadTables(fields).value[t])
  {
    hide ReadTables, ReadFrom, ReadChanges;
    forall i: nat | i < |fields| ensures fields[i].key in ReadTables(fields).value && ReadChanges(fields[i].value).Some? { PlaceReads(fields, i); }
    forall t | t in ReadTables(fields).value ensures ReadFrom(fields, t, ReadTables(fields).value[t]) { TableReads(fields, t); }
  }

  /** The member's name as a field that may be missing or null. */
  ghost predicate HoldsName(j: Option<Json>, n: Option<MemberName>) {
    if n.None? then j == None || j == Some(Null) else j.Some? && !j.value.Null? && ReadName(j) == n
  }

  ghost predicate HoldsNumber(j: Option<Json>, n: Option<nat>) {
    if n.None? then j == None || j == Some(Null) else n.value <= U64_MAX && j == Some(Number(Decimal(n.value)))
  }

  /**
   * Which values are snapshot parts, and of what: exactly the objects of the
   * eight fields, none unknown and none twice, numbered from one up to their
   * count, with a member's name on the first part only, and only its author's.
   */
  lemma PartMeans(author: string, j: Json, p: Part)
    ensures ReadPart(author, j) == Some(p) <==>
      && j.Obj? && OnlyOnce(j.fields, {"snapshot_id", "part", "parts", "op", "tables", "agents", "supersedes_through", "member_name"})
      && Get(j, "op") == Some(Str("shared.snapshot")) && Get(j, "snapshot_id") == Some(Str(p.id)) && p.id != ""
      && 1 <= p.part <= p.parts <= U64_MAX && Get(j, "part") == Some(Number(Decimal(p.part))) && Get(j, "parts") == Some(Number(Decimal(p.parts)))
      && Get(j, "tables").Some? && Get(j, "tables").value.Obj? && ReadTables(Get(j, "tables").value.fields) == Some(p.image.tables)
      && (Get(j, "agents") == Some(List(p.image.agents)) || (Get(j, "agents") == None && p.image.agents == []))
      && HoldsNumber(Get(j, "supersedes_through"), p.base) && HoldsName(Get(j, "member_name"), p.image.memberName)
      && (p.part > 1 ==> Get(j, "member_name") == None) && (p.image.memberName.Some? ==> p.image.memberName.value.author == author)
  {
    hide Field, ReadTables, ReadName, Decimal, ReadU64, OnlyOnce, Strict;
    if j.Obj? { StrictPart(j); }
    NumbersMean();
  }

  lemma StrictPart(j: Json)
    requires j.Obj?
    ensures Strict(j.fields, REQUIRED, OPTIONAL) <==>
      && OnlyOnce(j.fields, {"snapshot_id", "part", "parts", "op", "tables", "agents", "supersedes_through", "member_name"})
      && (forall key :: key in REQUIRED ==> Get(j, key).Some?)
  {
    hide Field;
    assert REQUIRED + OPTIONAL == {"snapshot_id", "part", "parts", "op", "tables", "agents", "supersedes_through", "member_name"};
  }
}
