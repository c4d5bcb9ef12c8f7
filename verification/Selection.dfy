/** What the registry offers for one package, and which version a pass picks. */
module Selection {
  import opened Prelude
  import opened Text
  import opened Catalog
  import opened Semver
  import opened VersionRange

  datatype Requires = Requires(capabilities: seq<string>, packages: map<string, string>)

  datatype RefField = Extends | Skills | Flows | MemoryProfiles | DelegatesTo
  {
    function Kind(): Kind {
      match this
      case Extends | DelegatesTo => Persona
      case Skills => Skill
      case Flows => Flow
      case MemoryProfiles => MemoryProfile
    }
  }

  datatype BodyRef = BodyRef(field: RefField, package: string)

  datatype RegistryVersion = RegistryVersion(
    version: string, kind: Kind, status: State, needs: Requires, refs: seq<BodyRef>)

  type Registry = map<string, seq<RegistryVersion>>

  datatype Root = Root(package: string, range: string)

  datatype AskedRange = AskedRange(requestedBy: string, range: string)

  datatype ResolveError =
    | PinConflict(package: string, pinnedVersion: string, range: string, requestedBy: string)
    | PackageNotFound(package: string)
    | RangeInvalid(package: string, range: string, requestedBy: string)
    | VersionInvalid(package: string, version: string)
    | NoMatchingVersion(package: string, ranges: seq<AskedRange>)
    | RangeConflict(package: string, ranges: seq<AskedRange>)
    | DependencyCycle(cycle: seq<string>)
    | BodyRefMissing(package: string, field: RefField, reference: string)
    | KindMismatch(package: string, field: RefField, reference: string, expected: Kind, found: Kind)

  datatype Direction = Added | Removed | Down | Same | Up

  datatype Move = Move(from: Option<string>, to: Option<string>, direction: Direction)

  datatype Resolution = Resolution(picks: map<string, string>, moves: Option<map<string, Move>>)

  /** The ranges asked of one package, by requester. */
  type Asked = map<string, string>

  type Ranges = map<string, Asked>

  type Picks = map<string, RegistryVersion>

  const ROOT_REQUESTER := "(root)"

  // ------------------------------------------------------ choosing a version

  predicate Eligible(rv: RegistryVersion, caps: seq<string>) {
    rv.status.Available? && forall t :: t in rv.needs.capabilities ==> t in caps
  }

  /** The eligible versions, in registry order. */
  function Usable(versions: seq<RegistryVersion>, caps: seq<string>): (r: seq<RegistryVersion>)
    ensures forall rv :: rv in r <==> rv in versions && Eligible(rv, caps)
  {
    if versions == [] then []
    else (if Eligible(versions[0], caps) then [versions[0]] else []) + Usable(versions[1..], caps)
  }

  predicate RangeAdmits(range: string, version: string) {
    RangeOf(range).Some? && ParseVersion(version).Some? && Satisfies(RangeOf(range).value, ParseVersion(version).value)
  }

  predicate Admitted(rv: RegistryVersion, asked: Asked) {
    ParseVersion(rv.version).Some? && forall who :: who in asked ==> RangeAdmits(asked[who], rv.version)
  }

  /** Sort order of candidates: higher version first, then lower text. */
  function CompareCandidates(a: RegistryVersion, b: RegistryVersion): Ordering
    requires ParseVersion(a.version).Some? && ParseVersion(b.version).Some?
  {
    Compare(ParseVersion(b.version).value, ParseVersion(a.version).value).Then(CompareText(a.version, b.version))
  }

  /** `us[i]` leads the stable sort of the admitted versions. */
  ghost predicate Leads(us: seq<RegistryVersion>, asked: Asked, i: nat) {
    && i < |us| && Admitted(us[i], asked)
    && forall j :: 0 <= j < |us| && Admitted(us[j], asked) ==>
         var c := CompareCandidates(us[i], us[j]);
         c.Less? || (c.Equal? && i <= j)
  }

  ghost predicate IsPick(us: seq<RegistryVersion>, asked: Asked, rv: RegistryVersion) {
    exists i: nat :: Leads(us, asked, i) && us[i] == rv
  }

  /**
   * The pick is offered, within the capabilities and inside every asked range,
   * and no other version that is has a higher precedence.
   */
  lemma PickMeans(versions: seq<RegistryVersion>, caps: seq<string>, asked: Asked, rv: RegistryVersion)
    requires IsPick(Usable(versions, caps), asked, rv)
    ensures rv in versions && Offered(rv, caps) && ParseVersion(rv.version).Some?
    ensures forall who :: who in asked ==> RangeAdmits(asked[who], rv.version)
    ensures forall o :: o in versions && Offered(o, caps) && ParseVersion(o.version).Some?
                        && (forall who :: who in asked ==> RangeAdmits(asked[who], o.version)) ==>
      !Compare(ParseVersion(o.version).value, ParseVersion(rv.version).value).Greater?
  {
    hide RangeAdmits, ParseVersion, Compare, Usable;
    var us := Usable(versions, caps);
    var i: nat :| Leads(us, asked, i) && us[i] == rv;
    forall o | o in versions && Offered(o, caps) && Admitted(o, asked)
      ensures !Compare(ParseVersion(o.version).value, ParseVersion(rv.version).value).Greater?
    {
      var j :| 0 <= j < |us| && us[j] == o;
      assert CompareCandidates(us[i], us[j]).Less? || CompareCandidates(us[i], us[j]).Equal?;
    }
  }

  /** Available, and asking for no capability that is missing. */
  ghost predicate Offered(rv: RegistryVersion, caps: seq<string>) {
    rv.status == Available && forall t :: t in rv.needs.capabilities ==> t in caps
  }

  /** The kind of package each field of a body calls for. */
  lemma FieldKinds(f: RefField)
    ensures f.Kind() == Persona <==> f == Extends || f == DelegatesTo
    ensures f.Kind() == Skill <==> f == Skills
    ensures f.Kind() == Flow <==> f == Flows
    ensures f.Kind() == MemoryProfile <==> f == MemoryProfiles
  {
  }

  ghost predicate NoneAdmitted(us: seq<RegistryVersion>, asked: Asked) {
    forall rv :: rv in us ==> !Admitted(rv, asked)
  }

  /** Each asked range alone has a usable version. */
  ghost predicate EachSatisfiable(us: seq<RegistryVersion>, asked: Asked) {
    forall who :: who in asked ==> exists rv :: rv in us && RangeAdmits(asked[who], rv.version)
  }

  function AskedOf(ranges: Ranges, pkg: string): Asked {
    if pkg in ranges then ranges[pkg] else map[]
  }

  /** The asked ranges as reported in an error, in requester order. */
  function Details(asked: Asked): seq<AskedRange> {
    var whos := Sorted(asked.Keys);
    seq(|whos|, i requires 0 <= i < |whos| =>
      assert whos[i] in whos;
      AskedRange(whos[i], asked[whos[i]]))
  }

  /** What each refusal of a pass says about its inputs. */
  ghost predicate ChoiceError(registry: Registry, caps: seq<string>, ranges: Ranges, pkg: string, e: ResolveError) {
    var asked := AskedOf(ranges, pkg);
    if pkg !in registry then e == PackageNotFound(pkg)
    else if e.RangeInvalid? then RangeError(pkg, asked, e)
    else
      var us := Usable(registry[pkg], caps);
      if e.VersionInvalid? then VersionError(pkg, us, e)
      else
        && NoneAdmitted(us, asked)
        && e == if |asked| > 1 && EachSatisfiable(us, asked)
                then RangeConflict(pkg, Details(asked)) else NoMatchingVersion(pkg, Details(asked))
  }

  ghost predicate FirstBadRange(asked: Asked, who: string) {
    && who in asked && RangeOf(asked[who]).None?
    && forall o :: o in asked && TextBefore(o, who) ==> RangeOf(asked[o]).Some?
  }

  ghost predicate FirstBadVersion(us: seq<RegistryVersion>, i: nat) {
    && i < |us| && ParseVersion(us[i].version).None?
    && forall j :: 0 <= j < i ==> ParseVersion(us[j].version).Some?
  }

  ghost predicate VersionError(pkg: string, us: seq<RegistryVersion>, e: ResolveError) {
    exists i: nat :: FirstBadVersion(us, i) && e == VersionInvalid(pkg, us[i].version)
  }

  ghost predicate RangeError(pkg: string, asked: Asked, e: ResolveError) {
    exists who :: FirstBadRange(asked, who) && e == RangeInvalid(pkg, asked[who], who)
  }

  /** `asked`, parsed in requester order. */
  ghost predicate ParsedAs(asked: Asked, parsed: seq<Range>) {
    var whos := Sorted(asked.Keys);
    |parsed| == |whos| && forall i :: 0 <= i < |whos| ==> whos[i] in asked && RangeOf(asked[whos[i]]) == Some(parsed[i])
  }

  /** Parse every asked range in requester order; report the first that is not one. */
  method ParseAsked(pkg: string, asked: Asked) returns (r: Result<seq<Range>, ResolveError>)
    ensures r.Ok? ==> ParsedAs(asked, r.value)
    ensures r.Err? ==> RangeError(pkg, asked, r.error)
  {
    hide RangeOf, CompareText;
    var whos := Sorted(asked.Keys);
    var parsed: seq<Range> := [];
    for k := 0 to |whos|
      invariant |parsed| == k
      invariant forall i :: 0 <= i < k ==> whos[i] in asked && RangeOf(asked[whos[i]]) == Some(parsed[i])
    {
      var who := whos[k];
      assert who in whos;
      var range := ParseRange(asked[who]);
      if range.None? {
        forall o | o in asked && TextBefore(o, who) ensures RangeOf(asked[o]).Some? {
          var i :| 0 <= i < |whos| && whos[i] == o;
          TextBeforeTotal(o, who);
        }
        assert FirstBadRange(asked, who);
        return Err(RangeInvalid(pkg, asked[who], who));
      }
      parsed := parsed + [range.value];
    }
    return Ok(parsed);
  }

  predicate Fits(parsed: seq<Range>, v: Version) {
    forall i :: 0 <= i < |parsed| ==> Satisfies(parsed[i], v)
  }

  lemma ParsedAdmits(asked: Asked, parsed: seq<Range>, rv: RegistryVersion)
    requires ParsedAs(asked, parsed) && ParseVersion(rv.version).Some?
    ensures Fits(parsed, ParseVersion(rv.version).value) <==> Admitted(rv, asked)
  {
    hide RangeOf, ParseVersion, Satisfies;
    var whos := Sorted(asked.Keys);
    forall who | who in asked ensures exists i :: 0 <= i < |whos| && whos[i] == who {
      assert who in whos;
    }
  }

  /** The eligible versions in registry order, each with its parsed version. */
  ghost predicate UsableAre(us: seq<RegistryVersion>, usable: seq<(RegistryVersion, Version)>) {
    |usable| == |us| && forall i :: 0 <= i < |us| ==> usable[i].0 == us[i] && ParseVersion(us[i].version) == Some(usable[i].1)
  }

  method CollectUsable(pkg: string, versions: seq<RegistryVersion>, caps: seq<string>)
    returns (r: Result<seq<(RegistryVersion, Version)>, ResolveError>)
    ensures r.Ok? ==> UsableAre(Usable(versions, caps), r.value)
    ensures r.Err? ==> VersionError(pkg, Usable(versions, caps), r.error)
  {
    ghost var us := Usable(versions, caps);
    hide ParseVersion, Eligible, VersionError, Usable;
    var usable: seq<(RegistryVersion, Version)> := [];
    ghost var done: seq<RegistryVersion> := [];
    assert versions[0..] == versions;
    for k := 0 to |versions|
      invariant us == done + Usable(versions[k..], caps) && UsableAre(done, usable)
    {
      UsableStep(versions, caps, k);
      if Eligible(versions[k], caps) {
        var v := ParseVersion(versions[k].version);
        if v.None? {
          BadVersionFound(pkg, done, usable, versions[k], Usable(versions[k + 1..], caps));
          return Err(VersionInvalid(pkg, versions[k].version));
        }
        usable := usable + [(versions[k], v.value)];
        done := done + [versions[k]];
      }
    }
    UsableEmpty(versions[|versions|..], caps);
    return Ok(usable);
  }

  lemma UsableEmpty(none: seq<RegistryVersion>, caps: seq<string>)
    requires none == []
    ensures Usable(none, caps) == []
  {
  }

  lemma UsableStep(versions: seq<RegistryVersion>, caps: seq<string>, k: nat)
    requires k < |versions|
    ensures Usable(versions[k..], caps)
         == (if Eligible(versions[k], caps) then [versions[k]] else []) + Usable(versions[k + 1..], caps)
  {
    assert versions[k..][1..] == versions[k + 1..];
  }

  lemma BadVersionFound(pkg: string, done: seq<RegistryVersion>, usable: seq<(RegistryVersion, Version)>, rv: RegistryVersion,
                        rest: seq<RegistryVersion>)
    requires UsableAre(done, usable) && ParseVersion(rv.version).None?
    ensures VersionError(pkg, done + ([rv] + rest), VersionInvalid(pkg, rv.version))
  {
    hide ParseVersion;
    var us := done + ([rv] + rest);
    assert us[|done|] == rv;
    assert FirstBadVersion(us, |done|) by {
      forall j | 0 <= j < |done| ensures ParseVersion(us[j].version).Some? {
        assert us[j] == done[j];
      }
    }
  }

  lemma CandidateOrder(a: RegistryVersion, b: RegistryVersion)
    requires ParseVersion(a.version).Some? && ParseVersion(b.version).Some?
    ensures CompareCandidates(b, a) == CompareCandidates(a, b).Reverse()
    ensures CompareCandidates(a, a).Equal?
    ensures CompareCandidates(a, b).Equal? ==> a.version == b.version
  {
    hide ParseVersion, Compare;
    CompareTotalOrder(ParseVersion(a.version).value, ParseVersion(b.version).value);
    CompareTotalOrder(ParseVersion(a.version).value, ParseVersion(a.version).value);
    CompareTextReverse(a.version, b.version);
    CompareTextEqual(a.version, b.version);
    CompareTextEqual(a.version, a.version);
  }

  lemma CandidateTransitive(a: RegistryVersion, b: RegistryVersion, c: RegistryVersion)
    requires ParseVersion(a.version).Some? && ParseVersion(b.version).Some? && ParseVersion(c.version).Some?
    requires CompareCandidates(a, b).Less? && !CompareCandidates(b, c).Greater?
    ensures CompareCandidates(a, c).Less?
  {
    hide ParseVersion, Compare;
    var (x, y, z) := (ParseVersion(a.version).value, ParseVersion(b.version).value, ParseVersion(c.version).value);
    CompareTotalOrder(x, y);
    CompareTotalOrder(y, z);
    CompareTextEqual(b.version, c.version);
    if Compare(y, x).Less? && Compare(z, y).Less? { CompareTransitive(z, y, x); }
    if CompareText(a.version, b.version).Less? && CompareText(b.version, c.version).Less? {
      CompareTextTransitive(a.version, b.version, c.version);
    }
  }

  /** A version that beats the leader of a list leads the list with it appended. */
  lemma LeaderChanges(us: seq<RegistryVersion>, asked: Asked, best: nat, rv: RegistryVersion)
    requires Leads(us, asked, best) && Admitted(rv, asked) && CompareCandidates(rv, us[best]).Less?
    ensures Leads(us + [rv], asked, |us|)
  {
    hide ParseVersion, Compare, RangeAdmits, CompareCandidates;
    var longer := us + [rv];
    forall j | 0 <= j < |longer| && Admitted(longer[j], asked)
      ensures var c := CompareCandidates(rv, longer[j]); c.Less? || (c.Equal? && |us| <= j)
    {
      if j < |us| { CandidateTransitive(rv, us[best], us[j]); } else { CandidateOrder(rv, rv); }
    }
  }

  /** Otherwise the leader stays. */
  lemma LeaderStays(us: seq<RegistryVersion>, asked: Asked, best: nat, rv: RegistryVersion)
    requires Leads(us, asked, best)
    requires Admitted(rv, asked) ==> !CompareCandidates(rv, us[best]).Less?
    ensures Leads(us + [rv], asked, best)
  {
    hide ParseVersion, Compare, RangeAdmits, CompareCandidates;
    if Admitted(rv, asked) { CandidateOrder(rv, us[best]); }
  }

  lemma FirstLeads(us: seq<RegistryVersion>, asked: Asked, rv: RegistryVersion)
    requires NoneAdmitted(us, asked) && Admitted(rv, asked)
    ensures Leads(us + [rv], asked, |us|)
  {
    hide ParseVersion, Compare, RangeAdmits, CompareCandidates;
    CandidateOrder(rv, rv);
  }

  predicate EachAlone(parsed: seq<Range>, usable: seq<(RegistryVersion, Version)>) {
    forall i :: 0 <= i < |parsed| ==> exists j :: 0 <= j < |usable| && Satisfies(parsed[i], usable[j].1)
  }

  lemma FitsAlone(who: string, asked: Asked, range: Range, us: seq<RegistryVersion>, usable: seq<(RegistryVersion, Version)>)
    requires who in asked && RangeOf(asked[who]) == Some(range) && UsableAre(us, usable)
    ensures (exists j :: 0 <= j < |usable| && Satisfies(range, usable[j].1)) <==> (exists rv :: rv in us && RangeAdmits(asked[who], rv.version))
  {
    hide ParseVersion, RangeOf, Satisfies;
    if j :| 0 <= j < |usable| && Satisfies(range, usable[j].1) {
      assert us[j] in us && RangeAdmits(asked[who], us[j].version);
    }
    if rv :| rv in us && RangeAdmits(asked[who], rv.version) {
      var j :| 0 <= j < |us| && us[j] == rv;
      assert Satisfies(range, usable[j].1);
    }
  }

  lemma EachFits(asked: Asked, parsed: seq<Range>, us: seq<RegistryVersion>, usable: seq<(RegistryVersion, Version)>)
    requires ParsedAs(asked, parsed) && UsableAre(us, usable)
    ensures EachAlone(parsed, usable) <==> EachSatisfiable(us, asked)
  {
    hide ParseVersion, RangeOf, Satisfies, RangeAdmits, UsableAre, Ascending;
    var whos := Sorted(asked.Keys);
    forall i | 0 <= i < |parsed|
      ensures (exists j :: 0 <= j < |usable| && Satisfies(parsed[i], usable[j].1))
         <==> (exists rv :: rv in us && RangeAdmits(asked[whos[i]], rv.version))
    {
      FitsAlone(whos[i], asked, parsed[i], us, usable);
    }
    forall who | who in asked ensures exists i :: 0 <= i < |whos| && whos[i] == who {
      assert who in whos;
    }
  }

  /** The index of the first version the stable sort would put in front. */
  method Best(ghost asked: Asked, parsed: seq<Range>, ghost us: seq<RegistryVersion>, usable: seq<(RegistryVersion, Version)>)
    returns (best: Option<nat>)
    requires ParsedAs(asked, parsed) && UsableAre(us, usable)
    ensures best.None? ==> NoneAdmitted(us, asked)
    ensures best.Some? ==> Leads(us, asked, best.value)
  {
    hide RangeOf, ParseVersion, Satisfies, Compare, CompareCandidates, RangeAdmits;
    best := None;
    for k := 0 to |usable|
      invariant best.Some? ==> best.value < k
      invariant if best.None? then NoneAdmitted(us[..k], asked) else Leads(us[..k], asked, best.value)
    {
      assert us[..k + 1] == us[..k] + [us[k]];
      ParsedAdmits(asked, parsed, us[k]);
      var fits := Fits(parsed, usable[k].1);
      if fits && best.None? {
        FirstLeads(us[..k], asked, us[k]);
        best := Some(k);
      } else if fits && CompareCandidates(usable[k].0, usable[best.value].0).Less? {
        LeaderChanges(us[..k], asked, best.value, us[k]);
        best := Some(k);
      } else if best.Some? {
        LeaderStays(us[..k], asked, best.value, us[k]);
      }
    }
    assert us[..|us|] == us;
  }

  /**
   * The version one pass picks for a package: the highest eligible version
   * inside every asked range, or the reason there is none.
   */
  method Choose(registry: Registry, caps: seq<string>, ranges: Ranges, pkg: string)
    returns (r: Result<RegistryVersion, ResolveError>)
    ensures r.Ok? ==> pkg in registry && IsPick(Usable(registry[pkg], caps), AskedOf(ranges, pkg), r.value)
    ensures r.Err? ==> ChoiceError(registry, caps, ranges, pkg, r.error)
  {
    hide RangeOf, ParseVersion, Satisfies, NoneAdmitted, EachSatisfiable, Leads, Usable, Sorted, Details, RangeError, VersionError, ChoiceError, UsableAre, ParsedAs, EachAlone;
    if pkg !in registry {
      NotFound(registry, caps, ranges, pkg);
      return Err(PackageNotFound(pkg));
    }
    var asked := AskedOf(ranges, pkg);
    ghost var us := Usable(registry[pkg], caps);
    var parsed := ParseAsked(pkg, asked);
    if parsed.Err? {
      RefusedEarly(registry, caps, ranges, pkg, parsed.error);
      return Err(parsed.error);
    }
    var collected := CollectUsable(pkg, registry[pkg], caps);
    if collected.Err? {
      RefusedEarly(registry, caps, ranges, pkg, collected.error);
      return Err(collected.error);
    }
    var usable := collected.value;
    var best := Best(asked, parsed.value, us, usable);
    if best.None? {
      EachFits(asked, parsed.value, us, usable);
      ParsedLength(asked, parsed.value);
      var e := if |parsed.value| > 1 && EachAlone(parsed.value, usable) then RangeConflict(pkg, Details(asked)) else NoMatchingVersion(pkg, Details(asked));
      RefusedLate(registry, caps, ranges, pkg, e);
      return Err(e);
    }
    LeaderIsPick(us, asked, best.value);
    UsableIndex(us, usable, best.value);
    return Ok(usable[best.value].0);
  }

  lemma NotFound(registry: Registry, caps: seq<string>, ranges: Ranges, pkg: string)
    requires pkg !in registry
    ensures ChoiceError(registry, caps, ranges, pkg, PackageNotFound(pkg))
  {
  }

  lemma RefusedEarly(registry: Registry, caps: seq<string>, ranges: Ranges, pkg: string, e: ResolveError)
    requires pkg in registry
    requires RangeError(pkg, AskedOf(ranges, pkg), e) || VersionError(pkg, Usable(registry[pkg], caps), e)
    ensures ChoiceError(registry, caps, ranges, pkg, e)
  {
    hide Usable, FirstBadRange, FirstBadVersion;
  }

  lemma RefusedLate(registry: Registry, caps: seq<string>, ranges: Ranges, pkg: string, e: ResolveError)
    requires pkg in registry
    requires var (us, asked) := (Usable(registry[pkg], caps), AskedOf(ranges, pkg));
             NoneAdmitted(us, asked) && e == if |asked| > 1 && EachSatisfiable(us, asked)
                then RangeConflict(pkg, Details(asked)) else NoMatchingVersion(pkg, Details(asked))
    ensures ChoiceError(registry, caps, ranges, pkg, e)
  {
    hide Usable, NoneAdmitted, EachSatisfiable, Details;
  }

  lemma ParsedLength(asked: Asked, parsed: seq<Range>)
    requires ParsedAs(asked, parsed)
    ensures |parsed| == |asked|
  {
    hide RangeOf, Sorted, Ascending;
    assert |asked.Keys| == |asked|;
  }

  lemma UsableIndex(us: seq<RegistryVersion>, usable: seq<(RegistryVersion, Version)>, i: nat)
    requires UsableAre(us, usable) && i < |us|
    ensures i < |usable| && usable[i].0 == us[i]
  {
  }

  lemma LeaderIsPick(us: seq<RegistryVersion>, asked: Asked, i: nat)
    requires Leads(us, asked, i)
    ensures i < |us| && IsPick(us, asked, us[i])
  {
  }
}
