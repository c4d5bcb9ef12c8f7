/** Several roots at once: exact pins for what other roots hold, through one artificial package. */
module RootResolution {
  import opened Prelude
  import opened Text
  import opened Catalog
  import opened Semver
  import opened VersionRange
  import opened Selection
  import opened RangePasses
  import opened Resolver
  import opened Cycle

  const SYNTHETIC := "\0catalog-roots"

  function ExactText(version: string): string { "=" + version }

  // ------------------------------------------------------- what stays frozen

  /** `iter().find(|r| r.version == version)`. */
  function FindVersion(versions: seq<RegistryVersion>, version: string): Option<RegistryVersion> {
    if versions == [] then None
    else if versions[0].version == version then Some(versions[0])
    else FindVersion(versions[1..], version)
  }

  function PinnedVersion(registry: Registry, pins: map<string, string>, pkg: string): Option<RegistryVersion> {
    if pkg in pins && pkg in registry then FindVersion(registry[pkg], pins[pkg]) else None
  }

  /** The pinned version of a package is the first one of that text the registry lists. */
  lemma {:induction false} FindVersionMeans(versions: seq<RegistryVersion>, version: string)
    ensures var r := FindVersion(versions, version);
      && (r.None? <==> forall i :: 0 <= i < |versions| ==> versions[i].version != version)
      && (r.Some? ==> exists i :: 0 <= i < |versions| && versions[i] == r.value && versions[i].version == version
                        && forall j :: 0 <= j < i ==> versions[j].version != version)
  {
    if versions != [] && versions[0].version != version {
      FindVersionMeans(versions[1..], version);
      assert forall i :: 0 < i < |versions| ==> versions[i] == versions[1..][i - 1];
    }
  }

  /** One pinned package leads to another exactly when its pinned version requires it. */
  lemma PinGraphMeans(registry: Registry, pins: map<string, string>, u: string, v: string)
    ensures v in Needs(PinGraph(registry, pins), u)
       <==> && u in pins && v in pins && u in registry && FindVersion(registry[u], pins[u]).Some?
            && v in FindVersion(registry[u], pins[u]).value.needs.packages
  {
  }

  /** Requirement edges of the pinned versions, between pinned packages. */
  function PinGraph(registry: Registry, pins: map<string, string>): Graph {
    map pkg | pkg in pins && PinnedVersion(registry, pins, pkg).Some?
      :: PinnedVersion(registry, pins, pkg).value.needs.packages.Keys * pins.Keys
  }

  /** Reached from a root that is not a subject, along pinned requirements. */
  ghost predicate Held(registry: Registry, roots: map<string, string>, subjects: set<string>, pins: map<string, string>, pkg: string) {
    exists root :: root in roots && root !in subjects && Reaches(PinGraph(registry, pins), root, pkg)
  }

  /** The packages an update of `subjects` must leave at their current pin. */
  ghost predicate Frozen(registry: Registry, roots: map<string, string>, subjects: set<string>, pins: map<string, string>, pkg: string) {
    pkg in pins && pkg !in subjects && Held(registry, roots, subjects, pins, pkg)
  }

  lemma {:induction false} ClosedUnderWalks(g: Graph, s: set<string>, w: seq<string>)
    requires forall u :: u in s ==> Needs(g, u) <= s
    requires Walk(g, w) && w[0] in s
    ensures w[|w| - 1] in s
  {
    if |w| > 1 {
      assert w[1] in Needs(g, w[0]);
      SubWalk(g, w, 1, |w|);
      ClosedUnderWalks(g, s, w[1..]);
    }
  }

  ghost predicate FromStarts(g: Graph, starts: seq<string>, pkg: string) {
    exists s :: s in starts && Reaches(g, s, pkg)
  }

  ghost function Bound(g: Graph, starts: seq<string>): set<string> {
    (set s | s in starts) + (set u, v | u in g && v in g[u] :: v)
  }

  lemma StartsReach(g: Graph, starts: seq<string>)
    ensures forall s :: s in starts ==> FromStarts(g, starts, s) && s in Bound(g, starts)
  {
    forall s | s in starts ensures FromStarts(g, starts, s) { ReachesSelf(g, s); }
  }

  lemma StepReaches(g: Graph, starts: seq<string>, pkg: string)
    requires FromStarts(g, starts, pkg)
    ensures forall v :: v in Needs(g, pkg) ==> FromStarts(g, starts, v) && v in Bound(g, starts)
  {
    hide Reaches;
    var s :| s in starts && Reaches(g, s, pkg);
    forall v | v in Needs(g, pkg) ensures FromStarts(g, starts, v) { ReachesStep(g, s, pkg, v); }
  }

  /** Everything reachable from `starts`, breadth first. */
  method ReachableFrom(g: Graph, starts: seq<string>) returns (reached: set<string>)
    ensures forall pkg :: pkg in reached <==> FromStarts(g, starts, pkg)
  {
    hide FromStarts, Bound, Needs, Sorted, Ascending;
    reached := {};
    var queue := starts;
    StartsReach(g, starts);
    while queue != []
      invariant forall s :: s in starts ==> s in reached || s in queue
      invariant forall u, v :: u in reached && v in Needs(g, u) ==> v in reached || v in queue
      invariant forall pkg :: pkg in reached || pkg in queue ==> pkg in Bound(g, starts) && FromStarts(g, starts, pkg)
      decreases Bound(g, starts) - reached, |queue|
    {
      var pkg := queue[0];
      assert queue == [pkg] + queue[1..];
      queue := queue[1..];
      if pkg in reached {
        continue;
      }
      StepReaches(g, starts, pkg);
      Shrinks(Bound(g, starts), reached, pkg);
      reached := reached + {pkg};
      queue := queue + Sorted(Needs(g, pkg));
    }
    forall pkg | FromStarts(g, starts, pkg) ensures pkg in reached {
      InsideFromStarts(g, starts, reached, pkg);
    }
  }

  lemma InsideFromStarts(g: Graph, starts: seq<string>, inside: set<string>, pkg: string)
    requires forall x :: x in inside ==> Needs(g, x) <= inside
    requires (forall s :: s in starts ==> s in inside) && FromStarts(g, starts, pkg)
    ensures pkg in inside
  {
    hide Reaches;
    var s :| s in starts && Reaches(g, s, pkg);
    ReachesInside(g, inside, s, pkg);
  }

  lemma ReachesSelf(g: Graph, s: string)
    ensures Reaches(g, s, s)
  {
    assert WalkBetween(g, s, s, [s]);
  }

  lemma ReachesInside(g: Graph, inside: set<string>, u: string, v: string)
    requires forall x :: x in inside ==> Needs(g, x) <= inside
    requires u in inside && Reaches(g, u, v)
    ensures v in inside
  {
    var w :| WalkBetween(g, u, v, w);
    ClosedUnderWalks(g, inside, w);
  }

  // --------------------------------------------------------- synthetic ranges

  /** Subject roots keep their ranges; frozen packages get their exact pin; nothing else is asked. */
  ghost predicate RootRanges(registry: Registry, roots: map<string, string>, subjects: set<string>,
                             pins: map<string, string>, ranges: map<string, string>)
  {
    && (forall r :: r in subjects ==> r in roots && r in ranges && ranges[r] == roots[r])
    && (forall r :: r in roots && r !in subjects ==> r in pins)
    && (forall p :: p in ranges && p !in subjects ==> Frozen(registry, roots, subjects, pins, p) && ranges[p] == ExactText(pins[p]))
    && (forall p :: Frozen(registry, roots, subjects, pins, p) ==> p in ranges)
  }

  /** A subject that is no root; when every subject is one, a root that is neither a subject nor pinned. */
  ghost predicate Unknown(roots: map<string, string>, subjects: set<string>, pins: map<string, string>, pkg: string) {
    if subjects <= roots.Keys then pkg in roots && pkg !in subjects && pkg !in pins else pkg in subjects && pkg !in roots
  }

  /** The error names the first such package. */
  ghost predicate RootMissing(roots: map<string, string>, subjects: set<string>, pins: map<string, string>, e: ResolveError) {
    && e.PackageNotFound? && Unknown(roots, subjects, pins, e.package)
    && forall pkg :: TextBefore(pkg, e.package) ==> !Unknown(roots, subjects, pins, pkg)
  }

  lemma SubjectMissing(roots: map<string, string>, subjects: set<string>, pins: map<string, string>, pkg: string)
    requires pkg in subjects && pkg !in roots
    requires forall s :: s in subjects && TextBefore(s, pkg) ==> s in roots
    ensures RootMissing(roots, subjects, pins, PackageNotFound(pkg))
  {
    hide TextBefore;
  }

  lemma PinMissing(roots: map<string, string>, subjects: set<string>, pins: map<string, string>, pkg: string)
    requires subjects <= roots.Keys && pkg in roots && pkg !in subjects && pkg !in pins
    requires forall p :: p in roots && TextBefore(p, pkg) ==> p in subjects || p in pins
    ensures RootMissing(roots, subjects, pins, PackageNotFound(pkg))
  {
    hide TextBefore;
  }

  method CheckSubjects(roots: map<string, string>, subjects: set<string>) returns (missing: Option<string>)
    ensures missing.None? ==> subjects <= roots.Keys
    ensures missing.Some? ==> missing.value in subjects && missing.value !in roots
    ensures missing.Some? ==> forall s :: s in subjects && TextBefore(s, missing.value) ==> s in roots
  {
    hide Ascending, TextBefore, Sorted;
    var names := Sorted(subjects);
    for i := 0 to |names|
      invariant forall s :: s in names[..i] ==> s in roots
    {
      EarlierInOrder(names, i);
      assert names[i] in names && names[..i + 1] == names[..i] + [names[i]];
      if names[i] !in roots {
        return Some(names[i]);
      }
    }
    forall s | s in subjects ensures s in roots { assert s in names[..|names|]; }
    return None;
  }

  /** A range for every root: its own for a subject, its exact pin otherwise. */
  method RangesOfRoots(roots: map<string, string>, subjects: set<string>, pins: map<string, string>)
    returns (r: Result<map<string, string>, ResolveError>)
    ensures r.Ok? ==> r.value.Keys == roots.Keys && forall p :: p in roots ==>
      if p in subjects then r.value[p] == roots[p] else p in pins && r.value[p] == ExactText(pins[p])
    ensures r.Err? ==> r.error.PackageNotFound? && r.error.package in roots && r.error.package !in subjects && r.error.package !in pins
    ensures r.Err? ==> forall p :: p in roots && TextBefore(p, r.error.package) ==> p in subjects || p in pins
  {
    hide Ascending, TextBefore, Sorted, ExactText;
    var ranges: map<string, string> := map[];
    var names := Sorted(roots.Keys);
    for i := 0 to |names|
      invariant forall p :: p in ranges <==> p in names[..i]
      invariant forall p :: p in ranges ==> if p in subjects then ranges[p] == roots[p] else p in pins && ranges[p] == ExactText(pins[p])
    {
      var root := names[i];
      EarlierInOrder(names, i);
      assert root in names;
      assert names[..i + 1] == names[..i] + [root];
      if root in subjects {
        ranges := ranges[root := roots[root]];
      } else {
        if root !in pins {
          return Err(PackageNotFound(root));
        }
        ranges := ranges[root := ExactText(pins[root])];
      }
    }
    assert names[..|names|] == names;
    return Ok(ranges);
  }

  method AddPins(ranges: map<string, string>, pins: map<string, string>, frozen: set<string>) returns (r: map<string, string>)
    requires frozen <= pins.Keys
    ensures forall p :: p in r <==> p in ranges || p in frozen
    ensures forall p :: p in r ==> r[p] == if p in frozen then ExactText(pins[p]) else ranges[p]
  {
    hide Ascending, Sorted, ExactText;
    r := ranges;
    var names := Sorted(frozen);
    for i := 0 to |names|
      invariant forall p :: p in r <==> p in ranges || p in names[..i]
      invariant forall p :: p in r ==> if p in names[..i] then p in pins && r[p] == ExactText(pins[p]) else r[p] == ranges[p]
    {
      assert names[i] in names;
      assert names[..i + 1] == names[..i] + [names[i]];
      r := r[names[i] := ExactText(pins[names[i]])];
    }
    assert names[..|names|] == names;
  }

  method SyntheticRootRanges(registry: Registry, roots: map<string, string>, subjectRoots: seq<string>, pins: map<string, string>)
    returns (r: Result<map<string, string>, ResolveError>)
    ensures r.Ok? ==> RootRanges(registry, roots, Elements(subjectRoots), pins, r.value)
    ensures r.Err? ==> RootMissing(roots, Elements(subjectRoots), pins, r.error)
  {
    hide Held, Sorted, Ascending, PinGraph, ExactText, FromStarts, RootRanges, RootMissing, TextBefore, Frozen;
    var subjects := Elements(subjectRoots);
    var missing := CheckSubjects(roots, subjects);
    if missing.Some? {
      SubjectMissing(roots, subjects, pins, missing.value);
      return Err(PackageNotFound(missing.value));
    }
    var starts := Sorted(roots.Keys - subjects);
    var held := ReachableFrom(PinGraph(registry, pins), starts);
    HeldIs(registry, roots, subjects, pins, starts, held);
    var subjectSet := subjects + set pkg | pkg in pins && pkg !in roots && pkg !in held;
    var rootRanges := RangesOfRoots(roots, subjects, pins);
    if rootRanges.Err? {
      PinMissing(roots, subjects, pins, rootRanges.error.package);
      return Err(rootRanges.error);
    }
    var ranges := AddPins(rootRanges.value, pins, pins.Keys - subjectSet);
    RangesAre(registry, roots, subjects, pins, held, ranges);
    return Ok(ranges);
  }

  lemma RangesAre(registry: Registry, roots: map<string, string>, subjects: set<string>, pins: map<string, string>,
                  held: set<string>, ranges: map<string, string>)
    requires subjects <= roots.Keys && forall r :: r in roots && r !in subjects ==> r in pins && r in held
    requires forall pkg :: pkg in held <==> Held(registry, roots, subjects, pins, pkg)
    requires forall p :: p in ranges <==> p in roots || (p in pins && p !in subjects && p in held)
    requires forall p :: p in ranges && p !in subjects ==> p in pins && ranges[p] == ExactText(pins[p])
    requires forall p :: p in subjects ==> ranges[p] == roots[p]
    ensures RootRanges(registry, roots, subjects, pins, ranges)
  {
    hide Held, ExactText;
  }

  lemma HeldIs(registry: Registry, roots: map<string, string>, subjects: set<string>, pins: map<string, string>,
               starts: seq<string>, held: set<string>)
    requires forall s :: s in starts <==> s in roots && s !in subjects
    requires forall pkg :: pkg in held <==> FromStarts(PinGraph(registry, pins), starts, pkg)
    ensures forall pkg :: pkg in held <==> Held(registry, roots, subjects, pins, pkg)
    ensures forall root :: root in roots && root !in subjects ==> root in held
  {
    hide Reaches, PinGraph;
    StartsReach(PinGraph(registry, pins), starts);
    forall pkg ensures FromStarts(PinGraph(registry, pins), starts, pkg) <==> Held(registry, roots, subjects, pins, pkg) {
    }
  }

  // ------------------------------------------------------------ resolution

  function SyntheticVersion(ranges: map<string, string>): RegistryVersion {
    RegistryVersion("0.0.0", Skill, Available, Requires([], ranges), [])
  }

  const SYNTHETIC_ROOT := Root(SYNTHETIC, "*")

  const SYNTHETIC_REQUESTER := VersionKey(SYNTHETIC, "0.0.0")

  function WithSynthetic(registry: Registry, ranges: map<string, string>): Registry {
    registry[SYNTHETIC := [SyntheticVersion(ranges)]]
  }

  lemma SyntheticPicked(registry: Registry, ranges: map<string, string>, caps: seq<string>, final: Ranges, picks: Picks)
    requires Settled(WithSynthetic(registry, ranges), caps, SYNTHETIC_ROOT, final, picks)
    ensures SYNTHETIC in picks && picks[SYNTHETIC] == SyntheticVersion(ranges)
  {
    hide IsPick, Settled, RangeAdmits, ParseVersion;
    var input := WithSynthetic(registry, ranges);
    SettledJustified(input, caps, SYNTHETIC_ROOT, final, picks);
    SettledPick(input, caps, SYNTHETIC_ROOT, final, picks, SYNTHETIC);
    assert picks[SYNTHETIC] in input[SYNTHETIC];
  }

  /** What the artificial package asks for is picked, inside the range asked. */
  lemma AskedIsPicked(registry: Registry, ranges: map<string, string>, caps: seq<string>, final: Ranges, picks: Picks, p: string)
    requires Settled(WithSynthetic(registry, ranges), caps, SYNTHETIC_ROOT, final, picks) && p in ranges
    ensures p in picks && RangeAdmits(ranges[p], picks[p].version)
  {
    hide IsPick, Settled, RangeAdmits, ParseVersion;
    var input := WithSynthetic(registry, ranges);
    SyntheticPicked(registry, ranges, caps, final, picks);
    assert DistinctTexts(input[SYNTHETIC]);
    SettledEdge(input, caps, SYNTHETIC_ROOT, final, picks, SYNTHETIC, p);
  }

  /** The package is selected at exactly this version, and so did not move. */
  ghost predicate StaysAt(res: Resolution, p: string, version: string) {
    && p in res.picks && res.picks[p] == version
    && res.moves.Some? && p in res.moves.value && res.moves.value[p] == Move(Some(version), Some(version), Same)
  }

  /** An exact pin admits only the pinned text, so the package is `Same`. */
  lemma ExactPinStays(pins: map<string, string>, picks: map<string, string>, moves: map<string, Move>, p: string)
    requires AreMoves(pins, picks, moves) && p in pins && p in picks
    requires RangeAdmits(ExactText(pins[p]), picks[p])
    ensures picks[p] == pins[p] && p in moves && moves[p] == Move(Some(pins[p]), Some(pins[p]), Same)
  {
    hide ParseVersion, RangeOf, Satisfies, Compare;
    assert IsMove(At(pins, p), At(picks, p), moves[p]);
    var v := ParseVersion(picks[p]).value;
    ExactRange(pins[p], v);
    ParseInjective(picks[p], pins[p]);
    CompareTotalOrder(v, v);
  }

  /** A package whose requirements include the artificial one would close a walk. */
  lemma NothingNeedsSynthetic(registry: Registry, ranges: map<string, string>, caps: seq<string>, final: Ranges, picks: Picks, p: string)
    requires Settled(WithSynthetic(registry, ranges), caps, SYNTHETIC_ROOT, final, picks) && Acyclic(GraphOf(picks)) && p in picks
    ensures SYNTHETIC !in picks[p].needs.packages
  {
    hide IsPick, Justified, Followed;
    var w :| WalkBetween(GraphOf(picks), SYNTHETIC, p, w);
    assert !ClosedWalk(GraphOf(picks), w + [SYNTHETIC]);
  }

  /** Closed under requirements, each pick usable and inside every pick's range. */
  ghost predicate ClosedSelection(registry: Registry, caps: seq<string>, chosen: Picks) {
    && (forall pkg :: pkg in chosen ==> pkg in registry && chosen[pkg] in registry[pkg] && Offered(chosen[pkg], caps))
    && (forall pkg, dep :: pkg in chosen && dep in chosen[pkg].needs.packages ==>
          dep in chosen && RangeAdmits(chosen[pkg].needs.packages[dep], chosen[dep].version))
  }

  lemma WithoutSynthetic(registry: Registry, ranges: map<string, string>, caps: seq<string>, picks: Picks)
    requires SoundClosure(WithSynthetic(registry, ranges), caps, SYNTHETIC_ROOT, picks)
    requires forall p :: p in picks ==> SYNTHETIC !in picks[p].needs.packages
    ensures ClosedSelection(registry, caps, picks - {SYNTHETIC})
  {
    hide RangeAdmits, Offered;
  }

  /** Everything a successful multi-root resolution promises. */
  ghost predicate RootsResolved(registry: Registry, roots: map<string, string>, subjects: set<string>, pins: map<string, string>,
                                res: Resolution, chosen: Picks)
  {
    && res.picks == TextsOf(chosen) && SYNTHETIC !in res.picks
    && res.moves.Some? && SYNTHETIC !in res.moves.value
    && roots.Keys <= res.picks.Keys
    && (forall s :: s in subjects ==> s in roots && RangeAdmits(roots[s], res.picks[s]))
    && (forall r :: r in roots && r !in subjects ==> r in pins && StaysAt(res, r, pins[r]))
    && (forall p :: Frozen(registry, roots, subjects, pins, p) ==> p in pins && StaysAt(res, p, pins[p]))
  }

  lemma FrozenStays(registry: Registry, roots: map<string, string>, subjects: set<string>, pins: map<string, string>, caps: seq<string>,
                    ranges: map<string, string>, final: Ranges, picks: Picks, moves: map<string, Move>, p: string)
    requires RootRanges(registry, roots, subjects, pins, ranges) && SYNTHETIC !in ranges
    requires Settled(WithSynthetic(registry, ranges), caps, SYNTHETIC_ROOT, final, picks)
    requires AreMoves(pins, TextsOf(picks), moves)
    requires Frozen(registry, roots, subjects, pins, p)
    ensures p in pins && StaysAt(Resolution(TextsOf(picks) - {SYNTHETIC}, Some(moves - {SYNTHETIC})), p, pins[p])
  {
    hide Settled, AreMoves, RangeAdmits, Held, ExactText;
    AskedIsPicked(registry, ranges, caps, final, picks, p);
    ExactPinStays(pins, TextsOf(picks), moves, p);
  }

  lemma RootPicked(registry: Registry, roots: map<string, string>, subjects: set<string>, pins: map<string, string>, caps: seq<string>,
                   ranges: map<string, string>, final: Ranges, picks: Picks, r: string)
    requires RootRanges(registry, roots, subjects, pins, ranges) && r in roots
    requires Settled(WithSynthetic(registry, ranges), caps, SYNTHETIC_ROOT, final, picks)
    ensures r in ranges && r in picks
    ensures r in subjects ==> RangeAdmits(roots[r], picks[r].version)
  {
    hide Settled, RangeAdmits, Held, ExactText;
    if r !in subjects { RootIsHeld(registry, roots, subjects, pins, r); }
    AskedIsPicked(registry, ranges, caps, final, picks, r);
  }

  lemma RootsKept(registry: Registry, roots: map<string, string>, subjects: set<string>, pins: map<string, string>, caps: seq<string>,
                  ranges: map<string, string>, final: Ranges, picks: Picks, moves: map<string, Move>)
    requires RootRanges(registry, roots, subjects, pins, ranges)
    requires Settled(WithSynthetic(registry, ranges), caps, SYNTHETIC_ROOT, final, picks) && Acyclic(GraphOf(picks))
    requires AreMoves(pins, TextsOf(picks), moves)
    ensures RootsResolved(registry, roots, subjects, pins,
                          Resolution(TextsOf(picks) - {SYNTHETIC}, Some(moves - {SYNTHETIC})), picks - {SYNTHETIC})
  {
    hide Settled, AreMoves, RangeAdmits, Acyclic, Frozen, ExactText, StaysAt;
    SyntheticPicked(registry, ranges, caps, final, picks);
    NothingNeedsSynthetic(registry, ranges, caps, final, picks, SYNTHETIC);
    assert SYNTHETIC !in ranges;
    forall p | Frozen(registry, roots, subjects, pins, p)
      ensures p in pins && StaysAt(Resolution(TextsOf(picks) - {SYNTHETIC}, Some(moves - {SYNTHETIC})), p, pins[p])
    {
      FrozenStays(registry, roots, subjects, pins, caps, ranges, final, picks, moves, p);
    }
    forall r | r in roots ensures r in ranges && r in picks && (r in subjects ==> RangeAdmits(roots[r], picks[r].version)) {
      RootPicked(registry, roots, subjects, pins, caps, ranges, final, picks, r);
    }
    forall r | r in roots && r !in subjects ensures Frozen(registry, roots, subjects, pins, r) {
      RootFrozen(registry, roots, subjects, pins, ranges, r);
    }
  }

  lemma RootFrozen(registry: Registry, roots: map<string, string>, subjects: set<string>, pins: map<string, string>,
                   ranges: map<string, string>, r: string)
    requires RootRanges(registry, roots, subjects, pins, ranges) && r in roots && r !in subjects
    ensures Frozen(registry, roots, subjects, pins, r)
  {
    hide Held, ExactText;
    RootIsHeld(registry, roots, subjects, pins, r);
  }

  lemma RootIsHeld(registry: Registry, roots: map<string, string>, subjects: set<string>, pins: map<string, string>, root: string)
    requires root in roots && root !in subjects
    ensures Held(registry, roots, subjects, pins, root)
  {
    ReachesSelf(PinGraph(registry, pins), root);
  }

  // --------------------------------------------------------------- refusals

  function RenameRequester(who: string): string {
    if who == SYNTHETIC_REQUESTER then ROOT_REQUESTER else who
  }

  function RenameAsked(asked: seq<AskedRange>): (r: seq<AskedRange>)
    ensures |r| == |asked|
    ensures forall i :: 0 <= i < |r| ==> r[i] == AskedRange(RenameRequester(asked[i].requestedBy), asked[i].range)
  {
    seq(|asked|, i requires 0 <= i < |asked| => AskedRange(RenameRequester(asked[i].requestedBy), asked[i].range))
  }

  /** The artificial requester is shown as the root. */
  function Attributed(e: ResolveError): ResolveError {
    match e
    case RangeConflict(p, asked) => RangeConflict(p, RenameAsked(asked))
    case NoMatchingVersion(p, asked) => NoMatchingVersion(p, RenameAsked(asked))
    case RangeInvalid(p, range, who) => RangeInvalid(p, range, RenameRequester(who))
    case _ => e
  }

  /** Only the requester is changed, and only where it is the artificial package. */
  lemma AttributedMeans(e: ResolveError)
    ensures var (a, root) := (Attributed(e), "\0catalog-roots@0.0.0");
      && (e.RangeInvalid? ==> a == RangeInvalid(e.package, e.range, if e.requestedBy == root then "(root)" else e.requestedBy))
      && (e.RangeConflict? ==> a.RangeConflict? && a.package == e.package && Renamed(e.ranges, a.ranges))
      && (e.NoMatchingVersion? ==> a.NoMatchingVersion? && a.package == e.package && Renamed(e.ranges, a.ranges))
      && (!e.RangeInvalid? && !e.RangeConflict? && !e.NoMatchingVersion? ==> a == e)
  {
    assert SYNTHETIC_REQUESTER == "\0catalog-roots@0.0.0";
  }

  ghost predicate Renamed(asked: seq<AskedRange>, shown: seq<AskedRange>) {
    |shown| == |asked| && forall i :: 0 <= i < |asked| ==>
      && shown[i].range == asked[i].range
      && shown[i].requestedBy == if asked[i].requestedBy == "\0catalog-roots@0.0.0" then "(root)" else asked[i].requestedBy
  }

  /** A range that is not the pin's own and that the pinned version is outside of. */
  predicate Contradicts(a: AskedRange, version: string, pinned: Version) {
    && !(a.requestedBy == ROOT_REQUESTER && a.range == ExactText(version))
    && RangeOf(a.range).Some? && !Satisfies(RangeOf(a.range).value, pinned)
  }

  method FindConflict(asked: seq<AskedRange>, version: string, pinned: Version) returns (at: Option<nat>)
    ensures at.Some? ==> at.value < |asked| && Contradicts(asked[at.value], version, pinned)
    ensures at.Some? ==> forall i :: 0 <= i < at.value ==> !Contradicts(asked[i], version, pinned)
    ensures at.None? ==> forall i :: 0 <= i < |asked| ==> !Contradicts(asked[i], version, pinned)
  {
    hide Contradicts;
    for i := 0 to |asked|
      invariant forall j :: 0 <= j < i ==> !Contradicts(asked[j], version, pinned)
    {
      if Contradicts(asked[i], version, pinned) {
        return Some(i);
      }
    }
    return None;
  }

  /** A frozen package whose exact pin is outside a range someone else asks of it. */
  ghost predicate PinContradicted(ranges: map<string, string>, pins: map<string, string>, asked: seq<AskedRange>, package: string, at: nat) {
    && package in pins && package in ranges && ranges[package] == ExactText(pins[package]) && ParseVersion(pins[package]).Some?
    && at < |asked| && Contradicts(asked[at], pins[package], ParseVersion(pins[package]).value)
  }

  /**
   * An error of the single-root resolution, as the several-root one reports it:
   * a conflict at a frozen package becomes a pin conflict exactly when some
   * asked range contradicts the pin, and the first such range is named.
   */
  ghost predicate Reported(ranges: map<string, string>, pins: map<string, string>, inner: ResolveError, e: ResolveError) {
    var shown := Attributed(inner);
    if (inner.RangeConflict? || inner.NoMatchingVersion?)
       && exists at: nat :: PinContradicted(ranges, pins, shown.ranges, shown.package, at)
    then exists at: nat :: PinContradicted(ranges, pins, shown.ranges, shown.package, at)
           && (forall i: nat :: i < at ==> !PinContradicted(ranges, pins, shown.ranges, shown.package, i))
           && e == PinConflict(shown.package, pins[shown.package], shown.ranges[at].range, shown.ranges[at].requestedBy)
    else e == shown
  }

  /** A readable range other than the pin's own exact one, which the pinned version is outside of. */
  ghost predicate Outside(a: AskedRange, version: string) {
    && (a.requestedBy != "(root)" || a.range != "=" + version)
    && ParseVersion(version).Some? && RangeOf(a.range).Some? && !Satisfies(RangeOf(a.range).value, ParseVersion(version).value)
  }

  ghost predicate FirstOutside(asked: seq<AskedRange>, version: string, at: nat) {
    at < |asked| && Outside(asked[at], version) && forall i :: 0 <= i < at ==> !Outside(asked[i], version)
  }

  /** A conflict at a package that is held at its pin names the first asked range the pin is outside of; any other error stays. */
  lemma PinConflictMeans(ranges: map<string, string>, pins: map<string, string>, inner: ResolveError, e: ResolveError)
    requires Reported(ranges, pins, inner, e) && (inner.RangeConflict? || inner.NoMatchingVersion?)
    ensures var (shown, p) := (Attributed(inner), Attributed(inner).package);
      var held := p in pins && p in ranges && ranges[p] == "=" + pins[p];
      && (held && (exists i :: 0 <= i < |shown.ranges| && Outside(shown.ranges[i], pins[p])) ==>
            exists at: nat :: FirstOutside(shown.ranges, pins[p], at) && e == PinConflict(p, pins[p], shown.ranges[at].range, shown.ranges[at].requestedBy))
      && (!held || (forall i :: 0 <= i < |shown.ranges| ==> !Outside(shown.ranges[i], pins[p])) ==> e == shown)
  {
    hide ParseVersion, RangeOf, Satisfies, RenameAsked;
    var (shown, p) := (Attributed(inner), Attributed(inner).package);
    forall at: nat ensures PinContradicted(ranges, pins, shown.ranges, p, at)
      <==> p in pins && p in ranges && ranges[p] == "=" + pins[p] && at < |shown.ranges| && Outside(shown.ranges[at], pins[p])
    {
    }
    if exists at: nat :: PinContradicted(ranges, pins, shown.ranges, p, at) {
      var at: nat :|
        && PinContradicted(ranges, pins, shown.ranges, p, at)
        && (forall i: nat :: i < at ==> !PinContradicted(ranges, pins, shown.ranges, p, i))
        && e == PinConflict(p, pins[p], shown.ranges[at].range, shown.ranges[at].requestedBy);
      assert FirstOutside(shown.ranges, pins[p], at);
    }
  }

  method Report(ranges: map<string, string>, pins: map<string, string>, inner: ResolveError) returns (e: ResolveError)
    ensures Reported(ranges, pins, inner, e)
  {
    hide ParseVersion, Contradicts, RenameAsked, ExactText;
    var shown := Attributed(inner);
    if shown.RangeConflict? || shown.NoMatchingVersion? {
      var p := shown.package;
      if p in pins && p in ranges && ranges[p] == ExactText(pins[p]) {
        var pinned := ParseVersion(pins[p]);
        if pinned.Some? {
          var at := FindConflict(shown.ranges, pins[p], pinned.value);
          if at.Some? {
            var a := shown.ranges[at.value];
            assert PinContradicted(ranges, pins, shown.ranges, p, at.value);
            return PinConflict(p, pins[p], a.range, a.requestedBy);
          }
        }
      }
    }
    return shown;
  }

  ghost predicate RootsRefused(registry: Registry, roots: map<string, string>, subjects: set<string>, pins: map<string, string>,
                               caps: seq<string>, e: ResolveError)
  {
    || RootMissing(roots, subjects, pins, e)
    || exists ranges, inner ::
         && RootRanges(registry, roots, subjects, pins, ranges)
         && Refused(WithSynthetic(registry, ranges), caps, SYNTHETIC_ROOT, Some(pins), inner)
         && Reported(ranges, pins, inner, e)
  }

  /**
   * Resolve several roots at once. On success the packages other roots hold
   * stay at their pins, the subjects meet their ranges, and the artificial
   * package is not in the result.
   */
  method ResolveRoots(registry: Registry, roots: map<string, string>, subjectRoots: seq<string>, pins: map<string, string>, caps: seq<string>)
    returns (r: Result<Resolution, ResolveError>, ghost chosen: Picks)
    ensures r.Ok? ==> RootsResolved(registry, roots, Elements(subjectRoots), pins, r.value, chosen)
    ensures r.Ok? && AllDistinct(registry) ==> ClosedSelection(registry, caps, chosen)
    ensures r.Err? ==> RootsRefused(registry, roots, Elements(subjectRoots), pins, caps, r.error)
  {
    hide RootRanges, RootMissing, Reported, Settled, Acyclic, AreMoves, SoundClosure, NeverRises, RefsGood, RootsResolved, ClosedSelection, RefError, MoveError, Refused, ClosedWalk, AllDistinct;
    chosen := map[];
    var built := SyntheticRootRanges(registry, roots, subjectRoots, pins);
    if built.Err? {
      return Err(built.error), chosen;
    }
    var ranges := built.value;
    var input := WithSynthetic(registry, ranges);
    ghost var passes, settled;
    var inner;
    inner, passes, settled := Resolve(input, SYNTHETIC_ROOT, caps, Some(pins));
    if inner.Err? {
      var e := Report(ranges, pins, inner.error);
      return Err(e), chosen;
    }
    ghost var picks := passes[|passes| - 1];
    RootsKept(registry, roots, Elements(subjectRoots), pins, caps, ranges, settled.value, picks, inner.value.moves.value);
    chosen := picks - {SYNTHETIC};
    if AllDistinct(registry) {
      StillDistinct(registry, ranges);
      forall p | p in picks ensures SYNTHETIC !in picks[p].needs.packages {
        NothingNeedsSynthetic(registry, ranges, caps, settled.value, picks, p);
      }
      WithoutSynthetic(registry, ranges, caps, picks);
    }
    return Ok(Resolution(inner.value.picks - {SYNTHETIC}, Some(inner.value.moves.value - {SYNTHETIC}))), chosen;
  }

  lemma StillDistinct(registry: Registry, ranges: map<string, string>)
    requires AllDistinct(registry)
    ensures AllDistinct(WithSynthetic(registry, ranges))
  {
    assert DistinctTexts([SyntheticVersion(ranges)]);
  }
}
