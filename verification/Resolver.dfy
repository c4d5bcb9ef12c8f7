/** Closure resolution for one root: passes to a fixpoint, then cycles, references and moves. */
module Resolver {
  import opened Prelude
  import opened Text
  import opened Semver
  import opened Selection
  import opened RangePasses
  import opened Cycle

  // -------------------------------------------------- references and moves

  ghost predicate RefMissing(picks: Picks, pkg: string, r: BodyRef) {
    pkg in picks && r in picks[pkg].refs && r.package !in picks[pkg].needs.packages
  }

  ghost predicate RefMistyped(picks: Picks, pkg: string, r: BodyRef) {
    pkg in picks && r in picks[pkg].refs && r.package in picks && picks[r.package].kind != r.field.Kind()
  }

  /** Earlier in the order of the loops: by package name, then by position among its references. */
  predicate RefEarlier(a: string, i: nat, pkg: string, j: nat) { TextBefore(a, pkg) || (a == pkg && i < j) }

  /** The j-th reference of `pkg` is the first one, in package then declaration order, that is not required. */
  ghost predicate FirstMissing(picks: Picks, pkg: string, j: nat) {
    && pkg in picks && j < |picks[pkg].refs| && RefMissing(picks, pkg, picks[pkg].refs[j])
    && forall a, i: nat :: a in picks && i < |picks[a].refs| && RefEarlier(a, i, pkg, j) ==> !RefMissing(picks, a, picks[a].refs[i])
  }

  /** Likewise for a reference to a pick of the wrong kind. */
  ghost predicate FirstMistyped(picks: Picks, pkg: string, j: nat) {
    && pkg in picks && j < |picks[pkg].refs| && RefMistyped(picks, pkg, picks[pkg].refs[j])
    && forall a, i: nat :: a in picks && i < |picks[a].refs| && RefEarlier(a, i, pkg, j) ==> !RefMistyped(picks, a, picks[a].refs[i])
  }

  /** The first reference, in package then declaration order, that is not required. */
  method FindMissing(picks: Picks) returns (at: Option<(string, nat)>)
    ensures at.None? ==> forall pkg, r :: !RefMissing(picks, pkg, r)
    ensures at.Some? ==> FirstMissing(picks, at.value.0, at.value.1)
  {
    hide Ascending, TextBefore, Sorted;
    var pkgs := Sorted(picks.Keys);
    for i := 0 to |pkgs|
      invariant forall a, r :: a in pkgs[..i] ==> !RefMissing(picks, a, r)
    {
      assert pkgs[i] in pkgs && pkgs[..i + 1] == pkgs[..i] + [pkgs[i]];
      EarlierInOrder(pkgs, i);
      var refs := picks[pkgs[i]].refs;
      for j := 0 to |refs|
        invariant forall b :: 0 <= b < j ==> !RefMissing(picks, pkgs[i], refs[b])
      {
        if refs[j].package !in picks[pkgs[i]].needs.packages {
          return Some((pkgs[i], j));
        }
      }
    }
    forall pkg, r | pkg in picks ensures !RefMissing(picks, pkg, r) {
      assert pkg in pkgs[..|pkgs|];
    }
    return None;
  }

  /** The first reference to a pick of the wrong kind, once none is missing. */
  method FindMistyped(picks: Picks) returns (at: Option<(string, nat)>)
    requires forall pkg, r :: !RefMissing(picks, pkg, r)
    requires forall pkg, dep :: pkg in picks && dep in picks[pkg].needs.packages ==> dep in picks
    ensures at.None? ==> forall pkg, r :: !RefMistyped(picks, pkg, r)
    ensures at.Some? ==> FirstMistyped(picks, at.value.0, at.value.1)
  {
    hide Ascending, TextBefore, Sorted;
    var pkgs := Sorted(picks.Keys);
    for i := 0 to |pkgs|
      invariant forall a, r :: a in pkgs[..i] ==> !RefMistyped(picks, a, r)
    {
      assert pkgs[i] in pkgs && pkgs[..i + 1] == pkgs[..i] + [pkgs[i]];
      EarlierInOrder(pkgs, i);
      var refs := picks[pkgs[i]].refs;
      for j := 0 to |refs|
        invariant forall b :: 0 <= b < j ==> !RefMistyped(picks, pkgs[i], refs[b])
      {
        assert !RefMissing(picks, pkgs[i], refs[j]);
        if picks[refs[j].package].kind != refs[j].field.Kind() {
          return Some((pkgs[i], j));
        }
      }
    }
    forall pkg, r | pkg in picks ensures !RefMistyped(picks, pkg, r) {
      assert pkg in pkgs[..|pkgs|];
    }
    return None;
  }

  /** Every body reference names a required pick of the kind its field calls for. */
  ghost predicate RefsGood(picks: Picks) {
    forall pkg, r :: pkg in picks && r in picks[pkg].refs ==>
      && r.package in picks[pkg].needs.packages
      && (r.package in picks ==> picks[r.package].kind == r.field.Kind())
  }

  /** The error names the first missing reference, or, when none is missing, the first of the wrong kind. */
  ghost predicate RefError(picks: Picks, e: ResolveError) {
    if exists pkg, r :: RefMissing(picks, pkg, r)
    then exists pkg, j: nat :: FirstMissing(picks, pkg, j)
           && e == BodyRefMissing(pkg, picks[pkg].refs[j].field, picks[pkg].refs[j].package)
    else exists pkg, j: nat :: FirstMistyped(picks, pkg, j) && e == Mistyped(picks, pkg, picks[pkg].refs[j])
  }

  function Mistyped(picks: Picks, pkg: string, r: BodyRef): ResolveError
    requires r.package in picks
  {
    KindMismatch(pkg, r.field, r.package, r.field.Kind(), picks[r.package].kind)
  }

  /** Every reference of `pkg` before the j-th is required, and so is every reference of an earlier package. */
  ghost predicate NoneMissingBefore(picks: Picks, pkg: string, j: nat)
    requires pkg in picks && j <= |picks[pkg].refs|
  {
    && (forall i :: 0 <= i < j ==> picks[pkg].refs[i].package in picks[pkg].needs.packages)
    && (forall a, i :: a in picks && TextBefore(a, pkg) && 0 <= i < |picks[a].refs| ==> picks[a].refs[i].package in picks[a].needs.packages)
  }

  ghost predicate NoneMistypedBefore(picks: Picks, pkg: string, j: nat)
    requires pkg in picks && j <= |picks[pkg].refs|
  {
    && (forall i :: 0 <= i < j && picks[pkg].refs[i].package in picks ==> picks[picks[pkg].refs[i].package].kind == picks[pkg].refs[i].field.Kind())
    && (forall a, i :: a in picks && TextBefore(a, pkg) && 0 <= i < |picks[a].refs| && picks[a].refs[i].package in picks ==>
          picks[picks[a].refs[i].package].kind == picks[a].refs[i].field.Kind())
  }

  /** Which reference an error names: the first by package and place that is not required, or, with none, the first of the wrong kind. */
  lemma RefErrorMeans(picks: Picks, e: ResolveError)
    requires RefError(picks, e)
    ensures e.BodyRefMissing? || e.KindMismatch?
    ensures e.BodyRefMissing? ==> e.package in picks && exists j: nat ::
      && j < |picks[e.package].refs| && NoneMissingBefore(picks, e.package, j)
      && picks[e.package].refs[j] == BodyRef(e.field, e.reference) && e.reference !in picks[e.package].needs.packages
    ensures e.KindMismatch? ==>
      && (forall pkg, r :: pkg in picks && r in picks[pkg].refs ==> r.package in picks[pkg].needs.packages)
      && e.package in picks && exists j: nat ::
           && j < |picks[e.package].refs| && NoneMistypedBefore(picks, e.package, j)
           && picks[e.package].refs[j] == BodyRef(e.field, e.reference) && e.reference in picks
           && e.expected == e.field.Kind() && e.found == picks[e.reference].kind && e.found != e.expected
  {
    hide TextBefore;
    if exists pkg, r :: RefMissing(picks, pkg, r) {
      var pkg, j: nat :| FirstMissing(picks, pkg, j) && e == BodyRefMissing(pkg, picks[pkg].refs[j].field, picks[pkg].refs[j].package);
      assert NoneMissingBefore(picks, pkg, j) by {
        forall a, i: nat | a in picks && i < |picks[a].refs| && (TextBefore(a, pkg) || (a == pkg && i < j))
          ensures !RefMissing(picks, a, picks[a].refs[i])
        {
          assert RefEarlier(a, i, pkg, j);
        }
      }
    } else {
      var pkg, j: nat :| FirstMistyped(picks, pkg, j) && e == Mistyped(picks, pkg, picks[pkg].refs[j]);
      forall p, r | p in picks && r in picks[p].refs ensures r.package in picks[p].needs.packages {
        assert !RefMissing(picks, p, r);
      }
      assert NoneMistypedBefore(picks, pkg, j) by {
        forall a, i: nat | a in picks && i < |picks[a].refs| && (TextBefore(a, pkg) || (a == pkg && i < j))
          ensures !RefMistyped(picks, a, picks[a].refs[i])
        {
          assert RefEarlier(a, i, pkg, j);
        }
      }
    }
  }

  /** Missing references are reported before any kind is looked at. */
  method CheckRefs(picks: Picks) returns (e: Option<ResolveError>)
    requires forall pkg, dep :: pkg in picks && dep in picks[pkg].needs.packages ==> dep in picks
    ensures e.None? ==> RefsGood(picks)
    ensures e.Some? ==> RefError(picks, e.value)
  {
    hide RefEarlier;
    var missing := FindMissing(picks);
    if missing.Some? {
      var (pkg, j) := missing.value;
      var r := picks[pkg].refs[j];
      return Some(BodyRefMissing(pkg, r.field, r.package));
    }
    var mistyped := FindMistyped(picks);
    if mistyped.Some? {
      var (pkg, j) := mistyped.value;
      return Some(Mistyped(picks, pkg, picks[pkg].refs[j]));
    }
    assert forall pkg, r :: pkg in picks && r in picks[pkg].refs ==> !RefMissing(picks, pkg, r) && !RefMistyped(picks, pkg, r);
    return None;
  }

  function TextsOf(picks: Picks): map<string, string> {
    map pkg | pkg in picks :: picks[pkg].version
  }

  function At(m: map<string, string>, k: string): Option<string> {
    if k in m then Some(m[k]) else None
  }

  /** How a package moved between two selections; both texts must be versions. */
  ghost predicate IsMove(from: Option<string>, to: Option<string>, m: Move) {
    && m.from == from && m.to == to
    && (from.None? ==> m.direction.Added?)
    && (from.Some? && to.None? ==> m.direction.Removed?)
    && (from.Some? && to.Some? ==>
          && ParseVersion(from.value).Some? && ParseVersion(to.value).Some?
          && m.direction == match Compare(ParseVersion(to.value).value, ParseVersion(from.value).value)
                            case Less => Down
                            case Equal => Same
                            case Greater => Up)
  }

  ghost predicate AreMoves(pins: map<string, string>, out: map<string, string>, moves: map<string, Move>) {
    moves.Keys == pins.Keys + out.Keys && forall pkg :: pkg in moves ==> IsMove(At(pins, pkg), At(out, pkg), moves[pkg])
  }

  /** Both texts, where there are two, are versions. */
  predicate Comparable(from: Option<string>, to: Option<string>) {
    from.Some? && to.Some? ==> ParseVersion(from.value).Some? && ParseVersion(to.value).Some?
  }

  /** The first package, by name, whose two texts are not both versions; the new text is looked at before the pin. */
  ghost predicate MoveError(pins: map<string, string>, out: map<string, string>, e: ResolveError) {
    && e.VersionInvalid?
    && (forall pkg :: (pkg in pins || pkg in out) && TextBefore(pkg, e.package) ==> Comparable(At(pins, pkg), At(out, pkg)))
    && e.package in pins && e.package in out && ParseVersion(e.version).None?
    && (e.version == out[e.package] || (e.version == pins[e.package] && ParseVersion(out[e.package]).Some?))
  }

  /** The package named is the first, by name, with a text on either side that is no version, where both sides have one. */
  lemma MoveErrorMeans(pins: map<string, string>, out: map<string, string>, e: ResolveError)
    requires MoveError(pins, out, e)
    ensures e.VersionInvalid? && e.package in pins && e.package in out
    ensures e.version == if ParseVersion(out[e.package]).None? then out[e.package] else pins[e.package]
    ensures ParseVersion(e.version).None?
    ensures forall p :: p in pins && p in out && TextBefore(p, e.package) ==> ParseVersion(pins[p]).Some? && ParseVersion(out[p]).Some?
  {
    hide TextBefore, ParseVersion;
    forall p | p in pins && p in out && TextBefore(p, e.package) ensures ParseVersion(pins[p]).Some? && ParseVersion(out[p]).Some? {
      assert Comparable(At(pins, p), At(out, p));
    }
  }

  method MoveOf(pkg: string, from: Option<string>, to: Option<string>) returns (r: Result<Move, ResolveError>)
    ensures r.Ok? ==> IsMove(from, to, r.value) && Comparable(from, to)
    ensures r.Err? ==> from.Some? && to.Some? && r.error.VersionInvalid? && r.error.package == pkg
    ensures r.Err? ==> if ParseVersion(to.value).None? then r.error.version == to.value
                       else ParseVersion(from.value).None? && r.error.version == from.value
  {
    hide ParseVersion, Compare;
    if from.None? { return Ok(Move(from, to, Added)); }
    if to.None? { return Ok(Move(from, to, Removed)); }
    var after := ParseVersion(to.value);
    if after.None? { return Err(VersionInvalid(pkg, to.value)); }
    var before := ParseVersion(from.value);
    if before.None? { return Err(VersionInvalid(pkg, from.value)); }
    var order := Cmp(after.value, before.value);
    var direction := match order case Less => Down case Equal => Same case Greater => Up;
    return Ok(Move(from, to, direction));
  }

  method Moves(pins: map<string, string>, out: map<string, string>) returns (r: Result<map<string, Move>, ResolveError>)
    ensures r.Ok? ==> AreMoves(pins, out, r.value)
    ensures r.Err? ==> MoveError(pins, out, r.error)
  {
    hide ParseVersion, IsMove, Comparable, TextBefore, Ascending, Sorted;
    var names := Sorted(pins.Keys + out.Keys);
    var moves: map<string, Move> := map[];
    for i := 0 to |names|
      invariant forall pkg :: pkg in moves <==> pkg in names[..i]
      invariant forall pkg :: pkg in moves ==> IsMove(At(pins, pkg), At(out, pkg), moves[pkg]) && Comparable(At(pins, pkg), At(out, pkg))
    {
      EarlierInOrder(names, i);
      assert names[..i + 1] == names[..i] + [names[i]];
      var m := MoveOf(names[i], At(pins, names[i]), At(out, names[i]));
      if m.Err? { return Err(m.error); }
      moves := moves[names[i] := m.value];
    }
    assert names[..|names|] == names;
    return Ok(moves);
  }

  // ------------------------------------------------------------ resolution

  /** What the refusals of a pass report. */
  ghost predicate PassRefused(registry: Registry, caps: seq<string>, root: Root, e: ResolveError) {
    exists pkg, at :: Justified(registry, caps, root, at) && ChoiceError(registry, caps, at, pkg, e)
  }

  ghost predicate Acyclic(g: Graph) {
    forall w :: !ClosedWalk(g, w)
  }

  lemma LaterErrors(picks: Picks, pins: Option<map<string, string>>, e: ResolveError)
    requires Acyclic(GraphOf(picks))
    requires RefError(picks, e) || (RefsGood(picks) && pins.Some? && MoveError(pins.value, TextsOf(picks), e))
    ensures !e.DependencyCycle? && SettledRefused(picks, pins, e)
  {
  }

  lemma CycleDecides(picks: Picks, pins: Option<map<string, string>>, cycle: Option<seq<string>>, root: string)
    requires forall w :: ClosedWalk(GraphOf(picks), w) ==> Reaches(GraphOf(picks), root, w[0])
    requires cycle.Some? ==> ClosedWalk(GraphOf(picks), cycle.value)
    requires cycle.None? ==> forall w :: ClosedWalk(GraphOf(picks), w) ==> !Reaches(GraphOf(picks), root, w[0])
    ensures cycle.None? <==> Acyclic(GraphOf(picks))
    ensures cycle.Some? ==> SettledRefused(picks, pins, DependencyCycle(cycle.value))
  {
  }

  /** Why a resolution of one root fails, in terms of its inputs and the settled picks. */
  ghost predicate Refused(registry: Registry, caps: seq<string>, root: Root, pins: Option<map<string, string>>, e: ResolveError) {
    || PassRefused(registry, caps, root, e)
    || exists ranges, picks :: Settled(registry, caps, root, ranges, picks) && SettledRefused(picks, pins, e)
  }

  ghost predicate SettledRefused(picks: Picks, pins: Option<map<string, string>>, e: ResolveError) {
    || (e.DependencyCycle? && ClosedWalk(GraphOf(picks), e.cycle))
    || (Acyclic(GraphOf(picks)) && RefError(picks, e))
    || (Acyclic(GraphOf(picks)) && RefsGood(picks) && pins.Some? && MoveError(pins.value, TextsOf(picks), e))
  }

  lemma SettledFollows(registry: Registry, caps: seq<string>, root: Root, ranges: Ranges, picks: Picks)
    requires Settled(registry, caps, root, ranges, picks)
    ensures forall pkg, dep :: pkg in picks && dep in picks[pkg].needs.packages ==> dep in picks
    ensures forall w :: ClosedWalk(GraphOf(picks), w) ==> Reaches(GraphOf(picks), root.package, w[0])
  {
    hide IsPick, Usable, Justified, Reaches, RequesterKey;
    forall pkg, dep | pkg in picks && dep in picks[pkg].needs.packages ensures dep in picks {
      assert Followed(ranges, picks, [], pkg, picks[pkg]);
    }
    forall w | ClosedWalk(GraphOf(picks), w) ensures Reaches(GraphOf(picks), root.package, w[0]) {
      assert w[1] in Needs(GraphOf(picks), w[0]);
    }
  }

  /**
   * Resolve one root: passes until nothing new is recorded, then the cycle
   * search, the reference checks and the moves. The ghost results are the picks
   * of every pass, and the final ranges once the passes settled.
   */
  method Resolve(registry: Registry, root: Root, caps: seq<string>, pins: Option<map<string, string>>)
    returns (r: Result<Resolution, ResolveError>, ghost passes: seq<Picks>, ghost settled: Option<Ranges>)
    ensures forall i, j :: 0 <= i < j < |passes| ==> NeverRises(passes[i], passes[j])
    ensures r.Err? ==> Refused(registry, caps, root, pins, r.error)
    ensures settled.Some? ==> passes != [] && Settled(registry, caps, root, settled.value, passes[|passes| - 1])
    ensures settled.Some? ==> (Acyclic(GraphOf(passes[|passes| - 1])) <==> !(r.Err? && r.error.DependencyCycle?))
    ensures r.Ok? ==> settled.Some? && r.value.picks == TextsOf(passes[|passes| - 1])
    ensures r.Ok? ==> RefsGood(passes[|passes| - 1])
    ensures r.Ok? ==> if pins.None? then r.value.moves.None?
                      else r.value.moves.Some? && AreMoves(pins.value, r.value.picks, r.value.moves.value)
    ensures r.Ok? && AllDistinct(registry) ==> SoundClosure(registry, caps, root, passes[|passes| - 1])
  {
    hide PassInvariant, Settled, SettledRefused, NeverRises, Falling, ChoiceError, Pairs, AllPairs, RefError, MoveError, AreMoves, RefsGood, SoundClosure, ClosedWalk, Reaches, Grows, Acyclic;
    var ranges: Ranges := map[root.package := map[ROOT_REQUESTER := root.range]];
    var picks: Picks := map[];
    passes := [];
    settled := None;
    FirstRanges(registry, caps, root, ranges);
    while true
      invariant Justified(registry, caps, root, ranges) && Falling(registry, caps, ranges, passes)
      decreases AllPairs(registry, root) - Pairs(ranges)
    {
      hide Justified;
      var passed, grown, added := Pass(registry, root, caps, ranges);
      if passed.Err? {
        FallingNeverRises(registry, caps, ranges, passes);
        return Err(passed.error), passes, None;
      }
      picks := passed.value;
      FallingExtends(registry, caps, root, ranges, grown, passes, picks);
      passes := passes + [picks];
      PassJustified(registry, caps, root, ranges, grown, picks);
      if !added {
        PassSettles(registry, caps, root, ranges, picks);
        settled := Some(ranges);
        break;
      }
      JustifiedPairs(registry, caps, root, grown);
      ranges := grown;
    }
    FallingNeverRises(registry, caps, ranges, passes);
    SettledFollows(registry, caps, root, ranges, picks);
    var cycle := FindCycle(root.package, GraphOf(picks));
    CycleDecides(picks, pins, cycle, root.package);
    if cycle.Some? {
      return Err(DependencyCycle(cycle.value)), passes, settled;
    }
    var bad := CheckRefs(picks);
    if bad.Some? {
      LaterErrors(picks, pins, bad.value);
      return Err(bad.value), passes, settled;
    }
    if AllDistinct(registry) { SettledIsSound(registry, caps, root, ranges, picks); }
    var out := TextsOf(picks);
    if pins.None? {
      return Ok(Resolution(out, None)), passes, settled;
    }
    var moves := Moves(pins.value, out);
    if moves.Err? {
      LaterErrors(picks, pins, moves.error);
      return Err(moves.error), passes, settled;
    }
    return Ok(Resolution(out, Some(moves.value))), passes, settled;
  }

  lemma FirstRanges(registry: Registry, caps: seq<string>, root: Root, ranges: Ranges)
    requires ranges == map[root.package := map[ROOT_REQUESTER := root.range]]
    ensures Justified(registry, caps, root, ranges) && Falling(registry, caps, ranges, [])
  {
  }

  lemma FallingNeverRises(registry: Registry, caps: seq<string>, ranges: Ranges, passes: seq<Picks>)
    requires Falling(registry, caps, ranges, passes)
    ensures forall i, j :: 0 <= i < j < |passes| ==> NeverRises(passes[i], passes[j])
  {
  }

  lemma PassJustified(registry: Registry, caps: seq<string>, root: Root, start: Ranges, ranges: Ranges, picks: Picks)
    requires PassInvariant(registry, caps, root, start, ranges, picks, [])
    ensures Justified(registry, caps, root, ranges)
  {
  }
}

