/** Accumulated ranges and the breadth-first passes over them. */
module RangePasses {
  import opened Prelude
  import opened Text
  import opened Catalog
  import opened Semver
  import opened Selection
  import opened Cycle

  // ------------------------------------------------------------ accumulation

  function RequesterKey(pkg: string, rv: RegistryVersion): string {
    VersionKey(pkg, rv.version)
  }

  /** Rust's `ranges.entry(dep).or_default().entry(by)`: insert only where vacant. */
  function Record(ranges: Ranges, dep: string, who: string, text: string): Ranges {
    var asked := AskedOf(ranges, dep);
    ranges[dep := if who in asked then asked else asked[who := text]]
  }

  predicate Has(ranges: Ranges, dep: string, who: string) {
    dep in ranges && who in ranges[dep]
  }

  predicate HasText(ranges: Ranges, dep: string, who: string, text: string) {
    Has(ranges, dep, who) && ranges[dep][who] == text
  }

  /** Ranges only accumulate: nothing asked is withdrawn or changed. */
  ghost predicate Grows(a: Ranges, b: Ranges) {
    forall dep, who :: Has(a, dep, who) ==> HasText(b, dep, who, a[dep][who])
  }

  /** Version `rv` of `pkg` asks for `dep` in the range `text`. */
  ghost predicate Grants(registry: Registry, caps: seq<string>, pkg: string, rv: RegistryVersion, dep: string, text: string) {
    && pkg in registry && rv in Usable(registry[pkg], caps) && ParseVersion(rv.version).Some?
    && dep in rv.needs.packages && rv.needs.packages[dep] == text
  }

  ghost predicate JustifiedEntry(registry: Registry, caps: seq<string>, root: Root, dep: string, who: string, text: string) {
    || (dep == root.package && who == ROOT_REQUESTER && text == root.range)
    || exists pkg, rv :: who == RequesterKey(pkg, rv) && Grants(registry, caps, pkg, rv, dep, text)
  }

  /** Everything recorded was asked by the root or by a usable version. */
  ghost predicate Justified(registry: Registry, caps: seq<string>, root: Root, ranges: Ranges) {
    && HasText(ranges, root.package, ROOT_REQUESTER, root.range)
    && forall dep, who :: Has(ranges, dep, who) ==> JustifiedEntry(registry, caps, root, dep, who, ranges[dep][who])
  }

  /** Every pair (package, requester) that can ever be recorded. */
  ghost function AllPairs(registry: Registry, root: Root): set<(string, string)> {
    {(root.package, ROOT_REQUESTER)}
      + set pkg, i, dep | pkg in registry && 0 <= i < |registry[pkg]| && dep in registry[pkg][i].needs.packages
          :: (dep, RequesterKey(pkg, registry[pkg][i]))
  }

  ghost function Pairs(ranges: Ranges): set<(string, string)> {
    set dep, who | dep in ranges && who in ranges[dep] :: (dep, who)
  }

  lemma RecordFacts(registry: Registry, caps: seq<string>, root: Root, ranges: Ranges, dep: string, who: string, text: string)
    requires Justified(registry, caps, root, ranges) && JustifiedEntry(registry, caps, root, dep, who, text)
    ensures var ranges' := Record(ranges, dep, who, text);
            && Justified(registry, caps, root, ranges') && Grows(ranges, ranges') && Has(ranges', dep, who)
            && (Has(ranges, dep, who) ==> ranges' == ranges)
  {
    hide JustifiedEntry;
    var ranges' := Record(ranges, dep, who, text);
    forall d, w | Has(ranges', d, w) ensures JustifiedEntry(registry, caps, root, d, w, ranges'[d][w]) {
      assert Has(ranges, d, w) || (d == dep && w == who);
    }
  }

  lemma JustifiedPairs(registry: Registry, caps: seq<string>, root: Root, ranges: Ranges)
    requires Justified(registry, caps, root, ranges)
    ensures Pairs(ranges) <= AllPairs(registry, root)
  {
    hide ParseVersion, RequesterKey;
    forall dep, who | Has(ranges, dep, who) ensures (dep, who) in AllPairs(registry, root) {
      assert JustifiedEntry(registry, caps, root, dep, who, ranges[dep][who]);
      if !(dep == root.package && who == ROOT_REQUESTER) {
        var pkg, rv :| who == RequesterKey(pkg, rv) && Grants(registry, caps, pkg, rv, dep, ranges[dep][who]);
        var i :| 0 <= i < |registry[pkg]| && registry[pkg][i] == rv;
      }
    }
  }

  lemma GrowsPairs(a: Ranges, b: Ranges)
    requires Grows(a, b)
    ensures Pairs(a) <= Pairs(b)
  {
    forall dep, who | Has(a, dep, who) ensures Has(b, dep, who) {
    }
  }

  // ---------------------------------------------------------------- one pass

  function GraphOf(picks: Picks): Graph {
    map pkg | pkg in picks :: picks[pkg].needs.packages.Keys
  }

  ghost predicate PickedWithin(registry: Registry, caps: seq<string>, low: Ranges, high: Ranges, pkg: string, rv: RegistryVersion) {
    && pkg in registry
    && exists mid :: Grows(low, mid) && Grows(mid, high) && IsPick(Usable(registry[pkg], caps), AskedOf(mid, pkg), rv)
  }

  /** A pick's requirements are waiting or picked, and their ranges are recorded. */
  ghost predicate Followed(ranges: Ranges, picks: Picks, queue: seq<string>, pkg: string, rv: RegistryVersion) {
    forall dep :: dep in rv.needs.packages ==> (dep in picks || dep in queue) && Has(ranges, dep, RequesterKey(pkg, rv))
  }

  ghost predicate AllReached(root: string, picks: Picks, queue: seq<string>) {
    forall pkg :: pkg in picks || pkg in queue ==> Reaches(GraphOf(picks), root, pkg)
  }

  /** What a pass has established about each package it has picked. */
  ghost predicate PassInvariant(registry: Registry, caps: seq<string>, root: Root, start: Ranges, ranges: Ranges,
                                picks: Picks, queue: seq<string>)
  {
    && Justified(registry, caps, root, ranges) && Grows(start, ranges)
    && (forall pkg :: pkg in picks ==> PickedWithin(registry, caps, start, ranges, pkg, picks[pkg]))
    && (forall pkg :: pkg in picks ==> Followed(ranges, picks, queue, pkg, picks[pkg]))
    && (root.package in picks || root.package in queue)
    && AllReached(root.package, picks, queue)
  }

  lemma ReachesGrows(g: Graph, h: Graph, u: string, v: string)
    requires Reaches(g, u, v) && forall p :: p in g ==> p in h && g[p] == h[p]
    ensures Reaches(h, u, v)
  {
    var w :| WalkBetween(g, u, v, w);
    assert WalkBetween(h, u, v, w);
  }

  lemma ReachesStep(g: Graph, u: string, v: string, x: string)
    requires Reaches(g, u, v) && x in Needs(g, v)
    ensures Reaches(g, u, x)
  {
    var w :| WalkBetween(g, u, v, w);
    assert WalkBetween(g, u, x, w + [x]);
  }

  lemma GrowsTransitive(a: Ranges, b: Ranges, c: Ranges)
    requires Grows(a, b) && Grows(b, c)
    ensures Grows(a, c)
  {
    forall dep, who | Has(a, dep, who) ensures HasText(c, dep, who, a[dep][who]) {
      assert HasText(b, dep, who, a[dep][who]);
    }
  }

  lemma WithinGrows(registry: Registry, caps: seq<string>, low: Ranges, high: Ranges, high': Ranges, pkg: string, rv: RegistryVersion)
    requires PickedWithin(registry, caps, low, high, pkg, rv) && Grows(high, high')
    ensures PickedWithin(registry, caps, low, high', pkg, rv)
  {
    hide IsPick, Usable, Grows;
    var mid :| Grows(low, mid) && Grows(mid, high) && IsPick(Usable(registry[pkg], caps), AskedOf(mid, pkg), rv);
    GrowsTransitive(mid, high, high');
  }

  lemma ReachExtends(root: string, picks: Picks, queue: seq<string>, pkg: string, rv: RegistryVersion, deps: seq<string>)
    requires AllReached(root, picks, [pkg] + queue)
    requires pkg !in picks && forall dep :: dep in deps <==> dep in rv.needs.packages
    ensures AllReached(root, picks[pkg := rv], queue + deps)
  {
    hide Reaches;
    var (g, g') := (GraphOf(picks), GraphOf(picks[pkg := rv]));
    assert pkg in [pkg] + queue;
    ReachesGrows(g, g', root, pkg);
    forall p | p in picks[pkg := rv] || p in queue + deps ensures Reaches(g', root, p) {
      if p in picks || p in [pkg] + queue {
        ReachesGrows(g, g', root, p);
      } else {
        assert p in deps;
        ReachesStep(g', root, pkg, p);
      }
    }
  }

  /** Picking `rv` for `pkg` and recording what it asks for keeps the pass sound. */
  lemma PassExtends(registry: Registry, caps: seq<string>, root: Root, start: Ranges, ranges: Ranges, ranges': Ranges,
                    picks: Picks, queue: seq<string>, pkg: string, rv: RegistryVersion, deps: seq<string>)
    requires PassInvariant(registry, caps, root, start, ranges, picks, [pkg] + queue)
    requires pkg in registry && pkg !in picks && IsPick(Usable(registry[pkg], caps), AskedOf(ranges, pkg), rv)
    requires Justified(registry, caps, root, ranges') && Grows(ranges, ranges')
    requires forall dep :: dep in deps <==> dep in rv.needs.packages
    requires forall dep :: dep in deps ==> Has(ranges', dep, RequesterKey(pkg, rv))
    ensures PassInvariant(registry, caps, root, start, ranges', picks[pkg := rv], queue + deps)
  {
    hide IsPick, RequesterKey, Usable, Justified, Reaches, Grows, PickedWithin, Followed, AllReached;
    var picks' := picks[pkg := rv];
    GrowsTransitive(start, ranges, ranges');
    forall p | p in picks' ensures PickedWithin(registry, caps, start, ranges', p, picks'[p]) {
      if p == pkg {
        PickedNow(registry, caps, start, ranges, ranges', pkg, rv);
      } else {
        WithinGrows(registry, caps, start, ranges, ranges', p, picks[p]);
      }
    }
    ReachExtends(root.package, picks, queue, pkg, rv, deps);
    assert root.package in picks' || root.package in queue + deps;
    forall p | p in picks' ensures Followed(ranges', picks', queue + deps, p, picks'[p]) {
      if p != pkg {
        FollowedGrows(ranges, ranges', picks, queue, pkg, rv, deps, p);
      } else {
        FollowedNow(ranges', picks', queue, pkg, rv, deps);
      }
    }
  }

  lemma PickedNow(registry: Registry, caps: seq<string>, low: Ranges, mid: Ranges, high: Ranges, pkg: string, rv: RegistryVersion)
    requires Grows(low, mid) && Grows(mid, high)
    requires pkg in registry && IsPick(Usable(registry[pkg], caps), AskedOf(mid, pkg), rv)
    ensures PickedWithin(registry, caps, low, high, pkg, rv)
  {
  }

  lemma FollowedNow(ranges: Ranges, picks: Picks, queue: seq<string>, pkg: string, rv: RegistryVersion, deps: seq<string>)
    requires forall dep :: dep in deps <==> dep in rv.needs.packages
    requires forall dep :: dep in deps ==> Has(ranges, dep, RequesterKey(pkg, rv))
    ensures Followed(ranges, picks, queue + deps, pkg, rv)
  {
  }

  lemma FollowedGrows(ranges: Ranges, ranges': Ranges, picks: Picks, queue: seq<string>, pkg: string, rv: RegistryVersion,
                      deps: seq<string>, p: string)
    requires p in picks && Followed(ranges, picks, [pkg] + queue, p, picks[p]) && Grows(ranges, ranges')
    ensures Followed(ranges', picks[pkg := rv], queue + deps, p, picks[p])
  {
    hide RequesterKey;
    forall dep | dep in picks[p].needs.packages
      ensures (dep in picks[pkg := rv] || dep in queue + deps) && Has(ranges', dep, RequesterKey(p, picks[p]))
    {
      assert Has(ranges, dep, RequesterKey(p, picks[p]));
    }
  }

  lemma PassSkips(registry: Registry, caps: seq<string>, root: Root, start: Ranges, ranges: Ranges, picks: Picks, queue: seq<string>, pkg: string)
    requires PassInvariant(registry, caps, root, start, ranges, picks, [pkg] + queue) && pkg in picks
    ensures PassInvariant(registry, caps, root, start, ranges, picks, queue)
  {
    hide PickedWithin, Justified, Has, RequesterKey;
    forall p | p in picks ensures Followed(ranges, picks, queue, p, picks[p]) {
      assert Followed(ranges, picks, [pkg] + queue, p, picks[p]);
    }
  }

  lemma NotYet(a: Ranges, b: Ranges, dep: string, who: string)
    requires Grows(a, b) && !Has(b, dep, who)
    ensures !Has(a, dep, who)
  {
  }

  lemma GrantJustifies(registry: Registry, caps: seq<string>, root: Root, pkg: string, rv: RegistryVersion, dep: string, text: string)
    requires Grants(registry, caps, pkg, rv, dep, text)
    ensures JustifiedEntry(registry, caps, root, dep, RequesterKey(pkg, rv), text)
  {
  }

  /** Record every range a pick asks for, in requirement order. */
  method RecordAll(registry: Registry, caps: seq<string>, ghost root: Root, ranges: Ranges, pkg: string, pick: RegistryVersion)
    returns (r: Ranges, added: bool)
    requires Justified(registry, caps, root, ranges)
    requires pkg in registry && pick in Usable(registry[pkg], caps) && ParseVersion(pick.version).Some?
    ensures Justified(registry, caps, root, r) && Grows(ranges, r)
    ensures forall dep :: dep in pick.needs.packages ==> Has(r, dep, RequesterKey(pkg, pick))
    ensures if added then !(Pairs(r) <= Pairs(ranges)) else r == ranges
  {
    hide ParseVersion, RequesterKey, Usable, Justified, Ascending, Sorted, JustifiedEntry;
    var deps := Sorted(pick.needs.packages.Keys);
    r, added := ranges, false;
    for k := 0 to |deps|
      invariant Justified(registry, caps, root, r) && Grows(ranges, r)
      invariant forall i :: 0 <= i < k ==> Has(r, deps[i], RequesterKey(pkg, pick))
      invariant if added then !(Pairs(r) <= Pairs(ranges)) else r == ranges
    {
      var (dep, who) := (deps[k], RequesterKey(pkg, pick));
      assert dep in deps;
      var text := pick.needs.packages[dep];
      GrantJustifies(registry, caps, root, pkg, pick, dep, text);
      RecordFacts(registry, caps, root, r, dep, who, text);
      ghost var before := r;
      if who !in AskedOf(r, dep) {
        r := Record(r, dep, who, text);
        added := true;
        GrowsPairs(before, r);
        assert (dep, who) in Pairs(r);
        NotYet(ranges, before, dep, who);
      }
    }
    forall dep | dep in pick.needs.packages ensures Has(r, dep, RequesterKey(pkg, pick)) {
      assert dep in deps;
    }
  }

  /** One breadth-first pass from the root over the ranges recorded so far. */
  method Pass(registry: Registry, root: Root, caps: seq<string>, start: Ranges)
    returns (r: Result<Picks, ResolveError>, ranges: Ranges, added: bool)
    requires Justified(registry, caps, root, start)
    ensures r.Ok? ==> PassInvariant(registry, caps, root, start, ranges, r.value, [])
    ensures r.Ok? ==> if added then Pairs(start) < Pairs(ranges) else ranges == start
    ensures r.Err? ==> exists pkg, at :: Justified(registry, caps, root, at) && Grows(start, at) && ChoiceError(registry, caps, at, pkg, r.error)
  {
    hide ParseVersion, RequesterKey, Usable, Justified, ChoiceError, PassInvariant, IsPick;
    var picks: Picks := map[];
    var queue := [root.package];
    ranges, added := start, false;
    PassStarts(registry, caps, root, start);
    while queue != []
      invariant PassInvariant(registry, caps, root, start, ranges, picks, queue)
      invariant Justified(registry, caps, root, ranges) && Grows(start, ranges)
      invariant if added then !(Pairs(ranges) <= Pairs(start)) else ranges == start
      invariant picks.Keys <= registry.Keys
      decreases registry.Keys - picks.Keys, |queue|
    {
      var pkg := queue[0];
      assert queue == [pkg] + queue[1..];
      queue := queue[1..];
      if pkg in picks {
        PassSkips(registry, caps, root, start, ranges, picks, queue, pkg);
        continue;
      }
      var chosen := Choose(registry, caps, ranges, pkg);
      if chosen.Err? {
        return Err(chosen.error), ranges, added;
      }
      var pick := chosen.value;
      PickUsable(Usable(registry[pkg], caps), AskedOf(ranges, pkg), pick);
      var recorded, more := RecordAll(registry, caps, root, ranges, pkg, pick);
      var deps := Sorted(pick.needs.packages.Keys);
      PassExtends(registry, caps, root, start, ranges, recorded, picks, queue, pkg, pick, deps);
      GrowsPairs(start, ranges);
      GrowsPairs(ranges, recorded);
      assert pkg in registry.Keys - picks.Keys;
      picks := picks[pkg := pick];
      assert pkg !in registry.Keys - picks.Keys;
      ranges, added := recorded, added || more;
      queue := queue + deps;
    }
    GrowsPairs(start, ranges);
    return Ok(picks), ranges, added;
  }

  lemma PassStarts(registry: Registry, caps: seq<string>, root: Root, start: Ranges)
    requires Justified(registry, caps, root, start)
    ensures PassInvariant(registry, caps, root, start, start, map[], [root.package])
  {
    hide Justified;
    assert WalkBetween(GraphOf(map[]), root.package, root.package, [root.package]);
  }

  lemma PickUsable(us: seq<RegistryVersion>, asked: Asked, rv: RegistryVersion)
    requires IsPick(us, asked, rv)
    ensures rv in us && Admitted(rv, asked) && ParseVersion(rv.version).Some?
  {
  }

  // ------------------------------------------------- what the fixpoint gives

  /** Versions of one package never share a text. */
  ghost predicate DistinctTexts(versions: seq<RegistryVersion>) {
    forall a, b :: a in versions && b in versions && a.version == b.version ==> a == b
  }

  ghost predicate AllDistinct(registry: Registry) {
    forall pkg :: pkg in registry ==> DistinctTexts(registry[pkg])
  }

  /** A pass that recorded nothing new: every pick answers the final ranges. */
  ghost predicate Settled(registry: Registry, caps: seq<string>, root: Root, ranges: Ranges, picks: Picks) {
    && Justified(registry, caps, root, ranges) && root.package in picks
    && forall pkg :: pkg in picks ==>
         && pkg in registry && IsPick(Usable(registry[pkg], caps), AskedOf(ranges, pkg), picks[pkg])
         && Followed(ranges, picks, [], pkg, picks[pkg])
         && Reaches(GraphOf(picks), root.package, pkg)
  }

  lemma GrowsBothWays(a: Ranges, b: Ranges, pkg: string)
    requires Grows(a, b) && Grows(b, a)
    ensures AskedOf(a, pkg) == AskedOf(b, pkg)
  {
    forall who ensures who in AskedOf(a, pkg) <==> who in AskedOf(b, pkg) {
      assert Has(a, pkg, who) <==> Has(b, pkg, who);
    }
    forall who | who in AskedOf(a, pkg) ensures AskedOf(a, pkg)[who] == AskedOf(b, pkg)[who] {
      assert Has(a, pkg, who);
    }
  }

  lemma PassSettles(registry: Registry, caps: seq<string>, root: Root, ranges: Ranges, picks: Picks)
    requires PassInvariant(registry, caps, root, ranges, ranges, picks, [])
    ensures Settled(registry, caps, root, ranges, picks)
  {
    hide IsPick, Usable, Justified, Grows, Followed, Reaches;
    forall pkg | pkg in picks ensures pkg in registry && IsPick(Usable(registry[pkg], caps), AskedOf(ranges, pkg), picks[pkg]) {
      assert PickedWithin(registry, caps, ranges, ranges, pkg, picks[pkg]);
      var mid :| Grows(ranges, mid) && Grows(mid, ranges) && IsPick(Usable(registry[pkg], caps), AskedOf(mid, pkg), picks[pkg]);
      GrowsBothWays(ranges, mid, pkg);
    }
  }

  /** A recorded text is the one its requester's version declares. */
  lemma RecordedText(registry: Registry, caps: seq<string>, root: Root, ranges: Ranges, pkg: string, rv: RegistryVersion, dep: string)
    requires Justified(registry, caps, root, ranges)
    requires pkg in registry && DistinctTexts(registry[pkg]) && rv in Usable(registry[pkg], caps) && ParseVersion(rv.version).Some?
    requires dep in rv.needs.packages && Has(ranges, dep, RequesterKey(pkg, rv))
    ensures ranges[dep][RequesterKey(pkg, rv)] == rv.needs.packages[dep]
  {
    hide ParseVersion, Usable;
    var who := RequesterKey(pkg, rv);
    assert JustifiedEntry(registry, caps, root, dep, who, ranges[dep][who]);
    assert who[|pkg|] == '@';
    assert '@' !in ROOT_REQUESTER;
    var pkg2, rv2 :| who == RequesterKey(pkg2, rv2) && Grants(registry, caps, pkg2, rv2, dep, ranges[dep][who]);
    if '@' in rv.version { VersionTextChars(rv.version, '@'); }
    if '@' in rv2.version { VersionTextChars(rv2.version, '@'); }
    VersionKeyInjective(pkg, rv.version, pkg2, rv2.version);
    assert rv in registry[pkg] && rv2 in registry[pkg];
  }

  /** Closed under requirements, every pick usable and inside each current pick's range. */
  ghost predicate SoundClosure(registry: Registry, caps: seq<string>, root: Root, picks: Picks) {
    && root.package in picks && RangeAdmits(root.range, picks[root.package].version)
    && (forall pkg :: pkg in picks ==> pkg in registry && picks[pkg] in registry[pkg] && Offered(picks[pkg], caps))
    && (forall pkg, dep :: pkg in picks && dep in picks[pkg].needs.packages ==>
          dep in picks && RangeAdmits(picks[pkg].needs.packages[dep], picks[dep].version))
  }

  lemma SettledPick(registry: Registry, caps: seq<string>, root: Root, ranges: Ranges, picks: Picks, pkg: string)
    requires Settled(registry, caps, root, ranges, picks) && pkg in picks
    ensures pkg in registry && picks[pkg] in Usable(registry[pkg], caps) && ParseVersion(picks[pkg].version).Some?
    ensures picks[pkg] in registry[pkg] && Offered(picks[pkg], caps)
    ensures forall who :: who in AskedOf(ranges, pkg) ==> RangeAdmits(AskedOf(ranges, pkg)[who], picks[pkg].version)
    ensures Followed(ranges, picks, [], pkg, picks[pkg])
  {
    hide ParseVersion, IsPick, RangeAdmits, Followed, Reaches, Justified;
    PickUsable(Usable(registry[pkg], caps), AskedOf(ranges, pkg), picks[pkg]);
  }

  lemma SettledEdge(registry: Registry, caps: seq<string>, root: Root, ranges: Ranges, picks: Picks, pkg: string, dep: string)
    requires Settled(registry, caps, root, ranges, picks)
    requires pkg in picks && pkg in registry && DistinctTexts(registry[pkg]) && dep in picks[pkg].needs.packages
    ensures dep in picks && RangeAdmits(picks[pkg].needs.packages[dep], picks[dep].version)
  {
    hide ParseVersion, IsPick, RangeAdmits, RequesterKey, Reaches, Eligible, DistinctTexts, Usable, Justified, Settled;
    SettledPick(registry, caps, root, ranges, picks, pkg);
    assert dep in picks && Has(ranges, dep, RequesterKey(pkg, picks[pkg]));
    SettledPick(registry, caps, root, ranges, picks, dep);
    SettledJustified(registry, caps, root, ranges, picks);
    RecordedText(registry, caps, root, ranges, pkg, picks[pkg], dep);
    assert RequesterKey(pkg, picks[pkg]) in AskedOf(ranges, dep);
  }

  lemma SettledJustified(registry: Registry, caps: seq<string>, root: Root, ranges: Ranges, picks: Picks)
    requires Settled(registry, caps, root, ranges, picks)
    ensures Justified(registry, caps, root, ranges) && root.package in picks
    ensures HasText(ranges, root.package, ROOT_REQUESTER, root.range)
  {
  }

  lemma SettledIsSound(registry: Registry, caps: seq<string>, root: Root, ranges: Ranges, picks: Picks)
    requires Settled(registry, caps, root, ranges, picks) && AllDistinct(registry)
    ensures SoundClosure(registry, caps, root, picks)
  {
    hide ParseVersion, IsPick, RangeAdmits, Offered, DistinctTexts, Usable, Settled, Followed;
    SettledJustified(registry, caps, root, ranges, picks);
    SettledPick(registry, caps, root, ranges, picks, root.package);
    assert ROOT_REQUESTER in AskedOf(ranges, root.package);
    forall pkg | pkg in picks ensures pkg in registry && picks[pkg] in registry[pkg] && Offered(picks[pkg], caps) {
      SettledPick(registry, caps, root, ranges, picks, pkg);
    }
    forall pkg, dep | pkg in picks && dep in picks[pkg].needs.packages
      ensures dep in picks && RangeAdmits(picks[pkg].needs.packages[dep], picks[dep].version)
    {
      SettledEdge(registry, caps, root, ranges, picks, pkg, dep);
    }
  }

  // ------------------------------------------------------- picks never rise

  ghost predicate PickedBefore(registry: Registry, caps: seq<string>, high: Ranges, pkg: string, rv: RegistryVersion) {
    && pkg in registry && exists mid :: Grows(mid, high) && IsPick(Usable(registry[pkg], caps), AskedOf(mid, pkg), rv)
  }

  ghost predicate PickedAfter(registry: Registry, caps: seq<string>, low: Ranges, pkg: string, rv: RegistryVersion) {
    && pkg in registry && exists mid :: Grows(low, mid) && IsPick(Usable(registry[pkg], caps), AskedOf(mid, pkg), rv)
  }

  ghost predicate NotAbove(a: RegistryVersion, b: RegistryVersion) {
    && ParseVersion(a.version).Some? && ParseVersion(b.version).Some?
    && !Compare(ParseVersion(a.version).value, ParseVersion(b.version).value).Greater?
  }

  /** No package rises from the earlier picks to the later ones. */
  ghost predicate NeverRises(earlier: Picks, later: Picks) {
    forall pkg :: pkg in earlier && pkg in later ==> NotAbove(later[pkg], earlier[pkg])
  }

  lemma MoreAskedNotHigher(us: seq<RegistryVersion>, fewer: Asked, more: Asked, a: RegistryVersion, b: RegistryVersion)
    requires IsPick(us, fewer, a) && IsPick(us, more, b)
    requires forall who :: who in fewer ==> who in more && more[who] == fewer[who]
    ensures NotAbove(b, a)
  {
    hide ParseVersion, Compare, RangeAdmits;
    var i: nat :| Leads(us, fewer, i) && us[i] == a;
    var j: nat :| Leads(us, more, j) && us[j] == b;
    assert Admitted(b, fewer) by {
      forall who | who in fewer ensures RangeAdmits(fewer[who], b.version) {
        assert RangeAdmits(more[who], b.version);
      }
    }
    assert Admitted(us[j], fewer);
  }

  lemma LaterNotAbove(registry: Registry, caps: seq<string>, between: Ranges, pkg: string, a: RegistryVersion, b: RegistryVersion)
    requires PickedBefore(registry, caps, between, pkg, a) && PickedAfter(registry, caps, between, pkg, b)
    ensures NotAbove(b, a)
  {
    hide IsPick, Usable, NotAbove;
    var m1 :| Grows(m1, between) && IsPick(Usable(registry[pkg], caps), AskedOf(m1, pkg), a);
    var m2 :| Grows(between, m2) && IsPick(Usable(registry[pkg], caps), AskedOf(m2, pkg), b);
    GrowsTransitive(m1, between, m2);
    forall who | who in AskedOf(m1, pkg) ensures who in AskedOf(m2, pkg) && AskedOf(m2, pkg)[who] == AskedOf(m1, pkg)[who] {
      assert Has(m1, pkg, who);
    }
    MoreAskedNotHigher(Usable(registry[pkg], caps), AskedOf(m1, pkg), AskedOf(m2, pkg), a, b);
  }

  lemma BeforeGrows(registry: Registry, caps: seq<string>, high: Ranges, high': Ranges, pkg: string, rv: RegistryVersion)
    requires PickedBefore(registry, caps, high, pkg, rv) && Grows(high, high')
    ensures PickedBefore(registry, caps, high', pkg, rv)
  {
    hide IsPick, Usable, Grows;
    var mid :| Grows(mid, high) && IsPick(Usable(registry[pkg], caps), AskedOf(mid, pkg), rv);
    GrowsTransitive(mid, high, high');
  }

  lemma WithinBoth(registry: Registry, caps: seq<string>, low: Ranges, high: Ranges, pkg: string, rv: RegistryVersion)
    requires PickedWithin(registry, caps, low, high, pkg, rv)
    ensures PickedBefore(registry, caps, high, pkg, rv) && PickedAfter(registry, caps, low, pkg, rv)
  {
  }

  /** The passes so far: none rose above an earlier one, all within the current ranges. */
  ghost predicate Falling(registry: Registry, caps: seq<string>, ranges: Ranges, passes: seq<Picks>) {
    && (forall i, pkg :: 0 <= i < |passes| && pkg in passes[i] ==> PickedBefore(registry, caps, ranges, pkg, passes[i][pkg]))
    && (forall i, j :: 0 <= i < j < |passes| ==> NeverRises(passes[i], passes[j]))
  }

  lemma FallingExtends(registry: Registry, caps: seq<string>, root: Root, start: Ranges, ranges: Ranges, passes: seq<Picks>, picks: Picks)
    requires Falling(registry, caps, start, passes)
    requires PassInvariant(registry, caps, root, start, ranges, picks, [])
    ensures Falling(registry, caps, ranges, passes + [picks])
  {
    hide PickedBefore, PickedAfter, NotAbove, PickedWithin, Grows, Justified, Followed, Reaches;
    var longer := passes + [picks];
    forall i, pkg | 0 <= i < |longer| && pkg in longer[i] ensures PickedBefore(registry, caps, ranges, pkg, longer[i][pkg]) {
      if i < |passes| {
        BeforeGrows(registry, caps, start, ranges, pkg, passes[i][pkg]);
      } else {
        WithinBoth(registry, caps, start, ranges, pkg, picks[pkg]);
      }
    }
    forall i | 0 <= i < |passes| ensures NeverRises(passes[i], picks) {
      forall pkg | pkg in passes[i] && pkg in picks ensures NotAbove(picks[pkg], passes[i][pkg]) {
        WithinBoth(registry, caps, start, ranges, pkg, picks[pkg]);
        LaterNotAbove(registry, caps, start, pkg, passes[i][pkg], picks[pkg]);
      }
    }
  }
}
