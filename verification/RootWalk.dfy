/** Resolving a path by walking up from it. */
module RootWalk {
  import opened Prelude
  import opened Text
  import opened RootBindings

  /** A directory's own `.git`: none, a directory, or a worktree's pointer file. */
  datatype Git = NoGit | GitDir | GitFile

  /** What the walk looks up: a directory's own `.git`, the identity of the checkout there, and the text a path is stored as. */
  datatype Lookup = Lookup(git: Path -> Git, token: Path -> Option<string>, text: Path -> string)

  datatype Answer =
    | AtRoot(root: Path, itself: bool)
    | InWorktree(worktree: Path, container: Path)
    | InContainer(container: Path)
    | WorktreeOf(root: Path)
    | Elsewhere

  /** The walk stops at a registered root, or at a checkout of its own. */
  predicate Stops(t: Tables, git: Path -> Git, dir: Path) { dir in t.roots || git(dir) != NoGit }

  /** No directory on the way up from `query` to just below `query[..k]` stops the walk. */
  ghost predicate ClearAbove(t: Tables, git: Path -> Git, query: Path, k: nat)
    requires k <= |query|
  {
    forall j :: k < j <= |query| ==> !Stops(t, git, query[..j])
  }

  /** The container nearest to `dir` among those that contain it. */
  ghost predicate Nearest(t: Tables, dir: Path, c: Path) {
    c in t.containers && c <= dir && forall d :: d in t.containers && d <= dir ==> |d| <= |c|
  }

  predicate InAny(t: Tables, dir: Path) { exists c :: c in t.containers && c <= dir }

  /** `query[..k]` is the nearest directory up from the query with its own `.git`. */
  ghost predicate NearestCheckout(git: Path -> Git, query: Path, k: nat)
    requires k <= |query|
  {
    git(query[..k]) != NoGit && forall j :: k < j <= |query| ==> git(query[..j]) == NoGit
  }

  /** Another root's current binding carries this identity. */
  predicate Carries(t: Tables, checkout: Path, token: string, r: Path) {
    r in t.bound && r in t.roots && t.bound[r].project == t.roots[r] && t.bound[r].incarnation == token && r != checkout
  }

  /** The first such root by its text. */
  ghost predicate FirstCarrier(t: Tables, text: Path -> string, checkout: Path, token: string, r: Path) {
    Carries(t, checkout, token, r) && forall q :: Carries(t, checkout, token, q) ==> !TextBefore(text(q), text(r))
  }

  /** The nearest checkout's identity is that of another root's current binding. */
  ghost predicate Identifies(t: Tables, on: Lookup, query: Path, r: Path) {
    exists k: nat ::
      && k <= |query| && NearestCheckout(on.git, query, k)
      && on.token(query[..k]).Some? && FirstCarrier(t, on.text, query[..k], on.token(query[..k]).value, r)
  }

  ghost predicate NoneIdentified(t: Tables, on: Lookup, query: Path) {
    forall k: nat, r :: k <= |query| && NearestCheckout(on.git, query, k) && on.token(query[..k]).Some? ==>
      !Carries(t, query[..k], on.token(query[..k]).value, r)
  }

  /** What the walk answers, from the first stop on the way up or from the containers around the query. */
  ghost predicate Resolves(t: Tables, on: Lookup, query: Path, a: Answer) {
    match a
    case AtRoot(r, itself) => r in t.roots && r <= query && ClearAbove(t, on.git, query, |r|) && (itself <==> r == query)
    case InWorktree(w, c) =>
      && w <= query && w !in t.roots && on.git(w) == GitFile && ClearAbove(t, on.git, query, |w|) && Nearest(t, w, c)
    case InContainer(c) => NoRootOrWorktree(t, on.git, query) && Nearest(t, query, c)
    case WorktreeOf(r) => NoRootOrWorktree(t, on.git, query) && !InAny(t, query) && Identifies(t, on, query, r)
    case Elsewhere => NoRootOrWorktree(t, on.git, query) && !InAny(t, query) && NoneIdentified(t, on, query)
  }

  /** Nothing stops the walk, or its first stop is a checkout that is no root and no contained worktree. */
  ghost predicate NoRootOrWorktree(t: Tables, git: Path -> Git, query: Path) {
    forall k :: 0 <= k <= |query| && ClearAbove(t, git, query, k) && Stops(t, git, query[..k]) ==>
      query[..k] !in t.roots && (git(query[..k]) == GitFile ==> !InAny(t, query[..k]))
  }

  method FindNearest(t: Tables, dir: Path) returns (c: Option<Path>)
    ensures c.Some? ==> Nearest(t, dir, c.value)
    ensures c.None? ==> !InAny(t, dir)
  {
    c := None;
    var todo := t.containers.Keys;
    while todo != {}
      invariant todo <= t.containers.Keys
      invariant c.Some? ==> c.value in t.containers && c.value <= dir
      invariant forall d :: d in t.containers && d !in todo && d <= dir ==> c.Some? && |d| <= |c.value|
      decreases |todo|
    {
      var d :| d in todo;
      todo := todo - {d};
      var inside := PathPrefixOrEqual(d, dir);
      if inside && (c.None? || |c.value| < |d|) { c := Some(d); }
    }
  }

  method ResolveWalk(t: Tables, on: Lookup, query: Path) returns (a: Answer)
    ensures Resolves(t, on, query, a)
  {
    hide Nearest, Identifies, NoneIdentified;
    var dir: Option<nat> := Some(|query|);
    assert query[..|query|] == query;
    while dir.Some?
      invariant dir.Some? ==> dir.value <= |query| && ClearAbove(t, on.git, query, dir.value)
      invariant dir.None? ==> NoRootOrWorktree(t, on.git, query)
      decreases if dir.None? then 0 else dir.value + 1
    {
      var k := dir.value;
      var current := query[..k];
      if current in t.roots { return AtRoot(current, k == |query|); }
      if on.git(current) != NoGit {
        if on.git(current) == GitFile {
          var c := FindNearest(t, current);
          if c.Some? { return InWorktree(current, c.value); }
        }
        OneStop(t, on.git, query, k);
        break;
      }
      if k == 0 { NoStop(t, on.git, query); }
      dir := if k == 0 then None else Some(k - 1);
    }
    var c := FindNearest(t, query);
    if c.Some? { return InContainer(c.value); }
    var r := ReplyForWorktree(t, on, query);
    return if r.Some? then WorktreeOf(r.value) else Elsewhere;
  }

  /** Share a project's identity with an outside worktree of a root that is bound to this very repository now. */
  method ReplyForWorktree(t: Tables, on: Lookup, query: Path) returns (r: Option<Path>)
    ensures r.Some? ==> Identifies(t, on, query, r.value)
    ensures r.None? ==> NoneIdentified(t, on, query)
  {
    hide Carries, FirstCarrier;
    var dir: Option<nat> := Some(|query|);
    while dir.Some? && on.git(query[..dir.value]) == NoGit
      invariant dir.Some? ==> dir.value <= |query| && forall j :: dir.value < j <= |query| ==> on.git(query[..j]) == NoGit
      invariant dir.None? ==> forall j :: 0 <= j <= |query| ==> on.git(query[..j]) == NoGit
      decreases if dir.None? then 0 else dir.value + 1
    {
      dir := if dir.value == 0 then None else Some(dir.value - 1);
    }
    if dir.None? { return None; }
    assert NearestCheckout(on.git, query, dir.value);
    OneCheckout(on.git, query, dir.value);
    var checkout := query[..dir.value];
    if on.token(checkout).None? { return None; }
    r := FindCarrier(t, on.text, checkout, on.token(checkout).value);
  }

  lemma OneCheckout(git: Path -> Git, query: Path, k: nat)
    requires k <= |query| && NearestCheckout(git, query, k)
    ensures forall j: nat :: j <= |query| && NearestCheckout(git, query, j) ==> j == k
  {
  }

  method FindCarrier(t: Tables, text: Path -> string, checkout: Path, token: string) returns (r: Option<Path>)
    ensures r.Some? ==> FirstCarrier(t, text, checkout, token, r.value)
    ensures r.None? ==> forall q :: !Carries(t, checkout, token, q)
  {
    hide TextBefore;
    r := None;
    var todo := t.bound.Keys;
    while todo != {}
      invariant todo <= t.bound.Keys
      invariant r.Some? ==> Carries(t, checkout, token, r.value)
      invariant forall q :: Carries(t, checkout, token, q) && q !in todo ==> r.Some? && !TextBefore(text(q), text(r.value))
      decreases |todo|
    {
      var q :| q in todo;
      todo := todo - {q};
      if Carries(t, checkout, token, q) && (r.None? || TextBefore(text(q), text(r.value))) {
        if r.Some? { LowerBound(t, text, checkout, token, todo, q, r.value); }
        TextBeforeTotal(text(q), text(q));
        r := Some(q);
      }
    }
  }

  /** What is before nothing seen so far is not before something lower either. */
  lemma LowerBound(t: Tables, text: Path -> string, checkout: Path, token: string, todo: set<Path>, low: Path, high: Path)
    requires TextBefore(text(low), text(high))
    requires forall q :: Carries(t, checkout, token, q) && q !in todo && q != low ==> !TextBefore(text(q), text(high))
    ensures forall q :: Carries(t, checkout, token, q) && q !in todo && q != low ==> !TextBefore(text(q), text(low))
  {
    hide Carries;
    forall q | Carries(t, checkout, token, q) && q !in todo && q != low && TextBefore(text(q), text(low)) ensures false {
      CompareTextTransitive(text(q), text(low), text(high));
    }
  }

  /** The first stop on the way up is the only one. */
  lemma OneStop(t: Tables, git: Path -> Git, query: Path, k: nat)
    requires k <= |query| && ClearAbove(t, git, query, k) && query[..k] !in t.roots && git(query[..k]) != NoGit
    requires git(query[..k]) == GitFile ==> !InAny(t, query[..k])
    ensures NoRootOrWorktree(t, git, query)
  {
    hide InAny;
    forall j | 0 <= j <= |query| && ClearAbove(t, git, query, j) && Stops(t, git, query[..j]) ensures j == k {
      assert j < k ==> !Stops(t, git, query[..k]);
    }
  }

  lemma NoStop(t: Tables, git: Path -> Git, query: Path)
    requires ClearAbove(t, git, query, 0) && !Stops(t, git, query[..0])
    ensures NoRootOrWorktree(t, git, query)
  {
    hide InAny;
    forall j | 0 <= j <= |query| ensures !Stops(t, git, query[..j]) {
    }
  }

  /** Registered roots are told apart by the text they are stored as. */
  ghost predicate TextsDiffer(t: Tables, text: Path -> string) {
    forall p, q :: p in t.roots && q in t.roots && text(p) == text(q) ==> p == q
  }

  lemma IdentifiesOne(t: Tables, on: Lookup, query: Path, p: Path, q: Path)
    requires TextsDiffer(t, on.text) && Identifies(t, on, query, p)
    ensures Identifies(t, on, query, q) ==> p == q
    ensures !NoneIdentified(t, on, query)
  {
    hide TextBefore, NearestCheckout;
    var k: nat :| k <= |query| && NearestCheckout(on.git, query, k)
      && on.token(query[..k]).Some? && FirstCarrier(t, on.text, query[..k], on.token(query[..k]).value, p);
    OneCheckout(on.git, query, k);
    TextBeforeTotal(on.text(p), on.text(q));
  }

  /** The answer is determined: no two answers resolve the same query. */
  lemma ResolvesUniquely(t: Tables, on: Lookup, query: Path, a: Answer, b: Answer)
    requires Apart(t) && TextsDiffer(t, on.text) && Resolves(t, on, query, a) && Resolves(t, on, query, b)
    ensures a == b
  {
    hide Apart, TextsDiffer, Identifies, NoneIdentified;
    var git := on.git;
    if a.WorktreeOf? { IdentifiesOne(t, on, query, a.root, if b.WorktreeOf? then b.root else a.root); }
    if b.WorktreeOf? { IdentifiesOne(t, on, query, b.root, b.root); }
    var (p, q) := (StopOf(query, a), StopOf(query, b));
    if p.Some? { StopIsFirst(t, on, query, a); }
    if q.Some? { StopIsFirst(t, on, query, b); }
    if p.Some? && q.Some? {
      assert p.value == q.value by { SameStop(t, git, query, p.value, q.value); }
      SamePrefix(query, a);
      SamePrefix(query, b);
    }
    NearestUnique(t, query);
    if a.InWorktree? && b.InWorktree? { NearestUnique(t, a.worktree); }
  }

  function StopOf(query: Path, a: Answer): Option<nat> {
    match a
    case AtRoot(r, _) => Some(|r|)
    case InWorktree(w, _) => Some(|w|)
    case _ => None
  }

  lemma SamePrefix(query: Path, a: Answer)
    requires (a.AtRoot? ==> a.root <= query) && (a.InWorktree? ==> a.worktree <= query)
    ensures (a.AtRoot? ==> a.root == query[..|a.root|]) && (a.InWorktree? ==> a.worktree == query[..|a.worktree|])
  {
  }

  lemma StopIsFirst(t: Tables, on: Lookup, query: Path, a: Answer)
    requires Resolves(t, on, query, a) && StopOf(query, a).Some?
    ensures var k := StopOf(query, a).value;
      && k <= |query| && ClearAbove(t, on.git, query, k) && Stops(t, on.git, query[..k])
      && (query[..k] in t.roots || (on.git(query[..k]) == GitFile && InAny(t, query[..k])))
  {
    hide ClearAbove, Identifies, NoneIdentified;
    SamePrefix(query, a);
  }

  lemma SameStop(t: Tables, git: Path -> Git, query: Path, j: nat, k: nat)
    requires j <= |query| && k <= |query| && ClearAbove(t, git, query, j) && ClearAbove(t, git, query, k)
    requires Stops(t, git, query[..j]) && Stops(t, git, query[..k])
    ensures j == k
  {
    hide Stops;
    ClearAt(t, git, query, j, k);
    ClearAt(t, git, query, k, j);
  }

  lemma ClearAt(t: Tables, git: Path -> Git, query: Path, j: nat, k: nat)
    requires j <= |query| && k <= |query| && ClearAbove(t, git, query, j)
    ensures j < k ==> !Stops(t, git, query[..k])
  {
  }

  lemma NearestUnique(t: Tables, dir: Path)
    ensures forall c, d :: Nearest(t, dir, c) && Nearest(t, dir, d) ==> c == d
  {
    forall c, d | Nearest(t, dir, c) && Nearest(t, dir, d) ensures c == d {
      assert c == dir[..|c|] && d == dir[..|d|];
    }
  }

  /** Two registered directories above the same path would overlap. */
  lemma PrefixesOverlap(a: Path, b: Path, query: Path)
    requires a <= query && b <= query
    ensures Overlap(a, b)
  {
    assert a == query[..|a|] && b == query[..|b|];
  }

  /** No directory strictly below `r` on the way to `query` has its own `.git`. */
  ghost predicate NoCheckoutBelow(git: Path -> Git, r: Path, query: Path) {
    forall j :: |r| < j <= |query| ==> git(query[..j]) == NoGit
  }

  /**
   * The walk answers root `r` exactly when `r` is a registered ancestor of the
   * query or the query itself, the only one there is, and no checkout of its
   * own lies between them.
   */
  lemma RootAnswerMeans(t: Tables, on: Lookup, query: Path, a: Answer, r: Path)
    requires Apart(t) && TextsDiffer(t, on.text) && Resolves(t, on, query, a)
    ensures a == AtRoot(r, r == query) <==> r in t.roots && r <= query && NoCheckoutBelow(on.git, r, query)
    ensures r in t.roots && r <= query ==> forall p :: p in t.roots && p <= query ==> p == r
  {
    hide Apart, TextsDiffer, Identifies, NoneIdentified;
    forall p, q | p in t.roots && q in t.roots && p <= query && q <= query ensures p == q {
      PrefixesOverlap(p, q, query);
      RootsApart(t, p, q);
    }
    if r in t.roots && r <= query && NoCheckoutBelow(on.git, r, query) {
      forall j | |r| < j <= |query| ensures !Stops(t, on.git, query[..j]) {
        assert query[..j] <= query;
      }
      ResolvesUniquely(t, on, query, a, AtRoot(r, r == query));
    }
  }

  lemma RootsApart(t: Tables, p: Path, q: Path)
    requires Apart(t) && p in t.roots && q in t.roots && Overlap(p, q)
    ensures p == q
  {
  }

  lemma {:induction false} NoRootDownTo(t: Tables, on: Lookup, query: Path, k: nat, j: nat)
    requires k <= j <= |query| && NearestCheckout(on.git, query, k) && NoRootOrWorktree(t, on.git, query)
    ensures forall i :: j <= i <= |query| ==> query[..i] !in t.roots
    decreases |query| - j
  {
    hide InAny;
    if j < |query| { NoRootDownTo(t, on, query, k, j + 1); }
    assert ClearAbove(t, on.git, query, j);
  }

  /**
   * A checkout outside every root is answered as a worktree of root `r` only
   * while `r`'s current binding carries the identity found there; no root lies
   * on the way up to it, and it is not `r` itself. With no such binding left
   * the answer is never that of a worktree.
   */
  lemma WorktreeAnswer(t: Tables, on: Lookup, query: Path, a: Answer)
    requires Resolves(t, on, query, a)
    ensures a.WorktreeOf? ==> exists k: nat ::
      && k <= |query| && NearestCheckout(on.git, query, k) && (forall j :: k <= j <= |query| ==> query[..j] !in t.roots)
      && a.root in t.roots && a.root in t.bound && a.root != query[..k] && on.token(query[..k]) == Some(t.bound[a.root].incarnation)
    ensures a.WorktreeOf? || a.Elsewhere? ==>
      (a.WorktreeOf? <==> exists k: nat, r :: k <= |query| && NearestCheckout(on.git, query, k)
                            && on.token(query[..k]).Some? && Carries(t, query[..k], on.token(query[..k]).value, r))
  {
    hide NoRootOrWorktree, TextBefore, NearestCheckout;
    if a.WorktreeOf? {
      var k: nat :| k <= |query| && NearestCheckout(on.git, query, k)
        && on.token(query[..k]).Some? && FirstCarrier(t, on.text, query[..k], on.token(query[..k]).value, a.root);
      NoRootDownTo(t, on, query, k, k);
    }
  }

  /** Inside a worker container the answer is that container's: never a root, never another container. */
  lemma ContainerAnswer(t: Tables, on: Lookup, query: Path, a: Answer, c: Path)
    requires Apart(t) && Resolves(t, on, query, a) && c in t.containers && c <= query
    ensures a == InContainer(c) || (a.InWorktree? && a.container == c && c <= a.worktree)
  {
    hide ClearAbove, NoRootOrWorktree, Identifies, NoneIdentified;
    forall p | (p in t.roots || p in t.containers) && p <= query ensures p == c {
      PrefixesOverlap(p, c, query);
    }
    if a.InWorktree? {
      assert a.container <= query;
    }
  }

  /** A linked worktree at `w`: no root, no checkout and no root between it and the query. */
  ghost predicate WorktreeAbove(t: Tables, git: Path -> Git, query: Path, w: Path) {
    && w <= query && w !in t.roots && git(w) == GitFile
    && forall j :: |w| < j <= |query| ==> query[..j] !in t.roots && git(query[..j]) == NoGit
  }

  /**
   * Inside a container the answer is the nearest linked worktree of it, exactly
   * when there is one between the container and the query with nothing below
   * it; otherwise the container alone.
   */
  lemma ContainerWorktreeMeans(t: Tables, on: Lookup, query: Path, a: Answer, c: Path)
    requires Apart(t) && TextsDiffer(t, on.text) && Resolves(t, on, query, a) && c in t.containers
    ensures forall w :: a == InWorktree(w, c) <==> c <= w && WorktreeAbove(t, on.git, query, w)
    ensures a == InContainer(c) <==> c <= query && !exists w :: c <= w && WorktreeAbove(t, on.git, query, w)
  {
    hide Apart, TextsDiffer, Identifies, NoneIdentified;
    forall w ensures a == InWorktree(w, c) <==> c <= w && WorktreeAbove(t, on.git, query, w) {
      if a == InWorktree(w, c) {
        ClearIsApart(t, on.git, query, w);
      } else if c <= w && WorktreeAbove(t, on.git, query, w) {
        ClearIsApart(t, on.git, query, w);
        ContainersNearest(t, w, c);
        ResolvesUniquely(t, on, query, a, InWorktree(w, c));
      }
    }
    if c <= query { ContainerAnswer(t, on, query, a, c); }
  }

  lemma ClearIsApart(t: Tables, git: Path -> Git, query: Path, w: Path)
    requires w <= query
    ensures ClearAbove(t, git, query, |w|) <==> forall j :: |w| < j <= |query| ==> query[..j] !in t.roots && git(query[..j]) == NoGit
  {
    if ClearAbove(t, git, query, |w|) {
      forall j | |w| < j <= |query| ensures query[..j] !in t.roots && git(query[..j]) == NoGit {
        assert !Stops(t, git, query[..j]);
      }
    }
  }

  /** Only one container can hold a directory. */
  lemma ContainersNearest(t: Tables, dir: Path, c: Path)
    requires Apart(t) && c in t.containers && c <= dir
    ensures Nearest(t, dir, c)
  {
    hide Apart;
    forall d | d in t.containers && d <= dir ensures d == c {
      PrefixesOverlap(d, c, dir);
      ContainersApart(t, d, c);
    }
  }

  lemma ContainersApart(t: Tables, c: Path, d: Path)
    requires Apart(t) && c in t.containers && d in t.containers && Overlap(c, d)
    ensures c == d
  {
  }

  /** Root `r` is bound now, for its own project, to the identity `token`, and is not `checkout` itself. */
  ghost predicate BoundElsewhere(t: Tables, checkout: Path, token: Option<string>, r: Path) {
    r in t.roots && r in t.bound && r != checkout && token == Some(t.bound[r].incarnation) && t.roots[r] == t.bound[r].project
  }

  /** `query[..k]` has a `.git` and nothing below it on the way to the query has. */
  ghost predicate FirstGit(git: Path -> Git, query: Path, k: nat) {
    k <= |query| && !git(query[..k]).NoGit? && forall j :: k < j <= |query| ==> git(query[..j]).NoGit?
  }

  /**
   * Outside every root and container the answer is a root exactly when the
   * nearest checkout's identity is bound at another root now: then it is such
   * a root, and the first of them by its text.
   */
  lemma OutsideMeans(t: Tables, on: Lookup, query: Path, a: Answer, k: nat)
    requires Resolves(t, on, query, a) && (a.WorktreeOf? || a.Elsewhere?) && FirstGit(on.git, query, k)
    ensures a.WorktreeOf? <==> exists r :: BoundElsewhere(t, query[..k], on.token(query[..k]), r)
    ensures a.WorktreeOf? ==> BoundElsewhere(t, query[..k], on.token(query[..k]), a.root)
    ensures a.WorktreeOf? ==> forall r :: BoundElsewhere(t, query[..k], on.token(query[..k]), r) ==> !TextBefore(on.text(r), on.text(a.root))
  {
    hide NoRootOrWorktree, TextBefore;
    assert NearestCheckout(on.git, query, k);
    OneCheckout(on.git, query, k);
    forall r ensures BoundElsewhere(t, query[..k], on.token(query[..k]), r) <==>
        on.token(query[..k]).Some? && Carries(t, query[..k], on.token(query[..k]).value, r)
    {
    }
  }

  /** With no checkout on the way up there is nothing to share an identity with. */
  lemma WorktreeHasGit(t: Tables, on: Lookup, query: Path, a: Answer)
    requires Resolves(t, on, query, a) && a.WorktreeOf?
    ensures exists k: nat :: FirstGit(on.git, query, k)
  {
    hide NoRootOrWorktree, TextBefore;
    var k: nat :| k <= |query| && NearestCheckout(on.git, query, k);
    assert FirstGit(on.git, query, k);
  }
}
