/** The resolver's cycle search: an iterative depth-first search with exit markers. */
module Cycle {
  import opened Prelude
  import opened Text

  /** Each package with the packages it requires. */
  type Graph = map<string, set<string>>

  function Needs(g: Graph, u: string): set<string> {
    if u in g then g[u] else {}
  }

  ghost predicate Walk(g: Graph, w: seq<string>) {
    w != [] && forall i :: 0 <= i < |w| - 1 ==> w[i + 1] in Needs(g, w[i])
  }

  ghost predicate ClosedWalk(g: Graph, w: seq<string>) {
    Walk(g, w) && |w| >= 2 && w[0] == w[|w| - 1]
  }

  ghost predicate WalkBetween(g: Graph, u: string, v: string, w: seq<string>) {
    Walk(g, w) && w[0] == u && w[|w| - 1] == v
  }

  ghost predicate Reaches(g: Graph, u: string, v: string) {
    exists w :: WalkBetween(g, u, v, w)
  }

  lemma SubWalk(g: Graph, w: seq<string>, i: nat, j: nat)
    requires Walk(g, w) && i < j <= |w|
    ensures Walk(g, w[i..j])
  {
    forall k | 0 <= k < |w[i..j]| - 1 ensures w[i..j][k + 1] in Needs(g, w[i..j][k]) {
      assert w[i + k + 1] in Needs(g, w[i + k]);
    }
  }

  // ---------------------------------------------- ranks rule out closed walks

  /** Finished packages with their finishing numbers: requirements finish earlier. */
  ghost predicate Ranked(g: Graph, rank: map<string, nat>) {
    forall u :: u in rank ==> Needs(g, u) <= rank.Keys && forall v :: v in Needs(g, u) ==> rank[v] < rank[u]
  }

  lemma {:induction false} RankFalls(g: Graph, rank: map<string, nat>, w: seq<string>)
    requires Ranked(g, rank) && Walk(g, w) && w[0] in rank
    ensures w[|w| - 1] in rank
    ensures |w| >= 2 ==> rank[w[|w| - 1]] < rank[w[0]]
  {
    if |w| >= 2 {
      assert w[1] in Needs(g, w[0]);
      SubWalk(g, w, 1, |w|);
      RankFalls(g, rank, w[1..]);
    }
  }

  lemma RankedIsAcyclic(g: Graph, rank: map<string, nat>, root: string, w: seq<string>)
    requires Ranked(g, rank) && root in rank
    requires ClosedWalk(g, w)
    ensures !Reaches(g, root, w[0])
  {
    if Reaches(g, root, w[0]) {
      var p :| WalkBetween(g, root, w[0], p);
      RankFalls(g, rank, p);
      RankFalls(g, rank, w);
    }
  }

  // ---------------------------------------------------- the stack's structure

  function Elements(s: seq<string>): set<string> { set x | x in s }

  function Unvisited(names: seq<string>): (r: seq<(string, bool)>)
    ensures |r| == |names| && forall i :: 0 <= i < |r| ==> r[i] == (names[i], false)
  {
    seq(|names|, i requires 0 <= i < |names| => (names[i], false))
  }

  /**
   * The path with, for each element, its requirements still on the stack.
   * `Start` holds the root until it is popped.
   */
  datatype Trail = Start(base: seq<string>) | Visit(front: Trail, node: string, pending: seq<string>)
  {
    ghost function Path(): seq<string> {
      if Start? then [] else front.Path() + [node]
    }

    ghost function Stack(): seq<(string, bool)> {
      if Start? then Unvisited(base) else front.Stack() + [(node, true)] + Unvisited(pending)
    }

    /**
     * Each path element's requirements are finished, pending above it, or next
     * on the path; `next` plays that part for the last element.
     */
    ghost predicate Accounted(g: Graph, root: string, done: set<string>, next: set<string>) {
      match this
      case Start(base) => if base == [] then next <= {root} && root in done + next else base == [root] && next == {}
      case Visit(front, node, pending) =>
        && Elements(pending) + next <= Needs(g, node) <= done + Elements(pending) + next
        && node !in done && node !in front.Path()
        && front.Accounted(g, root, done, {node})
    }

    function Pop(): Trail {
      match this
      case Start(base) => Start(if base == [] then [] else base[..|base| - 1])
      case Visit(front, node, pending) => Visit(front, node, if pending == [] then [] else pending[..|pending| - 1])
    }
  }

  lemma {:induction false} TrailFacts(g: Graph, root: string, t: Trail, done: set<string>, next: set<string>)
    requires t.Accounted(g, root, done, next)
    ensures t.Visit? ==> Walk(g, t.Path()) && t.Path()[0] == root
    ensures Elements(t.Path()) !! done
    ensures forall i, j :: 0 <= i < j < |t.Path()| ==> t.Path()[i] != t.Path()[j]
  {
    if t.Visit? {
      TrailFacts(g, root, t.front, done, {t.node});
    }
  }

  /** Finishing a package that is next on the path keeps the rest accounted for. */
  lemma {:induction false} FinishNext(g: Graph, root: string, t: Trail, done: set<string>, next: set<string>, pkg: string)
    requires t.Accounted(g, root, done, next) && pkg !in t.Path()
    ensures t.Accounted(g, root, done + {pkg}, next - {pkg})
  {
    if t.Visit? {
      FinishNext(g, root, t.front, done, {t.node}, pkg);
      assert {t.node} - {pkg} == {t.node};
    }
  }

  lemma UnvisitedLast(names: seq<string>)
    requires names != []
    ensures Unvisited(names) == Unvisited(names[..|names| - 1]) + [(names[|names| - 1], false)]
  {
  }

  /** The element popped from the stack, and what the trail is without it. */
  lemma PopStack(t: Trail) returns (rest: seq<(string, bool)>, pkg: string, exit: bool)
    requires t.Stack() != []
    ensures t.Stack() == rest + [(pkg, exit)]
    ensures exit ==> t.Visit? && t.node == pkg && t.pending == [] && t.front.Stack() == rest
    ensures !exit ==> t.Pop().Stack() == rest && t.Pop().Path() == t.Path()
    ensures !exit ==> if t.Start? then t.base == t.Pop().base + [pkg] else t.pending == t.Pop().pending + [pkg]
  {
    match t
    case Start(base) =>
      UnvisitedLast(base);
      rest, pkg, exit := Unvisited(base[..|base| - 1]), base[|base| - 1], false;
    case Visit(front, node, pending) =>
      if pending == [] {
        rest, pkg, exit := front.Stack(), node, true;
        assert Unvisited(pending) == [];
      } else {
        UnvisitedLast(pending);
        var below := front.Stack() + [(node, true)];
        rest, pkg, exit := below + Unvisited(pending[..|pending| - 1]), pending[|pending| - 1], false;
      }
  }

  ghost function Universe(g: Graph, root: string): set<string> {
    {root} + (set u, v | u in g && v in g[u] :: v)
  }

  /** A popped name is the only thing the trail no longer accounts for. */
  lemma PopAccounted(g: Graph, root: string, t: Trail, done: set<string>, pkg: string)
    requires t.Accounted(g, root, done, {})
    requires if t.Start? then t.base == t.Pop().base + [pkg] else t.pending == t.Pop().pending + [pkg]
    ensures t.Pop().Accounted(g, root, done, {pkg})
    ensures pkg in Universe(g, root) && (t.Visit? ==> pkg in Needs(g, t.node))
    ensures pkg in done ==> t.Pop().Accounted(g, root, done, {})
  {
    if t.Visit? {
      assert Elements(t.pending) == Elements(t.Pop().pending) + {pkg};
    }
  }

  // ------------------------------------------------------------- the search

  function Position(path: seq<string>, pkg: string): (r: Option<nat>)
    ensures r.None? <==> pkg !in path
    ensures r.Some? ==> r.value < |path| && path[r.value] == pkg && pkg !in path[..r.value]
  {
    if path == [] then None
    else if path[0] == pkg then Some(0)
    else
      match Position(path[1..], pkg)
      case None => None
      case Some(i) =>
        assert path[..i + 1] == [path[0]] + path[1..][..i];
        Some(i + 1)
  }

  function Reversed(s: seq<string>): (r: seq<string>)
    ensures |r| == |s| && forall x :: x in r <==> x in s
  {
    if s == [] then [] else
    assert s == [s[0]] + s[1..];
    Reversed(s[1..]) + [s[0]]
  }

  /** A walk along the path, closed at its repeated package. */
  lemma CycleOnPath(g: Graph, path: seq<string>, i: nat, pkg: string)
    requires Walk(g, path) && i < |path| && path[i] == pkg
    requires pkg in Needs(g, path[|path| - 1])
    ensures ClosedWalk(g, path[i..] + [pkg]) && Reaches(g, path[0], pkg)
  {
    var w := path + [pkg];
    SubWalk(g, w, i, |w|);
    assert w[i..] == path[i..] + [pkg];
    SubWalk(g, path, 0, i + 1);
    assert WalkBetween(g, path[0], pkg, path[..i + 1]);
  }

  ghost predicate Finished(g: Graph, done: set<string>, rank: map<string, nat>) {
    rank.Keys == done && Ranked(g, rank) && forall u :: u in done ==> rank[u] < |done|
  }

  lemma FinishRank(g: Graph, done: set<string>, rank: map<string, nat>, pkg: string)
    requires Finished(g, done, rank) && pkg !in done && Needs(g, pkg) <= done
    ensures Finished(g, done + {pkg}, rank[pkg := |done|])
  {
  }

  lemma NothingReached(g: Graph, done: set<string>, rank: map<string, nat>, root: string)
    requires Finished(g, done, rank) && root in done
    ensures forall w :: ClosedWalk(g, w) ==> !Reaches(g, root, w[0])
  {
    forall w | ClosedWalk(g, w) ensures !Reaches(g, root, w[0]) {
      RankedIsAcyclic(g, rank, root, w);
    }
  }

  ghost predicate Searching(g: Graph, root: string, t: Trail, done: set<string>, rank: map<string, nat>) {
    && t.Accounted(g, root, done, {}) && Finished(g, done, rank)
    && done + Elements(t.Path()) <= Universe(g, root)
  }

  lemma PathElements(t: Trail)
    requires t.Visit?
    ensures Elements(t.Path()) == Elements(t.front.Path()) + {t.node}
  {
  }

  lemma FinishStep(g: Graph, root: string, t: Trail, done: set<string>, rank: map<string, nat>)
    requires Searching(g, root, t, done, rank) && t.Visit? && t.pending == []
    ensures Searching(g, root, t.front, done + {t.node}, rank[t.node := |done|])
    ensures done + {t.node} + Elements(t.front.Path()) == done + Elements(t.Path())
  {
    var used := done + Elements(t.Path());
    assert done + {t.node} + Elements(t.front.Path()) == used by { PathElements(t); }
    assert t.front.Accounted(g, root, done + {t.node}, {}) by { FinishTrail(g, root, t, done); }
    assert Finished(g, done + {t.node}, rank[t.node := |done|]) by {
      FinishTrail(g, root, t, done);
      FinishRank(g, done, rank, t.node);
    }
  }

  lemma FinishTrail(g: Graph, root: string, t: Trail, done: set<string>)
    requires t.Visit? && t.pending == [] && t.Accounted(g, root, done, {})
    ensures t.front.Accounted(g, root, done + {t.node}, {})
    ensures t.node !in done && Needs(g, t.node) <= done
  {
    FinishNext(g, root, t.front, done, {t.node}, t.node);
    assert {t.node} - {t.node} == {};
    assert Elements(t.pending) == {};
  }

  lemma Shrinks(all: set<string>, used: set<string>, pkg: string)
    requires pkg in all && pkg !in used
    ensures all - (used + {pkg}) < all - used
  {
    assert pkg in all - used;
  }

  lemma VisitStep(g: Graph, root: string, t: Trail, done: set<string>, rank: map<string, nat>, pkg: string, pending: seq<string>)
    requires t.Accounted(g, root, done, {pkg}) && Finished(g, done, rank) && pkg in Universe(g, root)
    requires done + Elements(t.Path()) <= Universe(g, root)
    requires pkg !in done && pkg !in t.Path() && forall v :: v in pending <==> v in Needs(g, pkg)
    ensures Searching(g, root, Visit(t, pkg, pending), done, rank)
    ensures Universe(g, root) - (done + Elements(t.Path() + [pkg])) < Universe(g, root) - (done + Elements(t.Path()))
  {
    var t' := Visit(t, pkg, pending);
    PathElements(t');
    var used := done + Elements(t.Path());
    Shrinks(Universe(g, root), used, pkg);
    assert done + Elements(t'.Path()) == used + {pkg};
    assert Elements(pending) == Needs(g, pkg);
    assert t'.Accounted(g, root, done, {});
  }

  /**
   * Reports a closed walk along requirement edges exactly when one can be
   * reached from `root`; terminates on every finite graph.
   */
  method FindCycle(root: string, g: Graph) returns (cycle: Option<seq<string>>)
    ensures cycle.Some? ==> ClosedWalk(g, cycle.value) && Reaches(g, root, cycle.value[0])
    ensures cycle.None? ==> forall w :: ClosedWalk(g, w) ==> !Reaches(g, root, w[0])
  {
    var stack := [(root, false)];
    var path: seq<string> := [];
    var done: set<string> := {};
    ghost var trail := Start([root]);
    ghost var rank: map<string, nat> := map[];
    while stack != []
      invariant stack == trail.Stack() && path == trail.Path()
      invariant Searching(g, root, trail, done, rank)
      decreases Universe(g, root) - (done + Elements(path)), |stack|
    {
      TrailFacts(g, root, trail, done, {});
      ghost var rest, top, marker := PopStack(trail);
      var (pkg, exit) := stack[|stack| - 1];
      stack := stack[..|stack| - 1];
      assert stack == rest && pkg == top && exit == marker;
      if exit {
        FinishStep(g, root, trail, done, rank);
        rank, trail := rank[pkg := |done|], trail.front;
        path := path[..|path| - 1];
        done := done + {pkg};
        continue;
      }
      PopAccounted(g, root, trail, done, pkg);
      trail := trail.Pop();
      var found := Position(path, pkg);
      if found.Some? {
        CycleOnPath(g, path, found.value, pkg);
        return Some(path[found.value..] + [pkg]);
      }
      if pkg in done {
        continue;
      }
      var pending := if pkg in g then Reversed(Sorted(g[pkg])) else [];
      VisitStep(g, root, trail, done, rank, pkg, pending);
      trail := Visit(trail, pkg, pending);
      path := path + [pkg];
      stack := stack + [(pkg, true)] + Unvisited(pending);
    }
    NothingReached(g, done, rank, root);
    return None;
  }
}
