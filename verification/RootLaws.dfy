/** What each request about roots decides, what each journal entry changes, and why a request is refused. */
module RootLaws {
  import opened Prelude
  import opened RootBindings

  /** One path contains the other, or is it. */
  lemma OverlapMeans(a: Path, b: Path)
    ensures Overlap(a, b) <==> (|a| <= |b| && b[..|a|] == a) || (|b| <= |a| && a[..|b|] == b)
  {
  }

  ghost predicate Meets(a: Path, b: Path) { (|a| <= |b| && b[..|a|] == a) || (|b| <= |a| && a[..|b|] == b) }

  ghost predicate MeetsRoot(t: Tables, p: Path) { exists r :: r in t.roots && Meets(r, p) }

  ghost predicate MeetsContainer(t: Tables, p: Path) { exists c :: c in t.containers && Meets(c, p) }

  /** The checkout there now is the one that was bound. */
  ghost predicate Live(t: Tables, root: Path, disk: Disk) { root in t.bound && disk.Token? && disk.token == t.bound[root].incarnation }

  /** A checkout is there, or none, but not the bound one. */
  ghost predicate Swapped(t: Tables, root: Path, disk: Disk) { root in t.bound && !disk.Unverifiable? && !Live(t, root, disk) }

  /**
   * A root is bound to an identity that could be read or created. Bound to it
   * already, for its project, nothing is written; otherwise a new epoch
   * replaces the one it had.
   */
  lemma BindDecides(t: Tables, root: Path, token: Option<string>, epoch: string)
    ensures var d := DecideBind(t, root, token, epoch);
      && (d.Ok? <==> token.Some? && root in t.roots)
      && (d.Err? ==> d.error == if token.None? then IdentityUnverifiable else NotFound)
      && (d.Ok? ==>
            var same := root in t.bound && t.bound[root].incarnation == token.value && t.bound[root].project == t.roots[root];
            && (d.value.None? <==> same)
            && (!same ==> d.value.value == BindRoot(root, t.roots[root], token.value, epoch, if root in t.bound then Some(t.bound[root].epoch) else None)))
  {
  }

  /** Approval is given to, and taken from, the epoch that is live now; asked for twice it is written once. */
  lemma ApprovalDecides(t: Tables, root: Path, disk: Disk, approve: bool)
    ensures var d := DecideApproval(t, root, disk, approve);
      && (d.Ok? <==> Live(t, root, disk))
      && (d.Err? ==> d.error == if Swapped(t, root, disk) then RootReplaced else RootNotBound)
      && (d.Ok? ==>
            var epoch := t.bound[root].epoch;
            && (d.value.None? <==> (approve <==> epoch in t.approved))
            && (d.value.Some? ==> d.value.value == if approve then ApproveRoot(root, epoch) else UnapproveRoot(root, epoch)))
  {
  }

  /** A root is added to a known project exactly when it meets no other root and no container and the outside checks agree. */
  lemma AddDecides(t: Tables, projects: set<string>, root: Path, project: string, outside: Option<Refusal>)
    ensures var d := DecideAdd(t, projects, root, project, outside);
      && (project !in projects ==> d == Err(NotFound))
      && (project in projects && root in t.roots ==> d == if t.roots[root] == project then Ok(None) else Err(RootConflict))
      && (project in projects && root !in t.roots ==>
            d == if MeetsRoot(t, root) then Err(RootNested) else if MeetsContainer(t, root) then Err(RootOverlapsContainer)
                 else if outside.Some? then Err(outside.value) else Ok(Some(AddRoot(root, project))))
  {
    assert root !in t.roots ==> (NestedRoot(t, root) <==> MeetsRoot(t, root));
    assert OverlapsContainer(t, root) <==> MeetsContainer(t, root);
  }

  ghost predicate OnlyRoot(t: Tables, root: Path, project: string) { forall r :: r in t.roots && t.roots[r] == project ==> r == root }

  lemma OneRootLeft(t: Tables, root: Path, project: string)
    requires root in t.roots && t.roots[root] == project
    ensures |RootsOf(t, project)| <= 1 <==> OnlyRoot(t, root, project)
  {
    var all := RootsOf(t, project);
    assert {root} <= all;
    SubsetSize({root}, all);
    if OnlyRoot(t, root, project) {
      assert all <= {root};
      SubsetSize(all, {root});
    } else {
      var other :| other in t.roots && t.roots[other] == project && other != root;
      SubsetSize({root, other}, all);
    }
  }

  /** A root is removed from its own project, but not its last one unless identities are shared. */
  lemma RemoveDecides(t: Tables, root: Path, project: string, logEnabled: bool)
    ensures var d := DecideRemove(t, root, project, logEnabled);
      && (d.Ok? <==> root in t.roots && t.roots[root] == project && (logEnabled || !OnlyRoot(t, root, project)))
      && (d.Ok? ==> d.value == Some(RemoveRoot(root, project)))
      && (d.Err? ==> d.error == if root !in t.roots then NotFound else if t.roots[root] != project then RootConflict else LastRoot)
  {
    hide RootsOf;
    if root in t.roots && t.roots[root] == project { OneRootLeft(t, root, project); }
  }

  /** A project is removed when it is known, its successor is another known one, and no agent is in the way. */
  lemma RemoveProjectDecides(projects: set<string>, project: string, successor: Option<string>, outside: Option<Refusal>)
    ensures var d := DecideRemoveProject(projects, project, successor, outside);
      && (d.Ok? <==> project in projects && (successor.Some? ==> successor.value in projects && successor.value != project) && outside.None?)
      && (d.Ok? ==> d.value == Some(RemoveProject(project, successor)))
      && (d.Err? ==>
            d.error == if project in projects && (successor.Some? ==> successor.value in projects && successor.value != project) then outside.value
                       else NotFound)
  {
  }

  /**
   * A container is attached exactly to the project's own root, under its live,
   * approved epoch and checkout, where it meets no root and no container; the
   * very same attachment again is no change. Each refusal names the first
   * condition missed.
   */
  lemma AttachDecides(t: Tables, container: Path, project: string, root: Path, epoch: string, incarnation: string, disk: Disk)
    ensures var d := DecideAttach(t, container, project, root, epoch, incarnation, disk);
      var bound := Live(t, root, disk) && t.bound[root].epoch == epoch;
      if root !in t.roots then d == Err(RootNotRegistered)
      else if t.roots[root] != project then d == Err(RootConflict)
      else if epoch in t.retired then d == Err(BindingRetired)
      else if Swapped(t, root, disk) then d == Err(RootReplaced)
      else if !bound then d == Err(BindingStale)
      else if disk.token != incarnation then d == Err(IncarnationMismatch)
      else if epoch !in t.approved then d == Err(BindingUnapproved)
      else if container in t.containers then d == if t.containers[container] == Container(project, root, epoch) then Ok(None) else Err(ContainerForeign)
      else if MeetsContainer(t, container) || MeetsRoot(t, container) then d == Err(ContainerOverlaps)
      else d == Ok(Some(AttachParent(container, project, root, epoch)))
  {
    assert OverlapsContainer(t, container) <==> MeetsContainer(t, container);
    assert (exists r :: r in t.roots && Overlap(r, container)) <==> MeetsRoot(t, container);
  }

  // ----------------------------------------------------------- the entries

  /** A binding that ends is remembered under its epoch: where it was, for which checkout, why and when; its approval ends with it. */
  lemma RetireMeans(t: Tables, root: Path, reason: Reason, seqNo: nat)
    ensures var n := Retire(t, root, reason, seqNo);
      && n.roots == t.roots && n.containers == t.containers
      && (root !in t.bound ==> n == t)
      && (root in t.bound ==>
            var b := t.bound[root];
            && n.bound == t.bound - {root} && n.approved == t.approved - {b.epoch}
            && n.retired == t.retired[b.epoch := Retired(root, b.project, b.incarnation, reason, seqNo)])
  {
  }

  /** What a binding, an approval, an addition and an attachment write, and that they write nothing else. */
  lemma EntriesMean(t: Tables, seqNo: nat, root: Path, project: string, incarnation: string, epoch: string, container: Path)
    ensures Apply(t, seqNo, BindRoot(root, project, incarnation, epoch, None))
         == Tables(t.roots, t.bound[root := Bound(project, incarnation, epoch, seqNo)], t.approved, t.retired, t.containers)
    ensures Apply(t, seqNo, ApproveRoot(root, epoch))
         == Tables(t.roots, t.bound, if epoch in t.approved then t.approved else t.approved[epoch := seqNo], t.retired, t.containers)
    ensures Apply(t, seqNo, UnapproveRoot(root, epoch)) == Tables(t.roots, t.bound, t.approved - {epoch}, t.retired, t.containers)
    ensures Apply(t, seqNo, AddRoot(root, project)) == Tables(t.roots[root := project], t.bound, t.approved, t.retired, t.containers)
    ensures Apply(t, seqNo, AttachParent(container, project, root, epoch))
         == Tables(t.roots, t.bound, t.approved, t.retired, t.containers[container := Container(project, root, epoch)])
  {
  }

  /** A binding that replaces one retires that epoch as replaced first. */
  lemma ReplacingMeans(t: Tables, seqNo: nat, root: Path, project: string, incarnation: string, epoch: string)
    requires EpochsDisjoint(t) && root in t.bound
    ensures var (n, b) := (Apply(t, seqNo, BindRoot(root, project, incarnation, epoch, Some(t.bound[root].epoch))), t.bound[root]);
      && n.roots == t.roots && n.containers == t.containers && n.approved == t.approved - {b.epoch}
      && n.bound == t.bound[root := Bound(project, incarnation, epoch, seqNo)]
      && n.retired == t.retired[b.epoch := Retired(root, b.project, b.incarnation, Replaced, seqNo)]
  {
    hide EpochsDisjoint;
    RootOfBound(t, root);
  }

  /** A removed root takes its binding along, and every container under it; nothing of any other root changes. */
  lemma RemovingMeans(t: Tables, seqNo: nat, root: Path, project: string)
    ensures var n := Apply(t, seqNo, RemoveRoot(root, project));
      && n.roots == t.roots - {root} && n.bound == t.bound - {root}
      && (forall c :: c in n.containers <==> c in t.containers && t.containers[c].root != root)
      && (forall c :: c in n.containers ==> n.containers[c] == t.containers[c])
      && (root !in t.bound ==> n.approved == t.approved && n.retired == t.retired)
      && (root in t.bound ==>
            var b := t.bound[root];
            && n.approved == t.approved - {b.epoch}
            && n.retired == t.retired[b.epoch := Retired(root, b.project, b.incarnation, Removed, seqNo)])
  {
    assert root !in t.bound ==> t.bound - {root} == t.bound;
  }

  /** A removed project's roots and containers keep their places under the successor, or go; its bindings are retired as removed. */
  lemma RemovingProjectMeans(t: Tables, seqNo: nat, project: string, successor: Option<string>)
    requires EpochsDisjoint(t)
    ensures var n := Apply(t, seqNo, RemoveProject(project, successor));
      && (forall r :: r in n.roots <==> r in t.roots && (t.roots[r] == project ==> successor.Some?))
      && (forall r :: r in n.roots ==> n.roots[r] == if t.roots[r] == project then successor.value else t.roots[r])
      && (forall c :: c in n.containers <==> c in t.containers && (t.containers[c].project == project ==> successor.Some?))
      && (forall c :: c in n.containers ==>
            n.containers[c] == Container(if t.containers[c].project == project then successor.value else t.containers[c].project,
                                         t.containers[c].root, t.containers[c].epoch))
      && (forall r :: r in n.bound <==> r in t.bound && t.bound[r].project != project)
      && (forall r :: r in n.bound ==> n.bound[r] == t.bound[r])
      && (forall r :: r in t.bound && t.bound[r].project == project ==>
            && t.bound[r].epoch !in n.approved
            && t.bound[r].epoch in n.retired && n.retired[t.bound[r].epoch] == Retired(r, project, t.bound[r].incarnation, Removed, seqNo))
  {
    hide EpochsDisjoint;
    forall r | r in t.bound && t.bound[r].project == project
      ensures RootOf(t, t.bound[r].epoch) == Some(r) && t.bound[r].epoch in EpochsOf(t, BoundTo(t, project))
    {
      RootOfBound(t, r);
    }
  }
}
