/** Registered roots, their bindings to checkouts on disk, and the journal that rebuilds them. */
module RootBindings {
  import opened Prelude

  /** A canonical path by its components, the filesystem root first. */
  type Path = seq<string>

  /** The loop over two component iterators: `parent` contains or equals `query`. */
  method PathPrefixOrEqual(parent: Path, query: Path) returns (r: bool)
    ensures r <==> parent <= query
  {
    var i := 0;
    while i < |parent|
      invariant i <= |parent| && i <= |query| && parent[..i] == query[..i]
    {
      if i >= |query| || parent[i] != query[i] { return false; }
      i := i + 1;
    }
    return true;
  }

  predicate Overlap(a: Path, b: Path) { a <= b || b <= a }

  datatype Reason = Replaced | Removed

  datatype Bound = Bound(project: string, incarnation: string, epoch: string, seqNo: nat)

  datatype Retired = Retired(root: Path, project: string, incarnation: string, reason: Reason, seqNo: nat)

  datatype Container = Container(project: string, root: Path, epoch: string)

  datatype Tables = Tables(
    roots: map<Path, string>, bound: map<Path, Bound>, approved: map<string, nat>, retired: map<string, Retired>,
    containers: map<Path, Container>)

  const EMPTY := Tables(map[], map[], map[], map[], map[])

  /** A journal entry's payload: enough to apply it again without the disk. */
  datatype Op =
    | BindRoot(root: Path, project: string, incarnation: string, epoch: string, replaced: Option<string>)
    | ApproveRoot(root: Path, epoch: string)
    | UnapproveRoot(root: Path, epoch: string)
    | AddRoot(root: Path, project: string)
    | RemoveRoot(root: Path, project: string)
    | RemoveProject(project: string, successor: Option<string>)
    | AttachParent(container: Path, project: string, root: Path, epoch: string)

  /** What the disk says of a checkout. */
  datatype Disk = Token(token: string) | NoToken | Unverifiable

  datatype Refusal =
    | IdentityUnverifiable | NotFound | RootReplaced | RootNotBound | RootConflict | RootNested | RootOverlapsContainer | OutsideCheck
    | LastRoot | RootNotRegistered | BindingRetired | BindingStale | IncarnationMismatch | BindingUnapproved | ContainerForeign
    | ContainerOverlaps

  // ----------------------------------------------------------------- replay

  ghost function RootOf(t: Tables, epoch: string): (r: Option<Path>)
    ensures r.Some? ==> r.value in t.bound && t.bound[r.value].epoch == epoch
    ensures r.None? ==> forall q :: q in t.bound ==> t.bound[q].epoch != epoch
  {
    if exists q :: q in t.bound && t.bound[q].epoch == epoch then var q :| q in t.bound && t.bound[q].epoch == epoch; Some(q) else None
  }

  /** Retire a root's binding, and its approval with it. */
  function Retire(t: Tables, root: Path, reason: Reason, seqNo: nat): Tables {
    if root !in t.bound then t
    else
      var b := t.bound[root];
      t.(bound := t.bound - {root}, approved := t.approved - {b.epoch},
         retired := t.retired[b.epoch := Retired(root, b.project, b.incarnation, reason, seqNo)])
  }

  ghost function EpochsOf(t: Tables, gone: set<Path>): set<string> { set r | r in gone && r in t.bound :: t.bound[r].epoch }

  ghost function RetiredAt(t: Tables, epoch: string, seqNo: nat): Retired
    requires RootOf(t, epoch).Some?
  {
    var r := RootOf(t, epoch).value;
    Retired(r, t.bound[r].project, t.bound[r].incarnation, Removed, seqNo)
  }

  /** Retire the bindings of all these roots at once, and their approvals with them. */
  ghost function RetireAll(t: Tables, gone: set<Path>, seqNo: nat): Tables {
    var epochs := EpochsOf(t, gone);
    t.(bound := t.bound - gone, approved := t.approved - epochs,
       retired := t.retired + map e | e in epochs :: RetiredAt(t, e, seqNo))
  }

  function RootsOf(t: Tables, project: string): set<Path> { set r | r in t.roots && t.roots[r] == project }

  function BoundTo(t: Tables, project: string): set<Path> { set r | r in t.bound && t.bound[r].project == project }

  /** What was the project's goes to its successor, or goes with it. */
  function Inherited(roots: map<Path, string>, project: string, successor: Option<string>): map<Path, string> {
    map r | r in roots && (roots[r] != project || successor.Some?) :: if roots[r] == project then successor.value else roots[r]
  }

  function InheritedContainers(containers: map<Path, Container>, project: string, successor: Option<string>): map<Path, Container> {
    map c | c in containers && (containers[c].project != project || successor.Some?) ::
      if containers[c].project == project then containers[c].(project := successor.value) else containers[c]
  }

  /** Apply one journal entry. Nothing here asks the disk. */
  ghost function Apply(t: Tables, seqNo: nat, op: Op): Tables {
    match op
    case BindRoot(root, project, incarnation, epoch, replaced) => (
      var cleared :=
        match replaced
        case None => t
        case Some(before) => match RootOf(t, before) case None => t case Some(r) => Retire(t, r, Replaced, seqNo);
      cleared.(bound := cleared.bound[root := Bound(project, incarnation, epoch, seqNo)]))
    case ApproveRoot(_, epoch) => if epoch in t.approved then t else t.(approved := t.approved[epoch := seqNo])
    case UnapproveRoot(_, epoch) => t.(approved := t.approved - {epoch})
    case AddRoot(root, project) => t.(roots := t.roots[root := project])
    case RemoveRoot(root, _) =>
      var cleared := Retire(t, root, Removed, seqNo);
      cleared.(containers := Detached(t.containers, root), roots := t.roots - {root})
    case RemoveProject(project, successor) =>
      var cleared := RetireAll(t, BoundTo(t, project), seqNo);
      cleared.(roots := Inherited(t.roots, project, successor), containers := InheritedContainers(t.containers, project, successor))
    case AttachParent(container, project, root, epoch) => t.(containers := t.containers[container := Container(project, root, epoch)])
  }

  /** Removing a root revokes every container attached under it. */
  function Detached(containers: map<Path, Container>, root: Path): map<Path, Container> {
    map c | c in containers && containers[c].root != root :: containers[c]
  }

  /** The journal replayed from nothing; entry `i` has sequence number `i + 1`. */
  ghost function Replay(journal: seq<Op>): Tables {
    if journal == [] then EMPTY else Apply(Replay(journal[..|journal| - 1]), |journal|, journal[|journal| - 1])
  }

  // ------------------------------------------------------- what each request does

  type Decision = Result<Option<Op>, Refusal>

  /** Bind a registered root to the checkout there: `token` is its identity, if it could be read or created. */
  function DecideBind(t: Tables, root: Path, token: Option<string>, epoch: string): Decision {
    if token.None? then Err(IdentityUnverifiable)
    else if root !in t.roots then Err(NotFound)
    else if root in t.bound && t.bound[root].incarnation == token.value && t.bound[root].project == t.roots[root] then Ok(None)
    else Ok(Some(BindRoot(root, t.roots[root], token.value, epoch, if root in t.bound then Some(t.bound[root].epoch) else None)))
  }

  /** The epoch a root answers with: only while the checkout on disk is the bound one. */
  function LiveEpoch(t: Tables, root: Path, disk: Disk): Option<string> {
    if root in t.bound && disk == Token(t.bound[root].incarnation) then Some(t.bound[root].epoch) else None
  }

  predicate ReplacedOnDisk(t: Tables, root: Path, disk: Disk) {
    root in t.bound && disk != Unverifiable && disk != Token(t.bound[root].incarnation)
  }

  function DecideApproval(t: Tables, root: Path, disk: Disk, approve: bool): Decision {
    match LiveEpoch(t, root, disk)
    case None => Err(if ReplacedOnDisk(t, root, disk) then RootReplaced else RootNotBound)
    case Some(epoch) =>
      if (epoch in t.approved) == approve then Ok(None)
      else if approve then Ok(Some(ApproveRoot(root, epoch))) else Ok(Some(UnapproveRoot(root, epoch)))
  }

  predicate NestedRoot(t: Tables, root: Path) { exists r :: r in t.roots && r != root && Overlap(r, root) }

  predicate OverlapsContainer(t: Tables, p: Path) { exists c :: c in t.containers && Overlap(c, p) }

  /** `outside` is a refusal of the checks on repositories and root keys, which are not modelled. */
  function DecideAdd(t: Tables, projects: set<string>, root: Path, project: string, outside: Option<Refusal>): Decision {
    if project !in projects then Err(NotFound)
    else if root in t.roots then if t.roots[root] == project then Ok(None) else Err(RootConflict)
    else if NestedRoot(t, root) then Err(RootNested)
    else if OverlapsContainer(t, root) then Err(RootOverlapsContainer)
    else if outside.Some? then Err(outside.value)
    else Ok(Some(AddRoot(root, project)))
  }

  function DecideRemove(t: Tables, root: Path, project: string, logEnabled: bool): Decision {
    if root !in t.roots then Err(NotFound)
    else if t.roots[root] != project then Err(RootConflict)
    else if |RootsOf(t, project)| <= 1 && !logEnabled then Err(LastRoot)
    else Ok(Some(RemoveRoot(root, project)))
  }

  /** `outside` is a refusal because agents are bound to the project, which is not modelled. */
  function DecideRemoveProject(projects: set<string>, project: string, successor: Option<string>, outside: Option<Refusal>): Decision {
    if project !in projects then Err(NotFound)
    else if successor.Some? && (successor.value == project || successor.value !in projects) then Err(NotFound)
    else if outside.Some? then Err(outside.value)
    else Ok(Some(RemoveProject(project, successor)))
  }

  function DecideAttach(t: Tables, container: Path, project: string, root: Path, epoch: string, incarnation: string, disk: Disk): Decision {
    if root !in t.roots then Err(RootNotRegistered)
    else if t.roots[root] != project then Err(RootConflict)
    else if epoch in t.retired then Err(BindingRetired)
    else if ReplacedOnDisk(t, root, disk) then Err(RootReplaced)
    else if LiveEpoch(t, root, disk) != Some(epoch) then Err(BindingStale)
    else if t.bound[root].incarnation != incarnation then Err(IncarnationMismatch)
    else if epoch !in t.approved then Err(BindingUnapproved)
    else if container in t.containers then
      if t.containers[container] == Container(project, root, epoch) then Ok(None) else Err(ContainerForeign)
    else if OverlapsContainer(t, container) then Err(ContainerOverlaps)
    else if exists r :: r in t.roots && Overlap(r, container) then Err(ContainerOverlaps)
    else Ok(Some(AttachParent(container, project, root, epoch)))
  }

  // ------------------------------------------------------------- invariants

  /** Active epochs are distinct and never retired, and approvals name active ones. */
  ghost predicate EpochsDisjoint(t: Tables) {
    && (forall p, q :: p in t.bound && q in t.bound && p != q ==> t.bound[p].epoch != t.bound[q].epoch)
    && (forall p :: p in t.bound ==> t.bound[p].epoch !in t.retired)
    && (forall e :: e in t.approved ==> exists p :: p in t.bound && t.bound[p].epoch == e)
  }

  /** Registered roots and worker containers lie apart: no one contains another. */
  ghost predicate Apart(t: Tables) {
    && (forall p, q :: p in t.roots && q in t.roots && p != q ==> !Overlap(p, q))
    && (forall c, d :: c in t.containers && d in t.containers && c != d ==> !Overlap(c, d))
    && (forall p, c :: p in t.roots && c in t.containers ==> !Overlap(p, c))
  }

  /** Bindings and containers belong to registered roots, and to the projects of those roots. */
  ghost predicate Anchored(t: Tables) {
    && (forall r :: r in t.bound ==> r in t.roots && t.bound[r].project == t.roots[r])
    && (forall c :: c in t.containers ==> t.containers[c].root in t.roots && t.containers[c].project == t.roots[t.containers[c].root])
  }

  ghost predicate Inv(t: Tables) { EpochsDisjoint(t) && Apart(t) && Anchored(t) }

  /** A new epoch is drawn at random and has not been used. */
  ghost predicate Fresh(t: Tables, epoch: string) {
    epoch !in t.retired && forall p :: p in t.bound ==> t.bound[p].epoch != epoch
  }

  lemma SameApart(a: Tables, b: Tables)
    requires Apart(a) && b.roots == a.roots && b.containers == a.containers
    ensures Apart(b)
  {
  }

  lemma SameEpochs(a: Tables, b: Tables)
    requires EpochsDisjoint(a) && b.bound == a.bound && b.retired == a.retired && b.approved == a.approved
    ensures EpochsDisjoint(b)
  {
  }

  lemma RetireEpochs(t: Tables, root: Path, reason: Reason, seqNo: nat)
    requires EpochsDisjoint(t)
    ensures EpochsDisjoint(Retire(t, root, reason, seqNo))
  {
    var n := Retire(t, root, reason, seqNo);
    forall e | e in n.approved ensures exists p :: p in n.bound && n.bound[p].epoch == e {
      var p :| p in t.bound && t.bound[p].epoch == e;
      assert p in n.bound;
    }
  }

  lemma RetireKeeps(t: Tables, root: Path, reason: Reason, seqNo: nat)
    requires Inv(t)
    ensures var n := Retire(t, root, reason, seqNo);
      && Inv(n) && n.bound == t.bound - {root} && n.roots == t.roots && n.containers == t.containers
      && (root in t.bound ==> t.bound[root].epoch in n.retired && t.bound[root].epoch !in n.approved)
      && (forall e :: e in t.retired ==> e in n.retired && n.retired[e] == t.retired[e])
      && (forall e :: Fresh(t, e) ==> Fresh(n, e))
  {
    RetireEpochs(t, root, reason, seqNo);
    SameApart(t, Retire(t, root, reason, seqNo));
    hide Apart, EpochsDisjoint;
    var n := Retire(t, root, reason, seqNo);
    assert root !in t.bound ==> t.bound - {root} == t.bound;
    assert forall e :: e in t.retired ==> e in n.retired && n.retired[e] == t.retired[e] by { OldRetired(t, root); }
  }

  lemma OldRetired(t: Tables, root: Path)
    requires EpochsDisjoint(t)
    ensures root in t.bound ==> t.bound[root].epoch !in t.retired
  {
  }

  lemma RootOfBound(t: Tables, root: Path)
    requires EpochsDisjoint(t) && root in t.bound
    ensures RootOf(t, t.bound[root].epoch) == Some(root)
  {
  }

  lemma BindFresh(t: Tables, root: Path, b: Bound)
    requires EpochsDisjoint(t) && root !in t.bound && Fresh(t, b.epoch)
    ensures EpochsDisjoint(t.(bound := t.bound[root := b])) && b.epoch !in t.approved
  {
    var n := t.(bound := t.bound[root := b]);
    forall e | e in t.approved ensures exists p :: p in n.bound && n.bound[p].epoch == e {
      var p :| p in t.bound && t.bound[p].epoch == e;
      assert n.bound[p].epoch == e;
    }
  }

  lemma BindKeeps(t: Tables, root: Path, token: Option<string>, epoch: string, seqNo: nat)
    requires Inv(t) && Fresh(t, epoch)
    requires DecideBind(t, root, token, epoch).Ok? && DecideBind(t, root, token, epoch).value.Some?
    ensures var n := Apply(t, seqNo, DecideBind(t, root, token, epoch).value.value);
      && Inv(n) && n.bound.Keys == t.bound.Keys + {root} && n.bound[root] == Bound(t.roots[root], token.value, epoch, seqNo)
      && (root in t.bound ==> t.bound[root].epoch in n.retired && t.bound[root].epoch !in n.approved)
      && epoch !in n.approved && t.retired.Keys <= n.retired.Keys
      && (forall r :: r in t.bound && r != root ==> n.bound[r] == t.bound[r])
  {
    hide Apart, Overlap, Retire, EpochsDisjoint, Fresh;
    RetireKeeps(t, root, Replaced, seqNo);
    if root in t.bound { RootOfBound(t, root); }
    SameApart(t, Apply(t, seqNo, DecideBind(t, root, token, epoch).value.value));
    var cleared := if root in t.bound then Retire(t, root, Replaced, seqNo) else t;
    BindFresh(cleared, root, Bound(t.roots[root], token.value, epoch, seqNo));
  }

  lemma ApprovalKeeps(t: Tables, root: Path, disk: Disk, approve: bool, seqNo: nat)
    requires Inv(t) && DecideApproval(t, root, disk, approve).Ok? && DecideApproval(t, root, disk, approve).value.Some?
    ensures var n := Apply(t, seqNo, DecideApproval(t, root, disk, approve).value.value);
      && Inv(n) && n.bound == t.bound && n.retired == t.retired && (t.bound[root].epoch in n.approved <==> approve)
      && (forall e :: e != t.bound[root].epoch ==> (e in n.approved <==> e in t.approved))
  {
    hide Apart;
    SameApart(t, Apply(t, seqNo, DecideApproval(t, root, disk, approve).value.value));
  }

  lemma AddKeeps(t: Tables, projects: set<string>, root: Path, project: string, outside: Option<Refusal>, seqNo: nat)
    requires Inv(t) && DecideAdd(t, projects, root, project, outside) == Ok(Some(AddRoot(root, project)))
    ensures Inv(Apply(t, seqNo, AddRoot(root, project))) && root !in t.bound
  {
    hide EpochsDisjoint;
    SameEpochs(t, Apply(t, seqNo, AddRoot(root, project)));
  }

  lemma RemoveKeeps(t: Tables, root: Path, project: string, seqNo: nat)
    requires Inv(t)
    ensures var n := Apply(t, seqNo, RemoveRoot(root, project));
      && Inv(n) && root !in n.roots && root !in n.bound
      && (forall c :: c in n.containers ==> n.containers[c].root != root)
      && (root in t.bound ==> t.bound[root].epoch in n.retired && t.bound[root].epoch !in n.approved)
      && t.retired.Keys <= n.retired.Keys
  {
    hide EpochsDisjoint, Overlap;
    RetireKeeps(t, root, Removed, seqNo);
    SameEpochs(Retire(t, root, Removed, seqNo), Apply(t, seqNo, RemoveRoot(root, project)));
  }

  lemma RetireAllEpochs(t: Tables, gone: set<Path>, seqNo: nat)
    requires EpochsDisjoint(t)
    ensures EpochsDisjoint(RetireAll(t, gone, seqNo))
    ensures forall e :: e in EpochsOf(t, gone) ==> e in RetireAll(t, gone, seqNo).retired && e !in RetireAll(t, gone, seqNo).approved
  {
    hide RootOf, RetiredAt;
    var n := RetireAll(t, gone, seqNo);
    ApprovedLeft(t, gone);
    assert forall p :: p in n.bound ==> n.bound[p].epoch !in EpochsOf(t, gone);
  }

  /** An approval that is left belongs to a binding that is left. */
  lemma ApprovedLeft(t: Tables, gone: set<Path>)
    requires EpochsDisjoint(t)
    ensures forall e :: e in t.approved - EpochsOf(t, gone) ==> exists p :: p in t.bound - gone && (t.bound - gone)[p].epoch == e
  {
    forall e | e in t.approved - EpochsOf(t, gone) ensures exists p :: p in t.bound - gone && (t.bound - gone)[p].epoch == e {
      var p :| p in t.bound && t.bound[p].epoch == e;
      assert p in t.bound - gone;
    }
  }

  lemma InheritedApart(t: Tables, project: string, successor: Option<string>)
    requires Apart(t)
    ensures Apart(t.(roots := Inherited(t.roots, project, successor), containers := InheritedContainers(t.containers, project, successor)))
  {
    hide Overlap;
  }

  /**
   * Removing a project retires every binding it has, with the approval; its
   * roots and containers pass unbound to the successor, or are dropped with it.
   */
  lemma RemoveProjectKeeps(t: Tables, project: string, successor: Option<string>, seqNo: nat)
    requires Inv(t)
    ensures var n := Apply(t, seqNo, RemoveProject(project, successor));
      && Inv(n) && t.retired.Keys <= n.retired.Keys
      && (forall r :: r in t.roots && t.roots[r] == project ==> r !in n.bound && (r in n.roots <==> successor.Some?))
      && (forall r :: r in t.bound && t.roots[r] == project ==> t.bound[r].epoch in n.retired && t.bound[r].epoch !in n.approved)
      && (forall r :: r in t.roots && t.roots[r] != project ==>
            && r in n.roots && n.roots[r] == t.roots[r]
            && (r in t.bound <==> r in n.bound) && (r in n.bound ==> n.bound[r] == t.bound[r]))
  {
    hide Apart, EpochsDisjoint, RootOf, RetiredAt;
    RetireAllEpochs(t, BoundTo(t, project), seqNo);
    InheritedApart(t, project, successor);
    var n := Apply(t, seqNo, RemoveProject(project, successor));
    SameEpochs(RetireAll(t, BoundTo(t, project), seqNo), n);
    SameApart(t.(roots := Inherited(t.roots, project, successor), containers := InheritedContainers(t.containers, project, successor)), n);
  }

  /** What an attachment was decided on. */
  lemma AttachGrounds(t: Tables, container: Path, project: string, root: Path, epoch: string, incarnation: string, disk: Disk)
    requires DecideAttach(t, container, project, root, epoch, incarnation, disk) == Ok(Some(AttachParent(container, project, root, epoch)))
    ensures root in t.roots && t.roots[root] == project
    ensures root in t.bound && t.bound[root].epoch == epoch && epoch in t.approved && disk == Token(incarnation)
    ensures forall p :: p in t.roots || p in t.containers ==> !Overlap(p, container)
  {
    hide Overlap, ReplacedOnDisk;
  }

  lemma AttachKeeps(t: Tables, container: Path, project: string, root: Path, epoch: string, incarnation: string, disk: Disk, seqNo: nat)
    requires Inv(t) && DecideAttach(t, container, project, root, epoch, incarnation, disk) == Ok(Some(AttachParent(container, project, root, epoch)))
    ensures Inv(Apply(t, seqNo, AttachParent(container, project, root, epoch)))
    ensures root in t.bound && t.bound[root].epoch == epoch && epoch in t.approved && disk == Token(incarnation)
  {
    hide EpochsDisjoint, DecideAttach, Overlap;
    AttachGrounds(t, container, project, root, epoch, incarnation, disk);
    forall c ensures Overlap(c, container) <==> Overlap(container, c) { OverlapSymmetric(c, container); }
    SameEpochs(t, Apply(t, seqNo, AttachParent(container, project, root, epoch)));
  }

  lemma OverlapSymmetric(a: Path, b: Path)
    ensures Overlap(a, b) <==> Overlap(b, a)
  {
  }

  // ------------------------------------------------------------- whole runs

  datatype Request =
    | Bind(root: Path, token: Option<string>, epoch: string)
    | SetApproval(root: Path, disk: Disk, approve: bool)
    | Add(projects: set<string>, root: Path, project: string, outside: Option<Refusal>)
    | Remove(root: Path, project: string, logEnabled: bool)
    | RemoveWhole(projects: set<string>, project: string, successor: Option<string>, outside: Option<Refusal>)
    | Attach(container: Path, project: string, root: Path, epoch: string, incarnation: string, disk: Disk)

  function Decide(t: Tables, q: Request): Decision {
    match q
    case Bind(root, token, epoch) => DecideBind(t, root, token, epoch)
    case SetApproval(root, disk, approve) => DecideApproval(t, root, disk, approve)
    case Add(projects, root, project, outside) => DecideAdd(t, projects, root, project, outside)
    case Remove(root, project, logEnabled) => DecideRemove(t, root, project, logEnabled)
    case RemoveWhole(projects, project, successor, outside) => DecideRemoveProject(projects, project, successor, outside)
    case Attach(container, project, root, epoch, incarnation, disk) => DecideAttach(t, container, project, root, epoch, incarnation, disk)
  }

  datatype State = State(t: Tables, journal: seq<Op>)

  /** Journal and apply what was decided; a refusal or a no-op does neither. */
  ghost function Serve(s: State, q: Request): State {
    match Decide(s.t, q)
    case Ok(Some(op)) => State(Apply(s.t, |s.journal| + 1, op), s.journal + [op])
    case _ => s
  }

  ghost function Run(s: State, qs: seq<Request>): State {
    if qs == [] then s else Serve(Run(s, qs[..|qs| - 1]), qs[|qs| - 1])
  }

  /** One more request: a run goes on from where it was. */
  lemma RunGoesOn(s: State, qs: seq<Request>, q: Request)
    ensures Run(s, []) == s && Run(s, qs + [q]) == Serve(Run(s, qs), q)
  {
    hide Serve;
    assert (qs + [q])[..|qs + [q]| - 1] == qs;
  }

  /** Bindings draw epochs that were never used. */
  ghost predicate FreshFor(s: State, q: Request) { q.Bind? ==> Fresh(s.t, q.epoch) }

  ghost predicate FreshEpochs(s: State, qs: seq<Request>) {
    qs == [] || (FreshEpochs(s, qs[..|qs| - 1]) && FreshFor(Run(s, qs[..|qs| - 1]), qs[|qs| - 1]))
  }

  lemma ServeKeeps(s: State, q: Request)
    requires Inv(s.t) && FreshFor(s, q)
    ensures Inv(Serve(s, q).t) && s.t.retired.Keys <= Serve(s, q).t.retired.Keys
  {
    hide Inv, Apply, DecideBind, DecideApproval, DecideAttach, NestedRoot, OverlapsContainer, Retire;
    var d := Decide(s.t, q);
    if d.Ok? && d.value.Some? {
      var n := |s.journal| + 1;
      match q {
        case Bind(root, token, epoch) => BindKeeps(s.t, root, token, epoch, n);
        case SetApproval(root, disk, approve) => ApprovalKeeps(s.t, root, disk, approve, n);
        case Add(projects, root, project, outside) =>
          AddKeeps(s.t, projects, root, project, outside, n);
          SameRetired(s.t, n, d.value.value);
        case Remove(root, project, _) => RemoveKeeps(s.t, root, project, n);
        case RemoveWhole(_, project, successor, _) => RemoveProjectKeeps(s.t, project, successor, n);
        case Attach(container, project, root, epoch, incarnation, disk) =>
          AttachDecides(s.t, container, project, root, epoch, incarnation, disk);
          AttachKeeps(s.t, container, project, root, epoch, incarnation, disk, n);
          SameRetired(s.t, n, d.value.value);
      }
    }
  }

  lemma AttachDecides(t: Tables, container: Path, project: string, root: Path, epoch: string, incarnation: string, disk: Disk)
    requires DecideAttach(t, container, project, root, epoch, incarnation, disk).Ok?
    requires DecideAttach(t, container, project, root, epoch, incarnation, disk).value.Some?
    ensures DecideAttach(t, container, project, root, epoch, incarnation, disk).value.value == AttachParent(container, project, root, epoch)
  {
  }

  lemma SameRetired(t: Tables, n: nat, op: Op)
    requires op.AddRoot? || op.AttachParent?
    ensures Apply(t, n, op).retired == t.retired
  {
  }

  /**
   * In every run with fresh epochs: active and retired epochs never meet,
   * every approval names an active epoch, roots and containers stay apart, and
   * the journal replays to exactly the live tables.
   */
  lemma {:induction false} RunKeeps(s: State, qs: seq<Request>)
    requires Inv(s.t) && s.t == Replay(s.journal) && FreshEpochs(s, qs)
    ensures Inv(Run(s, qs).t) && Run(s, qs).t == Replay(Run(s, qs).journal) && s.t.retired.Keys <= Run(s, qs).t.retired.Keys
  {
    hide Inv, Decide, Apply, FreshFor;
    if qs != [] {
      var before := Run(s, qs[..|qs| - 1]);
      RunKeeps(s, qs[..|qs| - 1]);
      ServeKeeps(before, qs[|qs| - 1]);
      ReplayNext(before, qs[|qs| - 1]);
    }
  }

  lemma ReplayNext(s: State, q: Request)
    requires s.t == Replay(s.journal)
    ensures Serve(s, q).t == Replay(Serve(s, q).journal)
  {
    hide Decide, Apply;
    var n := Serve(s, q).journal;
    if n != s.journal { assert n[..|n| - 1] == s.journal; }
  }

  /** From an empty journal the invariant needs no premise beyond fresh epochs. */
  lemma RunFromEmpty(qs: seq<Request>)
    requires FreshEpochs(State(EMPTY, []), qs)
    ensures Inv(Run(State(EMPTY, []), qs).t) && Run(State(EMPTY, []), qs).t == Replay(Run(State(EMPTY, []), qs).journal)
  {
    hide Run, FreshEpochs;
    assert EMPTY == Replay([]);
    RunKeeps(State(EMPTY, []), qs);
  }

  /** A retired epoch is never active or approved again. */
  lemma RetiredForGood(s: State, earlier: seq<Request>, later: seq<Request>, epoch: string)
    requires Inv(s.t) && s.t == Replay(s.journal) && FreshEpochs(s, earlier) && FreshEpochs(Run(s, earlier), later)
    requires epoch in Run(s, earlier).t.retired
    ensures var t := Run(Run(s, earlier), later).t;
      epoch in t.retired && epoch !in t.approved && forall r :: r in t.bound ==> t.bound[r].epoch != epoch
  {
    hide Run, FreshEpochs, Replay;
    RunKeeps(s, earlier);
    RunKeeps(Run(s, earlier), later);
    var t := Run(Run(s, earlier), later).t;
    RetiredInactive(t, epoch);
  }

  lemma RetiredInactive(t: Tables, epoch: string)
    requires Inv(t) && epoch in t.retired
    ensures epoch !in t.approved && forall r :: r in t.bound ==> t.bound[r].epoch != epoch
  {
    hide Apart;
  }

  // ------------------------------------------------------------ the store

  class BindingStore {
    var roots: map<Path, string>
    var bound: map<Path, Bound>
    var approved: map<string, nat>
    var retired: map<string, Retired>
    var containers: map<Path, Container>
    var journal: seq<Op>

    function View(): State
      reads this
    {
      State(Tables(roots, bound, approved, retired, containers), journal)
    }

    constructor ()
      ensures View() == State(EMPTY, [])
    {
      roots, bound, approved, retired, containers, journal := map[], map[], map[], map[], map[], [];
    }

    /** Append to the journal; the entry's sequence number. */
    method Append(op: Op) returns (seqNo: nat)
      modifies this`journal
      ensures journal == old(journal) + [op] && seqNo == |journal|
    {
      journal := journal + [op];
      return |journal|;
    }

    method RetireRoot(root: Path, reason: Reason, seqNo: nat)
      modifies this`bound, this`approved, this`retired
      ensures View().t == Retire(old(View().t), root, reason, seqNo)
    {
      if root in bound {
        var b := bound[root];
        retired := retired[b.epoch := Retired(root, b.project, b.incarnation, reason, seqNo)];
        approved := approved - {b.epoch};
        bound := bound - {root};
      }
    }

    method BindRootTo(root: Path, token: Option<string>, epoch: string) returns (r: Result<string, Refusal>)
      requires Inv(View().t)
      modifies this
      ensures View() == Serve(old(View()), Bind(root, token, epoch))
      ensures r.Ok? <==> DecideBind(old(View().t), root, token, epoch).Ok?
      ensures r.Err? ==> DecideBind(old(View().t), root, token, epoch) == Err(r.error)
      ensures r.Ok? ==> root in bound && bound[root].epoch == r.value && bound[root].incarnation == token.value && bound[root].project == roots[root]
    {
      hide Inv;
      if token.None? { return Err(IdentityUnverifiable); }
      if root !in roots { return Err(NotFound); }
      if root in bound && bound[root].incarnation == token.value && bound[root].project == roots[root] { return Ok(bound[root].epoch); }
      var replaced := if root in bound then Some(bound[root].epoch) else None;
      InvEpochs(View().t);
      if root in bound { RootOfBound(View().t, root); }
      var seqNo := Append(BindRoot(root, roots[root], token.value, epoch, replaced));
      RetireRoot(root, Replaced, seqNo);
      bound := bound[root := Bound(roots[root], token.value, epoch, seqNo)];
      return Ok(epoch);
    }

    method ApproveOrWithdraw(root: Path, disk: Disk, approve: bool) returns (r: Result<string, Refusal>)
      modifies this`approved, this`journal
      ensures View() == Serve(old(View()), SetApproval(root, disk, approve))
      ensures r.Err? ==> DecideApproval(old(View().t), root, disk, approve) == Err(r.error)
      ensures r.Ok? ==> LiveEpoch(View().t, root, disk) == Some(r.value) && (r.value in approved <==> approve)
    {
      var t := View().t;
      var epoch := LiveEpoch(t, root, disk);
      if epoch.None? { return Err(if ReplacedOnDisk(t, root, disk) then RootReplaced else RootNotBound); }
      if (epoch.value in approved) == approve { return Ok(epoch.value); }
      if approve {
        var seqNo := Append(ApproveRoot(root, epoch.value));
        approved := approved[epoch.value := seqNo];
      } else {
        var seqNo := Append(UnapproveRoot(root, epoch.value));
        approved := approved - {epoch.value};
      }
      return Ok(epoch.value);
    }

    method AddRootTo(projects: set<string>, root: Path, project: string, outside: Option<Refusal>) returns (r: Result<(), Refusal>)
      modifies this`roots, this`journal
      ensures View() == Serve(old(View()), Add(projects, root, project, outside))
      ensures r.Err? ==> DecideAdd(old(View().t), projects, root, project, outside) == Err(r.error)
      ensures r.Ok? ==> root in roots && roots[root] == project
    {
      var t := View().t;
      if project !in projects { return Err(NotFound); }
      if root in roots {
        if roots[root] == project { return Ok(()); }
        return Err(RootConflict);
      }
      if NestedRoot(t, root) { return Err(RootNested); }
      if OverlapsContainer(t, root) { return Err(RootOverlapsContainer); }
      if outside.Some? { return Err(outside.value); }
      var seqNo := Append(AddRoot(root, project));
      roots := roots[root := project];
      return Ok(());
    }

    method RemoveRootOf(root: Path, project: string, logEnabled: bool) returns (r: Result<(), Refusal>)
      modifies this
      ensures View() == Serve(old(View()), Remove(root, project, logEnabled))
      ensures r.Err? ==> DecideRemove(old(View().t), root, project, logEnabled) == Err(r.error)
      ensures r.Ok? ==> root !in roots && root !in bound
    {
      hide RootsOf;
      if root !in roots { return Err(NotFound); }
      if roots[root] != project { return Err(RootConflict); }
      if |RootsOf(View().t, project)| <= 1 && !logEnabled { return Err(LastRoot); }
      var seqNo := Append(RemoveRoot(root, project));
      RetireRoot(root, Removed, seqNo);
      containers := Detached(containers, root);
      roots := roots - {root};
      return Ok(());
    }

    /** Retire every binding of the project. */
    method RetireProjectBindings(project: string, seqNo: nat)
      requires EpochsDisjoint(View().t)
      modifies this`bound, this`approved, this`retired
      ensures View().t == RetireAll(old(View().t), BoundTo(old(View().t), project), seqNo)
    {
      hide EpochsDisjoint, Retire, RetireAll;
      ghost var before := View().t;
      var todo := BoundTo(View().t, project);
      RetireNone(before, seqNo);
      ghost var done: set<Path> := {};
      while todo != {}
        invariant todo !! done && todo + done == BoundTo(before, project)
        invariant View().t == RetireAll(before, done, seqNo)
        decreases |todo|
      {
        var root :| root in todo;
        RetireOneMore(before, done, root, seqNo);
        RetireRoot(root, Removed, seqNo);
        todo, done := todo - {root}, done + {root};
      }
    }

    /** Remove a project: its bindings first, then its roots and containers, which a successor inherits. */
    method RemoveProjectWhole(projects: set<string>, project: string, successor: Option<string>, outside: Option<Refusal>)
      returns (r: Result<(), Refusal>)
      requires Inv(View().t)
      modifies this
      ensures View() == Serve(old(View()), RemoveWhole(projects, project, successor, outside))
      ensures r.Err? ==> DecideRemoveProject(projects, project, successor, outside) == Err(r.error)
    {
      hide Inv, RetireAll, BoundTo, Inherited, InheritedContainers;
      if project !in projects { return Err(NotFound); }
      if successor.Some? && (successor.value == project || successor.value !in projects) { return Err(NotFound); }
      if outside.Some? { return Err(outside.value); }
      InvEpochs(View().t);
      var seqNo := Append(RemoveProject(project, successor));
      RetireProjectBindings(project, seqNo);
      roots, containers := Inherited(roots, project, successor), InheritedContainers(containers, project, successor);
      return Ok(());
    }

    method AttachDerivedParent(container: Path, project: string, root: Path, epoch: string, incarnation: string, disk: Disk) returns (r: Result<(), Refusal>)
      modifies this`containers, this`journal
      ensures View() == Serve(old(View()), Attach(container, project, root, epoch, incarnation, disk))
      ensures r.Err? ==> DecideAttach(old(View().t), container, project, root, epoch, incarnation, disk) == Err(r.error)
      ensures r.Ok? ==> container in containers && containers[container] == Container(project, root, epoch)
    {
      hide ReplacedOnDisk, LiveEpoch, OverlapsContainer;
      var t := View().t;
      if root !in roots { return Err(RootNotRegistered); }
      if roots[root] != project { return Err(RootConflict); }
      if epoch in retired { return Err(BindingRetired); }
      if ReplacedOnDisk(t, root, disk) { return Err(RootReplaced); }
      if LiveEpoch(t, root, disk) != Some(epoch) { return Err(BindingStale); }
      LiveIsBound(t, root, disk);
      if bound[root].incarnation != incarnation { return Err(IncarnationMismatch); }
      if epoch !in approved { return Err(BindingUnapproved); }
      if container in containers {
        if containers[container] == Container(project, root, epoch) { return Ok(()); }
        return Err(ContainerForeign);
      }
      if OverlapsContainer(t, container) { return Err(ContainerOverlaps); }
      if exists q :: q in roots && Overlap(q, container) { return Err(ContainerOverlaps); }
      var seqNo := Append(AttachParent(container, project, root, epoch));
      containers := containers[container := Container(project, root, epoch)];
      return Ok(());
    }
  }

  lemma RetireNone(t: Tables, seqNo: nat)
    ensures RetireAll(t, {}, seqNo) == t
  {
    hide RootOf, RetiredAt;
    var n := RetireAll(t, {}, seqNo);
    assert n.bound == t.bound && n.approved == t.approved && n.retired == t.retired;
  }

  /** One root more, table by table. */
  lemma RetiredMore(t: Tables, done: set<Path>, root: Path, seqNo: nat)
    requires root in t.bound && RootOf(t, t.bound[root].epoch) == Some(root)
    ensures var (a, b, epoch) := (RetireAll(t, done, seqNo), RetireAll(t, done + {root}, seqNo), t.bound[root].epoch);
      && b.bound == a.bound - {root} && b.approved == a.approved - {epoch} && b.retired == a.retired[epoch := RetiredAt(t, epoch, seqNo)]
      && b.roots == a.roots && b.containers == a.containers && (root !in done ==> root in a.bound && a.bound[root] == t.bound[root])
  {
    hide RootOf, RetiredAt, EpochsOf;
    MoreEpochs(t, done, root);
  }

  lemma MoreEpochs(t: Tables, done: set<Path>, root: Path)
    requires root in t.bound
    ensures EpochsOf(t, done + {root}) == EpochsOf(t, done) + {t.bound[root].epoch}
  {
  }

  /** Retiring one root more is retiring it after the others. */
  lemma RetireOneMore(t: Tables, done: set<Path>, root: Path, seqNo: nat)
    requires EpochsDisjoint(t) && root in t.bound && root !in done
    ensures Retire(RetireAll(t, done, seqNo), root, Removed, seqNo) == RetireAll(t, done + {root}, seqNo)
  {
    hide RootOf, RetireAll, EpochsDisjoint;
    RootOfBound(t, root);
    RetiredMore(t, done, root, seqNo);
  }

  lemma InvEpochs(t: Tables)
    requires Inv(t)
    ensures EpochsDisjoint(t)
  {
  }

  lemma LiveIsBound(t: Tables, root: Path, disk: Disk)
    requires LiveEpoch(t, root, disk).Some?
    ensures root in t.bound
  {
  }
}
